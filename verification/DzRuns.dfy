/** One round of the machine, seen from an entry of the map the analyser computed. */
module DzRuns {
  import opened Basics
  import opened DzProgram
  import opened DzAnalysis
  import opened DzMachine
  import opened DzSoundness

  /** The machine stands where entry k says, at the depth entry k says. */
  ghost predicate AtEntry<V>(prog: seq<Elem>, dz: Dz, st: State<V>, k: nat)
    requires Loaded(prog, dz)
  {
    && k <= |prog|
    && (k < |prog| ==> prog[k].Instr?)
    && dz.pm[k].pc == st.pc && dz.pm[k].sp == st.sp + 1
    && |st.stack| == DZ_STACK_SIZE
  }

  /** What every reachable state satisfies: pc is an instruction boundary, the
      depth is the one on the map and within the reserved stack, the operand of a
      stack relative instruction lies below the top, and RETURN finds one cell. */
  ghost predicate Legal<V>(prog: seq<Elem>, dz: Dz, st: State<V>)
    requires Loaded(prog, dz)
  {
    && (exists k: nat :: AtEntry(prog, dz, st, k))
    && 0 <= st.sp + 1 <= dz.reqStack
    && 0 <= st.pc < |dz.code| && dz.code[st.pc].Code?
    && (OperandOf(dz.code[st.pc].op) == StackRelative ==>
          0 <= st.sp + dz.code[st.pc].arg < st.sp)
    && (dz.code[st.pc].op == RETURN ==> st.sp == 0)
  }

  /** Instructions that need a cell below dz_stack[0], in this state. */
  ghost predicate HitsGround<V>(code: seq<Cell>, alu: Alu<V>, st: State<V>)
    requires 0 <= st.pc < |code| && code[st.pc].Code?
  {
    match code[st.pc].op
    case POP | Dia(_) | Branch_l(_) => st.sp == 0
    case DUP | PUSH_i | RAND | GAUSS => st.sp == -1
    case BEGFOR_l => st.sp == 2 && 2 < |st.stack| && !Continues(alu, st.stack[0], st.x, st.stack[1])
    case ENDFOR_l =>
      st.sp == 2 && 2 < |st.stack|
      && !Continues(alu, st.stack[0], alu.diadic(ADD, st.x, st.stack[0]), st.stack[1])
    case _ => false
  }

  lemma {:induction false} LandsOnInstruction(prog: seq<Elem>, dz: Dz, j: nat) returns (k: nat)
    requires Loaded(prog, dz) && j <= |prog|
    ensures j <= k <= |prog| && (k < |prog| ==> prog[k].Instr?)
    ensures dz.pm[k].pc == dz.pm[j].pc && dz.pm[k].sp == dz.pm[j].sp
    decreases |prog| - j
  {
    k := j;
    if j < |prog| && !prog[j].Instr? {
      assert Linked(prog, dz.pm, j);
      k := LandsOnInstruction(prog, dz, j + 1);
    }
  }

  lemma {:induction false} ConstantsThere(code: seq<Cell>, pc: nat, n: nat)
    requires pc + n <= |code| && forall i :: pc <= i < pc + n ==> code[i].Constant?
    ensures ReadConstants(code, pc, n).Some?
    decreases n
  {
    if n > 0 {
      ConstantsThere(code, pc + 1, n - 1);
    }
  }

  /** What is generated for an instruction: one code cell, then its operands. */
  lemma GenCodeShape(pm: seq<Entry>, k: nat, e: Elem, numArg: int)
    requires k + 2 <= |pm| && e.Instr? && GenCode(pm, k, e, numArg).Ok?
    ensures var cells := GenCode(pm, k, e, numArg).value;
            && |cells| > 0 && cells[0].Code? && cells[0].op != RETURN
            && MoveOf(cells[0].op) ==
                 (if cells[0].op == NOP then Keep else if cells[0].op == DUP then Push1 else MoveOf(e.op))
            && (OperandOf(cells[0].op) == Immediate ==> |cells| == 2)
            && (OperandOf(cells[0].op) == Vector ==> |cells| == 1 + cells[0].arg)
            && forall i :: 1 <= i < |cells| ==> cells[i].Constant?
  {}

  /** The immediate operands of the instruction at entry k stand behind it. */
  lemma OperandCells(prog: seq<Elem>, dz: Dz, k: nat)
    requires Loaded(prog, dz) && k < |prog| && prog[k].Instr?
    ensures 0 <= dz.pm[k].pc < |dz.code| && dz.code[dz.pm[k].pc].Code?
    ensures var pc := dz.pm[k].pc;
            var op, arg := dz.code[pc].op, dz.code[pc].arg;
            && (OperandOf(op) == Immediate ==> pc + 1 < |dz.code| && dz.code[pc + 1].Constant?)
            && (OperandOf(op) == Vector ==> ReadConstants(dz.code, pc + 1, arg).Some?)
            && MoveOf(op) == (if op == NOP then Keep else if op == DUP then Push1 else MoveOf(prog[k].op))
            && op != RETURN
  {
    hide GenCode, MoveOf, OperandOf, Linked, Joined;
    FirstCell(prog, dz, k);
    assert LaidOut(prog, dz.pm, dz.numArg, dz.code, 0, k);
    GenCodeShape(dz.pm, k, prog[k], dz.numArg);
    var pc := dz.pm[k].pc;
    var cells := GenCode(dz.pm, k, prog[k], dz.numArg).value;
    forall i | pc <= i < pc + |cells| ensures dz.code[i] == cells[i - pc] {
      assert dz.code[pc..pc + |cells|][i - pc] == cells[i - pc];
    }
    if OperandOf(cells[0].op) == Vector {
      ConstantsThere(dz.code, pc + 1, cells[0].arg);
    }
  }

  /** One round, seen without the values. */
  lemma StepFollows<V>(code: seq<Cell>, alu: Alu<V>, rnd: V, st: State<V>)
    requires 0 <= st.pc < |code| && code[st.pc].Code?
    ensures var out := Step(code, alu, rnd, st);
            out.Running? ==>
              && |out.st.stack| == |st.stack|
              && (out.st.pc, out.st.sp + 1) in Successors(code[st.pc].op, code[st.pc].arg, st.pc, st.sp + 1)
  {
    match code[st.pc].op
    case POP | DUP | RAND | GAUSS | Dia(_) | Mon(_) | Dia_r(_) =>
    case Branch_l(_) | BR_l =>
    case BEGFOR_l | ENDFOR_l =>
    case PUSH_i | Dia_i(_) | SPLINE_n | DSPLINE_n =>
    case PUSH_r | SET_r | POP_r =>
    case _ =>
  }

  /** Depths around the instruction at entry k, from the map. */
  lemma DepthsAround(prog: seq<Elem>, dz: Dz, k: nat)
    requires Loaded(prog, dz) && k < |prog| && prog[k].Instr? && dz.numArg >= 0
    ensures 0 <= dz.pm[k].sp <= dz.reqStack <= DZ_STACK_SIZE
    ensures match MoveOf(prog[k].op)
            case Pop1 => 1 <= dz.pm[k].sp
            case Push1 => dz.pm[k].sp + 1 <= dz.reqStack
            case Loop => 3 <= dz.pm[k].sp
            case _ => true
  {
    assert Linked(prog, dz.pm, k);
  }

  /** Steps that pop, at a depth the map allows. */
  lemma PopFaults<V>(code: seq<Cell>, alu: Alu<V>, rnd: V, st: State<V>)
    requires 0 <= st.pc < |code| && code[st.pc].Code? && 0 <= st.sp < |st.stack|
    requires MoveOf(code[st.pc].op) in {Pop1, Loop} && OperandOf(code[st.pc].op) != StackRelative
    requires MoveOf(code[st.pc].op) == Loop ==> st.sp >= 2
    ensures Step(code, alu, rnd, st).Fault? <==> HitsGround(code, alu, st)
    ensures Step(code, alu, rnd, st).Fault? ==> Step(code, alu, rnd, st).what == StackCell(-1)
    ensures !Step(code, alu, rnd, st).Returned?
  {
  }

  /** Steps that do not pop, at a depth the map allows. */
  lemma OtherFaults<V>(code: seq<Cell>, alu: Alu<V>, rnd: V, st: State<V>)
    requires 0 <= st.pc < |code| && code[st.pc].Code? && -1 <= st.sp < |st.stack| && code[st.pc].op != RETURN
    requires MoveOf(code[st.pc].op) !in {Pop1, Loop} || OperandOf(code[st.pc].op) == StackRelative
    requires OperandOf(code[st.pc].op) == Immediate ==> st.pc + 1 < |code| && code[st.pc + 1].Constant?
    requires OperandOf(code[st.pc].op) == Vector ==> ReadConstants(code, st.pc + 1, code[st.pc].arg).Some?
    requires OperandOf(code[st.pc].op) == StackRelative ==> 0 <= st.sp + code[st.pc].arg < st.sp
    ensures Step(code, alu, rnd, st).Fault? <==> HitsGround(code, alu, st)
    ensures Step(code, alu, rnd, st).Fault? ==> Step(code, alu, rnd, st).what == StackCell(-1)
    ensures !Step(code, alu, rnd, st).Returned?
  {
  }

  /** The only fault an entry can produce is on the cell below the stack, and it
      produces it exactly when it hits the ground. */
  lemma FaultsIff<V>(prog: seq<Elem>, dz: Dz, alu: Alu<V>, rnd: V, st: State<V>, k: nat)
    requires Loaded(prog, dz) && dz.numArg >= 0 && k < |prog|
    requires Keeps(prog, dz, k) && AtEntry(prog, dz, st, k)
    requires 0 <= st.pc < |dz.code| && dz.code[st.pc].Code?
    ensures Step(dz.code, alu, rnd, st).Fault? <==> HitsGround(dz.code, alu, st)
    ensures Step(dz.code, alu, rnd, st).Fault? ==> Step(dz.code, alu, rnd, st).what == StackCell(-1)
    ensures !Step(dz.code, alu, rnd, st).Returned?
  {
    hide Loaded, GenCode, Lands, Step, HitsGround, Successors;
    OperandCells(prog, dz, k);
    DepthsAround(prog, dz, k);
    var op := dz.code[st.pc].op;
    if MoveOf(op) in {Pop1, Loop} && OperandOf(op) != StackRelative {
      PopFaults(dz.code, alu, rnd, st);
    } else {
      OtherFaults(dz.code, alu, rnd, st);
    }
  }

  /** The state at an entry is legal. */
  lemma EntryIsLegal<V>(prog: seq<Elem>, dz: Dz, st: State<V>, k: nat)
    requires Loaded(prog, dz) && dz.numArg >= 0 && AtEntry(prog, dz, st, k)
    requires k < |prog| ==> Keeps(prog, dz, k)
    ensures Legal(prog, dz, st)
  {
    if k < |prog| {
      DepthsAround(prog, dz, k);
      OperandCells(prog, dz, k);
      assert Keeps(prog, dz, k);
    } else {
      assert LaidOut(prog, dz.pm, dz.numArg, dz.code, 0, k);
    }
  }

  /** One round from an entry leads to an entry. */
  lemma StepLands<V>(prog: seq<Elem>, dz: Dz, alu: Alu<V>, rnd: V, st: State<V>, k: nat) returns (j: nat)
    requires Loaded(prog, dz) && dz.numArg >= 0 && k < |prog|
    requires Keeps(prog, dz, k) && AtEntry(prog, dz, st, k)
    requires Step(dz.code, alu, rnd, st).Running?
    ensures AtEntry(prog, dz, Step(dz.code, alu, rnd, st).st, j)
  {
    var next := Step(dz.code, alu, rnd, st).st;
    StepFollows(dz.code, alu, rnd, st);
    assert Lands(dz.pm, |prog|, next.pc, next.sp + 1);
    var i: nat :| i <= |prog| && dz.pm[i].pc == next.pc && dz.pm[i].sp == next.sp + 1;
    j := LandsOnInstruction(prog, dz, i);
  }

  // ------------------------------------------------ the reserved stack

  /** Same registers, same code address, same first n cells. */
  ghost predicate SameBelow<V>(st: State<V>, su: State<V>, n: int) {
    && st.pc == su.pc && st.sp == su.sp && st.x == su.x && |st.stack| == |su.stack|
    && forall i :: 0 <= i < n && i < |st.stack| ==> st.stack[i] == su.stack[i]
  }

  /** Two outcomes that differ at most in cells from n on. */
  ghost predicate SameOutcome<V>(out: Outcome<V>, out': Outcome<V>, n: int) {
    if out.Running? && out'.Running? then SameBelow(out.st, out'.st, n) else out == out'
  }

  ghost predicate SameFrom<V>(st: State<V>, su: State<V>, n: int) {
    |st.stack| == |su.stack| && forall i :: 0 <= i < |st.stack| && n <= i ==> st.stack[i] == su.stack[i]
  }

  ghost predicate TouchesBelow(op: Op, arg: int, depth: int, n: int) {
    forall i :: i in Touched(op, arg, depth) ==> -1 <= i < n
  }

  lemma PopSame<V>(st: State<V>, su: State<V>, n: int)
    requires SameBelow(st, su, n) && st.sp - 1 < n
    ensures SameOutcome(Pop(st), Pop(su), n) && (Pop(st).Running? ==> Pop(st).st.stack == st.stack)
  {
  }

  lemma PushSame<V>(st: State<V>, su: State<V>, v: V, n: int)
    requires SameBelow(st, su, n) && st.sp < n
    ensures SameOutcome(Push(st, v), Push(su, v), n) && (Push(st, v).Running? ==> SameFrom(Push(st, v).st, st, n))
  {
  }

  /** Instructions with a stack relative operand, which is a cell below n. */
  lemma RelativeSame<V>(code: seq<Cell>, alu: Alu<V>, rnd: V, st: State<V>, su: State<V>, n: int)
    requires 0 <= st.pc < |code| && code[st.pc].Code? && SameBelow(st, su, n)
    requires OperandOf(code[st.pc].op) == StackRelative
    requires TouchesBelow(code[st.pc].op, code[st.pc].arg, st.sp + 1, n)
    ensures var out := Step(code, alu, rnd, st);
            && SameOutcome(out, Step(code, alu, rnd, su), n)
            && (out.Running? ==> SameFrom(out.st, st, n))
  {
    var op, arg := code[st.pc].op, code[st.pc].arg;
    match op
    case PUSH_r =>
      assert st.sp in Touched(op, arg, st.sp + 1) && st.sp + arg in Touched(op, arg, st.sp + 1);
    case SET_r =>
      assert st.sp - 1 in Touched(op, arg, st.sp + 1) && st.sp + arg in Touched(op, arg, st.sp + 1);
    case Dia_r(d) =>
      assert st.sp + arg in Touched(op, arg, st.sp + 1);
    case POP_r =>
  }

  lemma LoopSame<V>(alu: Alu<V>, st: State<V>, su: State<V>, arg: int, n: int)
    requires SameBelow(st, su, n) && st.sp - 1 < n
    requires InStack(st, st.sp - 1) && InStack(st, st.sp - 2)
    ensures SameOutcome(LoopTest(alu, st, arg), LoopTest(alu, su, arg), n)
    ensures LoopTest(alu, st, arg).Running? ==> LoopTest(alu, st, arg).st.stack == st.stack
  {
  }

  /** Instructions that pop. */
  lemma PopTouches<V>(code: seq<Cell>, alu: Alu<V>, rnd: V, st: State<V>, su: State<V>, n: int)
    requires 0 <= st.pc < |code| && code[st.pc].Code? && SameBelow(st, su, n)
    requires MoveOf(code[st.pc].op) in {Pop1, Loop} && OperandOf(code[st.pc].op) != StackRelative
    requires TouchesBelow(code[st.pc].op, code[st.pc].arg, st.sp + 1, n)
    ensures var out := Step(code, alu, rnd, st);
            && SameOutcome(out, Step(code, alu, rnd, su), n)
            && (out.Running? ==> SameFrom(out.st, st, n))
  {
    hide Pop, LoopTest;
    var op, arg := code[st.pc].op, code[st.pc].arg;
    var s1, s2 := st.(pc := st.pc + 1), su.(pc := su.pc + 1);
    assert st.sp - 1 in Touched(op, arg, st.sp + 1);
    if MoveOf(op) == Pop1 {
      PopSame(s1, s2, n);
      PopSame(s1.(pc := s1.pc + arg), s2.(pc := s2.pc + arg), n);
    } else if InStack(s1, s1.sp - 1) && InStack(s1, s1.sp - 2) {
      LoopSame(alu, s1, s2, arg, n);
      var next := alu.diadic(ADD, st.x, st.stack[st.sp - 2]);
      LoopSame(alu, s1.(x := next), s2.(x := next), arg, n);
    }
  }

  /** Instructions that push a value of their own. */
  lemma PushTouches<V>(code: seq<Cell>, alu: Alu<V>, rnd: V, st: State<V>, su: State<V>, n: int)
    requires 0 <= st.pc < |code| && code[st.pc].Code? && SameBelow(st, su, n)
    requires MoveOf(code[st.pc].op) == Push1 && OperandOf(code[st.pc].op) != StackRelative
    requires TouchesBelow(code[st.pc].op, code[st.pc].arg, st.sp + 1, n)
    ensures var out := Step(code, alu, rnd, st);
            && SameOutcome(out, Step(code, alu, rnd, su), n)
            && (out.Running? ==> SameFrom(out.st, st, n))
  {
    hide Push;
    var op, arg := code[st.pc].op, code[st.pc].arg;
    var s1, s2 := st.(pc := st.pc + 1), su.(pc := su.pc + 1);
    assert st.sp in Touched(op, arg, st.sp + 1);
    PushSame(s1, s2, if op.DUP? then st.x else rnd, n);
    if op.PUSH_i? && s1.pc < |code| && code[s1.pc].Constant? {
      PushSame(s1.(pc := s1.pc + 1), s2.(pc := s2.pc + 1), alu.lift(code[s1.pc].r), n);
    }
  }

  /** Instructions that leave the stack alone. */
  lemma KeepTouches<V>(code: seq<Cell>, alu: Alu<V>, rnd: V, st: State<V>, su: State<V>, n: int)
    requires 0 <= st.pc < |code| && code[st.pc].Code? && SameBelow(st, su, n)
    requires MoveOf(code[st.pc].op) in {Keep, Terminal} && OperandOf(code[st.pc].op) != StackRelative
    ensures var out := Step(code, alu, rnd, st);
            && SameOutcome(out, Step(code, alu, rnd, su), n)
            && (out.Running? ==> SameFrom(out.st, st, n))
  {
  }

  /** One round depends on no cell but those it touches, and changes no other. */
  lemma StepTouches<V>(code: seq<Cell>, alu: Alu<V>, rnd: V, st: State<V>, su: State<V>, n: int)
    requires 0 <= st.pc < |code| && code[st.pc].Code? && SameBelow(st, su, n)
    requires TouchesBelow(code[st.pc].op, code[st.pc].arg, st.sp + 1, n)
    ensures var out := Step(code, alu, rnd, st);
            && SameOutcome(out, Step(code, alu, rnd, su), n)
            && (out.Running? ==> SameFrom(out.st, st, n))
  {
    hide Step, Touched, SameBelow, SameFrom, SameOutcome, OperandOf;
    if OperandOf(code[st.pc].op) == StackRelative {
      RelativeSame(code, alu, rnd, st, su, n);
    } else {
      MoveOfOthers(code[st.pc].op);
      match MoveOf(code[st.pc].op)
      case Pop1 | Loop => PopTouches(code, alu, rnd, st, su, n);
      case Push1 => PushTouches(code, alu, rnd, st, su, n);
      case _ => KeepTouches(code, alu, rnd, st, su, n);
    }
  }

  lemma MoveOfOthers(op: Op)
    requires OperandOf(op) != StackRelative
    ensures MoveOf(op) != PopAt
  {
  }

  /** The cells an entry touches lie within the reserved stack, or just below it. */
  lemma TouchedReserved(prog: seq<Elem>, dz: Dz, k: nat)
    requires Loaded(prog, dz) && dz.numArg >= 0 && k < |prog| && prog[k].Instr? && Keeps(prog, dz, k)
    ensures var pc := dz.pm[k].pc;
            && 0 <= pc < |dz.code| && dz.code[pc].Code?
            && TouchesBelow(dz.code[pc].op, dz.code[pc].arg, dz.pm[k].sp, dz.reqStack - 1)
  {
    hide Lands;
    OperandCells(prog, dz, k);
    DepthsAround(prog, dz, k);
    FirstCell(prog, dz, k);
    match dz.code[dz.pm[k].pc].op
    case POP | Dia(_) | Branch_l(_) =>
    case DUP | PUSH_i | RAND | GAUSS =>
    case PUSH_r | SET_r | Dia_r(_) =>
    case BEGFOR_l | ENDFOR_l =>
    case _ =>
  }

  lemma ReturnsAtEnd<V>(prog: seq<Elem>, dz: Dz, alu: Alu<V>, rnd: V, st: State<V>, su: State<V>)
    requires Loaded(prog, dz) && AtEntry(prog, dz, st, |prog|) && st.pc == su.pc && st.x == su.x
    ensures Step(dz.code, alu, rnd, st) == Step(dz.code, alu, rnd, su) == Returned(st.x)
  {
    assert LaidOut(prog, dz.pm, dz.numArg, dz.code, 0, |prog|);
  }
}
