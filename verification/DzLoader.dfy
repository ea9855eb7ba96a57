/** The loader in the form the source has: a map filled and rewritten in place,
    byte code written through a moving pointer, a machine that updates its
    registers and its stack. Each method computes the function of the same step. */
module DzLoader {
  import opened Basics
  import opened DzProgram
  import opened DzAnalysis
  import opened DzMachine
  import opened DzSoundness

  method FindLabel(progmap: array<Entry>, imax: int, s: string) returns (r: Result<nat>)
    requires imax < progmap.Length
    ensures r == LabelIndex(progmap[..], imax, s, 0)
    ensures r.Ok? ==> r.value <= imax && progmap[r.value].tag == Some(s)
    ensures r.Err? ==> forall k :: 0 <= k <= imax ==> progmap[k].tag != Some(s)
  {
    var i := 0;
    while i <= imax
      invariant 0 <= i
      invariant LabelIndex(progmap[..], imax, s, 0) == LabelIndex(progmap[..], imax, s, i)
      invariant forall k :: 0 <= k < i && k <= imax ==> progmap[k].tag != Some(s)
      decreases imax - i
    {
      if progmap[i].tag == Some(s) {
        return Ok(i);
      }
      i := i + 1;
    }
    return Err(LabelNotFound);
  }

  method FindRArg(progmap: array<Entry>, imax: int, inum: nat, numArg: int, args: seq<Arg>) returns (r: Result<int>)
    requires imax < progmap.Length && inum < progmap.Length
    ensures r == RelativeArg(args, progmap[..], imax, inum, numArg)
  {
    if !OneOperand(args) {
      return Err(OneOperandRequired);
    }
    match args[0]
    case Str(s) =>
      if |s| >= 3 && s[..3] == "arg" {
        var n := Atoi(s[3..]);
        if 0 < n <= numArg {
          return Ok(progmap[inum].sp - n);
        }
      }
      var i := FindLabel(progmap, imax, s);
      return if i.Ok? then Ok(progmap[inum].sp - progmap[i.value].sp) else Err(i.error);
    case Num(q) =>
      if !IsInteger(q) {
        return Err(IntegerExpected);
      }
      if progmap[inum].sg == 0 && (q.Floor < 0 || q.Floor >= progmap[inum].sp) {
        return Err(IllegalRelative);
      }
      return Ok(q.Floor);
    case _ => return Err(IllegalOperand);
  }

  method FindLArg(progmap: array<Entry>, imax: int, inum: nat, args: seq<Arg>) returns (r: Result<int>)
    requires imax < progmap.Length && inum < progmap.Length
    ensures r == BranchArg(args, progmap[..], imax, inum)
  {
    if !OneOperand(args) {
      return Err(OneOperandRequired);
    }
    match args[0]
    case Str(s) =>
      var i := FindLabel(progmap, imax, s);
      return if i.Ok? then Ok(progmap[i.value].pc - progmap[inum].pc - 1) else Err(i.error);
    case Num(q) => return if IsInteger(q) then Ok(q.Floor) else Err(IntegerExpected);
    case _ => return Err(IllegalOperand);
  }

  /** Fills entry imax + 1 from entry imax and the element between them. */
  method MakeProgmap1(progmap: array<Entry>, imax: nat, e: Elem, numArg: int) returns (r: Result<()>)
    requires imax + 1 < progmap.Length
    modifies progmap
    ensures forall k :: 0 <= k < progmap.Length && k != imax + 1 ==> progmap[k] == old(progmap[k])
    ensures var next := Advance(old(progmap[..imax + 1]), e, numArg);
            if next.Ok? then r.Ok? && progmap[imax + 1] == next.value else r == Err(next.error)
  {
    var n := imax + 1;
    ghost var before := progmap[..n];
    progmap[n] := progmap[imax].(tag := None);
    if e.Label? {
      progmap[n] := progmap[n].(tag := Some(e.name));
      return Ok(());
    }
    var op :- FindOp(e);
    var len :- CodeLength(op, e.args);
    progmap[n] := progmap[n].(pc := progmap[n].pc + len);
    match MoveOf(op) {
      case Pop1 => progmap[n] := progmap[n].(sp := progmap[n].sp - 1);
      case Push1 => progmap[n] := progmap[n].(sp := progmap[n].sp + 1);
      case Keep =>
      case PopAt =>
        ghost var wide := before + [progmap[n]];
        var arg := FindRArg(progmap, n, imax, numArg, e.args);
        RelativeArgSame(e.args, progmap[..], wide, n, imax, numArg);
        if arg.Err? {
          return Err(arg.error);
        }
        progmap[n] := progmap[n].(sp := progmap[n].sp - arg.value);
      case Terminal =>
        progmap[n] := progmap[n].(sp := 0, sg := progmap[n].sg + 1);
        progmap[n] := progmap[n].(sp := progmap[n].sp - 3);  // no break after this case
      case Loop => progmap[n] := progmap[n].(sp := progmap[n].sp - 3);
    }
    return Ok(());
  }

  lemma RelativeArgSame(args: seq<Arg>, pm: seq<Entry>, qm: seq<Entry>, imax: int, inum: nat, numArg: int)
    requires inum <= imax < |pm| && imax < |qm|
    requires forall k :: 0 <= k <= imax ==> pm[k] == qm[k]
    ensures RelativeArg(args, pm, imax, inum, numArg) == RelativeArg(args, qm, imax, inum, numArg)
  {
    if OneOperand(args) && args[0].Str? {
      LabelIndexSame(pm, qm, imax, args[0].s, 0);
      LabelIndexFound(pm, imax, args[0].s, 0);
    }
  }

  method FindTarget(progmap: array<Entry>, imax: nat, d: int) returns (i: nat)
    requires imax + 2 == progmap.Length
    ensures i == TargetIndex(progmap[..], imax, d, 0)
  {
    i := 0;
    while i <= imax && progmap[i].pc != d
      invariant 0 <= i <= imax + 1
      invariant TargetIndex(progmap[..], imax, d, 0) == TargetIndex(progmap[..], imax, d, i)
    {
      i := i + 1;
    }
  }

  method RelabelSegment(progmap: array<Entry>, imax: nat, sgsrc: int, sgdst: int, d: int)
    requires imax + 2 == progmap.Length
    modifies progmap
    ensures progmap[..] == Relabel(old(progmap[..]), imax, sgsrc, sgdst, d)
  {
    var i := 0;
    while i <= imax
      invariant 0 <= i <= imax + 1
      invariant forall k :: 0 <= k < i ==> progmap[k] == Relabel(old(progmap[..]), imax, sgsrc, sgdst, d)[k]
      invariant forall k :: i <= k < progmap.Length ==> progmap[k] == old(progmap[k])
    {
      if progmap[i].sg == sgsrc {
        progmap[i] := progmap[i].(sg := sgdst, sp := progmap[i].sp + d);
      }
      i := i + 1;
    }
  }

  /** Joins the segment of a branch target to the segment of the branch. */
  method MakeProgmap2(progmap: array<Entry>, inum: nat, e: Elem) returns (r: Result<()>)
    requires inum + 2 <= progmap.Length
    modifies progmap
    ensures var next := Resolve(old(progmap[..]), inum, e);
            if next.Ok? then r.Ok? && progmap[..] == next.value
            else r == Err(next.error) && progmap[..] == old(progmap[..])
  {
    if !e.Instr? {
      return Ok(());
    }
    var op :- FindOp(e);
    if OperandOf(op) != PcRelative {
      return Ok(());
    }
    var imax := progmap.Length - 2;
    var arg := FindLArg(progmap, imax, inum, e.args);
    if arg.Err? {
      return Err(arg.error);
    }
    var d := arg.value + progmap[inum].pc + 1;
    var i := FindTarget(progmap, imax, d);
    if progmap[i].pc != d {
      return Err(StupidLocation);
    }
    var brsp := BranchDepth(op, progmap[inum].sp);
    if progmap[inum].sg == progmap[i].sg {
      return if brsp != progmap[i].sp then Err(StackMismatch) else Ok(());
    }
    RelabelSegment(progmap, imax, progmap[i].sg, progmap[inum].sg, brsp - progmap[i].sp);
    return Ok(());
  }

  method MakeProgmap(prog: seq<Elem>, numArg: int, progmap: array<Entry>) returns (r: Result<int>)
    requires progmap.Length == |prog| + 2
    modifies progmap
    ensures var a := Analyse(prog, numArg, old(progmap[|prog| + 1]));
            if a.Ok? then r == Ok(a.value.req) && progmap[..] == a.value.pm else r == Err(a.error)
  {
    ghost var junk := progmap[|prog| + 1];
    progmap[0] := FirstEntry(numArg);
    var imax := 0;
    assert progmap[..1] == [FirstEntry(numArg)];
    while imax < |prog|
      invariant 0 <= imax <= |prog| && progmap[|prog| + 1] == junk
      invariant PassOne(prog, [FirstEntry(numArg)], numArg) == PassOne(prog, progmap[..imax + 1], numArg)
    {
      ghost var before := progmap[..imax + 1];
      var step := MakeProgmap1(progmap, imax, prog[imax], numArg);
      if step.Err? {
        return Err(step.error);
      }
      assert progmap[..imax + 2] == before + [progmap[imax + 1]];
      imax := imax + 1;
    }
    ghost var pm1 := progmap[..|prog| + 1];
    assert progmap[..] == pm1 + [junk];
    var inum := 0;
    while inum < |prog|
      invariant 0 <= inum <= |prog|
      invariant PassTwo(prog, pm1 + [junk], 0) == PassTwo(prog, progmap[..], inum)
    {
      var step := MakeProgmap2(progmap, inum, prog[inum]);
      if step.Err? {
        return Err(step.error);
      }
      inum := inum + 1;
    }
    var req := numArg;
    inum := 1;
    while inum <= imax
      invariant 1 <= inum <= imax + 1
      invariant PassThree(progmap[..], imax, 1, numArg) == PassThree(progmap[..], imax, inum, req)
    {
      if progmap[inum].sg != 0 {
        return Err(NotReached);
      }
      if progmap[inum].sp < 0 {
        return Err(BelowGround);
      }
      if progmap[inum].sp > req {
        req := progmap[inum].sp + 1;
      }
      inum := inum + 1;
    }
    return if progmap[imax].sp != 1 then Err(NotRewound) else Ok(req);
  }

  /** Writes every element through a pointer that starts at the program's first
      cell; the array has one cell more than the map counts, for RETURN. */
  method WriteProgram(prog: seq<Elem>, progmap: array<Entry>, numArg: int) returns (r: Result<seq<Cell>>)
    requires progmap.Length == |prog| + 2 && progmap[0].pc == 0
    requires forall k :: 0 <= k < |prog| ==> Linked(prog, progmap[..], k)
    ensures r == Assemble(prog, progmap[..], 0, numArg)
  {
    hide GenCode, Linked, DzProgram.FindOp;
    ghost var pm := progmap[..];
    MapGrows(prog, pm, 0, |prog|);
    var program := new Cell[progmap[|prog|].pc + 1](_ => Code(RETURN, 0));
    var pc, inum := 0, 0;
    ghost var whole := Assemble(prog, pm, 0, numArg);
    assert whole.Ok? ==> program[..0] + whole.value == whole.value;
    while inum < |prog|
      invariant 0 <= inum <= |prog| && progmap[..] == pm && 0 <= pc == pm[inum].pc < program.Length
      invariant var rest := Assemble(prog, pm, inum, numArg);
                if rest.Ok? then whole == Ok(program[..pc] + rest.value) else whole == rest
    {
      var cells := GenCode(progmap[..], inum, prog[inum], numArg);
      if cells.Err? {
        return Err(cells.error);
      }
      GenCodeLength(prog, pm, inum, numArg);
      MapGrows(prog, pm, inum + 1, |prog|);
      ghost var before, rest := program[..pc], Assemble(prog, pm, inum + 1, numArg);
      pc := WriteCells(program, pc, cells.value);
      assert rest.Ok? ==> before + (cells.value + rest.value) == program[..pc] + rest.value;
      inum := inum + 1;
    }
    program[pc] := Code(RETURN, 0);
    assert program[..] == program[..pc] + [Code(RETURN, 0)];
    return Ok(program[..]);
  }

  /** dz-load: analyses, checks the stack size, assembles. */
  method DzLoad(prog: seq<Elem>, numArg: int, progmap: array<Entry>) returns (r: Result<Dz>)
    requires progmap.Length == |prog| + 2
    modifies progmap
    ensures r == Load(prog, numArg, old(progmap[|prog| + 1]))
    ensures r.Ok? ==> Loaded(prog, r.value)
  {
    ghost var junk := progmap[|prog| + 1];
    var reqs := MakeProgmap(prog, numArg, progmap);
    if reqs.Err? {
      return Err(reqs.error);
    }
    if reqs.value > DZ_STACK_SIZE {
      return Err(StackTooSmall);
    }
    AnalyseAccepts(prog, numArg, junk);
    var code := WriteProgram(prog, progmap, numArg);
    if code.Err? {
      return Err(code.error);
    }
    LoadGives(prog, numArg, junk);
    return Ok(Dz(numArg, code.value, reqs.value, progmap[..]));
  }

  method WriteCells(program: array<Cell>, pc: nat, cells: seq<Cell>) returns (next: nat)
    requires pc + |cells| <= program.Length
    modifies program
    ensures next == pc + |cells| && program[..next] == old(program[..pc]) + cells
  {
    var i := 0;
    while i < |cells|
      invariant 0 <= i <= |cells|
      invariant program[..pc + i] == old(program[..pc]) + cells[..i]
    {
      program[pc + i] := cells[i];
      i := i + 1;
    }
    return pc + i;
  }

  lemma {:induction false} MapGrows(prog: seq<Elem>, pm: seq<Entry>, i: nat, j: nat)
    requires |pm| == |prog| + 2 && i <= j <= |prog|
    requires forall k :: 0 <= k < |prog| ==> Linked(prog, pm, k)
    ensures pm[i].pc <= pm[j].pc
    decreases j - i
  {
    if i < j {
      assert Linked(prog, pm, j - 1);
      MapGrows(prog, pm, i, j - 1);
    }
  }

  /** What BEGFOR and ENDFOR do. */
  ghost function LoopRound<V>(alu: Alu<V>, op: Op, arg: int, st: State<V>): Outcome<V> {
    if !(0 <= st.sp - 2 < |st.stack|) then Fault(StackCell(st.sp - 2))
    else if !(0 <= st.sp - 1 < |st.stack|) then Fault(StackCell(st.sp - 1))
    else
      var x := if op.BEGFOR_l? then st.x else alu.diadic(ADD, st.x, st.stack[st.sp - 2]);
      LoopTest(alu, st.(pc := st.pc + 1, x := x), arg)
  }

  lemma LoopStep<V>(code: seq<Cell>, alu: Alu<V>, rnd: V, op: Op, arg: int, st: State<V>)
    requires op in {BEGFOR_l, ENDFOR_l} && 0 <= st.pc < |code| && code[st.pc] == Code(op, arg)
    ensures Step(code, alu, rnd, st) == LoopRound(alu, op, arg, st)
  {
  }

  /** The registers of dz_execute and the global stack it writes. */
  class Machine<V> {
    var pc: int
    var sp: int
    var x: V
    const dzStack: array<V>

    ghost function Now(): State<V>
      reads this, dzStack
    {
      State(pc, sp, x, dzStack[..])
    }

    constructor (numArg: int, top: V, stack: array<V>)
      ensures pc == 0 && sp == numArg - 1 && x == top && dzStack == stack
    {
      pc, sp, x, dzStack := 0, numArg - 1, top, stack;
    }

    /** x = *--sp */
    method PopTop() returns (r: Option<Outcome<V>>)
      modifies this
      ensures pc == old(pc)
      ensures Pop(old(Now())) == if r.None? then Running(Now()) else r.value
      ensures r.Some? ==> !r.value.Running?
      ensures r.None? ==> sp == old(sp) - 1
    {
      if !(0 <= sp - 1 < dzStack.Length) {
        return Some(Fault(StackCell(sp - 1)));
      }
      sp := sp - 1;
      x := dzStack[sp];
      return None;
    }

    /** *sp++ = x; x = v */
    method PushTop(v: V) returns (r: Option<Outcome<V>>)
      modifies this, dzStack
      ensures Push(old(Now()), v) == if r.None? then Running(Now()) else r.value
      ensures r.Some? ==> !r.value.Running?
    {
      if !(0 <= sp < dzStack.Length) {
        return Some(Fault(StackCell(sp)));
      }
      dzStack[sp] := x;
      sp := sp + 1;
      x := v;
      return None;
    }

    method Access(code: seq<Cell>, op: Op, arg: int) returns (r: Option<Outcome<V>>)
      requires op in {PUSH_r, POP_r, SET_r} && 0 <= pc < |code| && code[pc] == Code(op, arg)
      modifies this, dzStack
      ensures forall alu: Alu<V>, rnd :: Step(code, alu, rnd, old(Now())) == if r.None? then Running(Now()) else r.value
      ensures r.Some? ==> !r.value.Running?
    {
      pc := pc + 1;
      match op {
        case PUSH_r =>
          if !(0 <= sp < dzStack.Length) {
            return Some(Fault(StackCell(sp)));
          }
          if !(0 <= sp + arg < dzStack.Length) {
            return Some(Fault(StackCell(sp + arg)));
          }
          dzStack[sp] := x;
          x := dzStack[sp + arg];
          sp := sp + 1;
        case POP_r => sp := sp + arg;
        case SET_r =>
          if !(0 <= sp + arg < dzStack.Length) {
            return Some(Fault(StackCell(sp + arg)));
          }
          dzStack[sp + arg] := x;
          r := PopTop();
          return;
      }
      return None;
    }

    method Loop(alu: Alu<V>, op: Op, arg: int) returns (r: Option<Outcome<V>>)
      requires op in {BEGFOR_l, ENDFOR_l}
      modifies this
      ensures LoopRound(alu, op, arg, old(Now())) == if r.None? then Running(Now()) else r.value
      ensures r.Some? ==> !r.value.Running?
    {
      hide Continues, Pop;
      pc := pc + 1;
      if !(0 <= sp - 2 < dzStack.Length) {
        return Some(Fault(StackCell(sp - 2)));
      }
      if !(0 <= sp - 1 < dzStack.Length) {
        return Some(Fault(StackCell(sp - 1)));
      }
      var y := dzStack[sp - 2];
      if op == ENDFOR_l {
        x := alu.diadic(ADD, x, y);
      }
      if Continues(alu, y, x, dzStack[sp - 1]) {
        pc := pc + arg;
        return None;
      }
      sp := sp - 2;
      r := PopTop();
    }

    /** One round of the loop. */
    method Round(code: seq<Cell>, alu: Alu<V>, rnd: V) returns (r: Option<Outcome<V>>)
      modifies this, dzStack
      ensures Step(code, alu, rnd, old(Now())) == if r.None? then Running(Now()) else r.value
      ensures r.Some? ==> !r.value.Running?
    {
      if !(0 <= pc < |code| && code[pc].Code?) {
        return Some(Fault(CodeCell(pc)));
      }
      var op, arg := code[pc].op, code[pc].arg;
      match op
      case PUSH_r | POP_r | SET_r => r := Access(code, op, arg);
      case BEGFOR_l | ENDFOR_l =>
        LoopStep(code, alu, rnd, op, arg, Now());
        r := Loop(alu, op, arg);
      case _ =>
        r := Plain(code, alu, rnd, op, arg);
    }

    method Plain(code: seq<Cell>, alu: Alu<V>, rnd: V, op: Op, arg: int) returns (r: Option<Outcome<V>>)
      requires 0 <= pc < |code| && code[pc] == Code(op, arg)
      requires op !in {PUSH_r, POP_r, SET_r, BEGFOR_l, ENDFOR_l}
      modifies this, dzStack
      ensures Step(code, alu, rnd, old(Now())) == if r.None? then Running(Now()) else r.value
      ensures r.Some? ==> !r.value.Running?
    {
      r := None;
      pc := pc + 1;
      match op
      case RETURN => r := Some(Returned(x));
      case NOP | STACK | PRINT =>
      case ERROR => r := Some(Stopped);
      case POP => r := PopTop();
      case DUP => r := PushTop(x);
      case RAND => r := PushTop(rnd);
      case GAUSS =>
        r := PushTop(rnd);
        if r.None? {
          x := alu.spline(SPLINE_n, x, []);
        }
      case Mon(m) => x := alu.monadic(m, x);
      case PUSH_i =>
        if !(pc < |code| && code[pc].Constant?) {
          return Some(Fault(CodeCell(pc)));
        }
        pc := pc + 1;
        r := PushTop(alu.lift(code[pc - 1].r));
      case Dia_i(d) =>
        if !(pc < |code| && code[pc].Constant?) {
          return Some(Fault(CodeCell(pc)));
        }
        x := alu.diadic(d, x, alu.lift(code[pc].r));
        pc := pc + 1;
      case SPLINE_n | DSPLINE_n =>
        var data := ReadConstants(code, pc, arg);
        if data.None? {
          return Some(Fault(CodeCell(pc)));
        }
        x := alu.spline(op, x, data.value);
        pc := pc + arg;
      case Dia_r(d) =>
        if !(0 <= sp + arg < dzStack.Length) {
          return Some(Fault(StackCell(sp + arg)));
        }
        x := alu.diadic(d, x, dzStack[sp + arg]);
      case Dia(d) =>
        var y := x;
        r := PopTop();
        if r.None? {
          x := alu.diadic(d, x, y);
        }
      case BR_l => pc := pc + arg;
      case Branch_l(c) =>
        if alu.holds(c, x) {
          pc := pc + arg;
        }
        r := PopTop();
      case _ =>
    }

    /** dz_execute, for at most |rnd| rounds. */
    method Execute(code: seq<Cell>, alu: Alu<V>, rnd: seq<V>) returns (r: Option<Outcome<V>>)
      modifies this, dzStack
      ensures Run(code, alu, rnd, old(Now())) == if r.None? then Running(Now()) else r.value
      ensures r.Some? ==> !r.value.Running?
    {
      var i := 0;
      while i < |rnd|
        invariant 0 <= i <= |rnd|
        invariant Run(code, alu, rnd, old(Now())) == Run(code, alu, rnd[i..], Now())
      {
        assert rnd[i..][1..] == rnd[i + 1..];
        r := Round(code, alu, rnd[i]);
        if r.Some? {
          return;
        }
        i := i + 1;
      }
      return None;
    }
  }
}
