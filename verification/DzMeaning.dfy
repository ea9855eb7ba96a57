/** What a DZ program means, element by element and on lists of values alone, and that the byte
    code of an accepted program computes it (src/dz.c:225-407, 701-753). */
module DzMeaning {
  import opened Basics
  import opened DzProgram
  import opened DzAnalysis
  import opened DzMachine
  import opened DzSoundness
  import opened DzRuns
  import opened DzPaths
  import opened DzNames
  import opened DzValues

  /** Where the program stands with its values, or how it has ended. Short: it asked for a
      value that is not there. */
  datatype Going<+V> = Stands(k: nat, vs: seq<V>) | Result(v: V) | Stop | Short | Undefined

  /** The first element from k on at the address of branch k. */
  ghost predicate Target(prog: seq<Elem>, pm: seq<Entry>, k: nat, t: nat)
    requires k < |prog| && |pm| == |prog| + 2 && prog[k].Instr?
  {
    && t <= |prog| && GoesTo(prog[k].args, pm, |prog|, k, pm[t].pc)
    && forall j :: 0 <= j < t ==> pm[j].pc != pm[t].pc
  }

  /** Instructions without an operand in the program that stay where they are. */
  function Plain<V>(op: Op, alu: Alu<V>, rnd: V, vs: seq<V>): Option<seq<V>>
    requires vs != []
  {
    match op
    case NOP | STACK | PRINT => Some(vs)
    case DUP => Some(vs + [Last(vs)])
    case Mon(m) => Some(But(vs, 1) + [alu.monadic(m, Last(vs))])
    case RAND => Some(vs + [rnd])
    case GAUSS => Some(vs + [alu.spline(SPLINE_n, rnd, [])])
    case POP => if |vs| == 1 then None else Some(But(vs, 1))
    case Dia(d) => if |vs| == 1 then None else Some(But(vs, 2) + [alu.diadic(d, vs[|vs| - 2], Last(vs))])
    case _ => None
  }

  /** Instructions on value i. */
  function Relative<V>(op: Op, alu: Alu<V>, vs: seq<V>, i: int): Option<seq<V>>
    requires vs != [] && 0 <= i < |vs|
  {
    match op
    case PUSH_r => Some(vs + [vs[i]])
    case POP_r => Some(vs[..i] + [Last(vs)])
    case SET_r => Some(But(vs[i := Last(vs)], 1))
    case Dia_r(d) => Some(But(vs, 1) + [alu.diadic(d, Last(vs), vs[i])])
    case _ => None
  }

  /** Instructions with constants. */
  function WithData<V>(op: Op, alu: Alu<V>, vs: seq<V>, data: seq<real>): Option<seq<V>>
    requires vs != [] && data != []
  {
    match op
    case PUSH_i => Some(vs + [alu.lift(data[0])])
    case Dia_i(d) => Some(But(vs, 1) + [alu.diadic(d, Last(vs), alu.lift(data[0]))])
    case _ => None
  }

  /** Branches and loops, to element t or on to element next. */
  function Jumping<V>(op: Op, alu: Alu<V>, vs: seq<V>, t: nat, next: nat): Going<V>
    requires vs != []
  {
    match op
    case BR_l => Stands(t, vs)
    case Branch_l(c) => if |vs| == 1 then Short else Stands(if alu.holds(c, Last(vs)) then t else next, But(vs, 1))
    case BEGFOR_l | ENDFOR_l =>
      if |vs| < 3 then Undefined
      else
        var y, lim, last := vs[|vs| - 3], vs[|vs| - 2], Last(vs);
        var x := if op == BEGFOR_l then last else alu.diadic(ADD, last, y);
        if (alu.holds(GEQ, y) && alu.atMost(x, lim)) || (alu.holds(LT, y) && alu.atMost(lim, x))
        then Stands(t, But(vs, 1) + [x])
        else if |vs| == 3 then Short else Stands(next, But(vs, 3))
    case _ => Undefined
  }

  function OnTo<V>(o: Option<seq<V>>, next: nat): Going<V> { if o.Some? then Stands(next, o.value) else Short }

  /** What element k does to the values. */
  ghost function Meaning<V>(prog: seq<Elem>, pm: seq<Entry>, numArg: int, alu: Alu<V>, rnd: V, k: nat,
                            vs: seq<V>): Going<V>
    requires k < |prog| && |pm| == |prog| + 2 && prog[k].Instr?
  {
    var op, args := prog[k].op, prog[k].args;
    if vs == [] then Undefined
    else if op == ERROR then Stop
    else
      match OperandOf(op)
      case NoOperand => OnTo(Plain(op, alu, rnd, vs), k + 1)
      case Immediate =>
        if |args| >= 1 && args[0].Num? then OnTo(WithData(op, alu, vs, [args[0].r]), k + 1) else Undefined
      case Vector =>
        if |args| == 1 && args[0].Vec? then Stands(k + 1, But(vs, 1) + [alu.spline(op, Last(vs), args[0].data)])
        else Undefined
      case StackRelative =>
        if exists i :: 0 <= i < |vs| && Designates(args, pm, |prog|, numArg, k, i) then
          var i :| 0 <= i < |vs| && Designates(args, pm, |prog|, numArg, k, i);
          OnTo(Relative(op, alu, vs, i), k + 1)
        else Undefined
      case PcRelative =>
        if exists t :: Target(prog, pm, k, t) then
          var t :| Target(prog, pm, k, t);
          Jumping(op, alu, vs, t, k + 1)
        else Undefined
  }

  /** The next element that is an instruction. */
  function Skip(prog: seq<Elem>, k: nat): (j: nat)
    requires k <= |prog|
    ensures k <= j <= |prog| && (j < |prog| ==> prog[j].Instr?)
    decreases |prog| - k
  {
    if k == |prog| || prog[k].Instr? then k else Skip(prog, k + 1)
  }

  /** At most |rnd| instructions of the program, from element k on. */
  ghost function Interpret<V>(prog: seq<Elem>, pm: seq<Entry>, numArg: int, alu: Alu<V>, rnd: seq<V>, k: nat,
                              vs: seq<V>): Going<V>
    requires |pm| == |prog| + 2
    decreases |rnd|
  {
    if rnd == [] then Stands(k, vs)
    else if k > |prog| || vs == [] then Undefined
    else
      var j := Skip(prog, k);
      if j == |prog| then Result(Last(vs))
      else
        match Meaning(prog, pm, numArg, alu, rnd[0], j, vs)
        case Stands(k', vs') => Interpret(prog, pm, numArg, alu, rnd[1..], k', vs')
        case last => last
  }

  // ------------------------------------------------- one instruction

  /** The machine stands at element k with the values vs, one at least. */
  ghost predicate Shows<V>(prog: seq<Elem>, dz: Dz, st: State<V>, k: nat, vs: seq<V>)
    requires |dz.pm| == |prog| + 2
  {
    && k <= |prog| && dz.pm[k].pc == st.pc && dz.pm[k].sp == |vs| == st.sp + 1
    && |st.stack| == DZ_STACK_SIZE && Sound(st) && Values(st) == vs
  }

  /** The outcome of a round or a run is what the program says. */
  ghost predicate Agrees<V>(prog: seq<Elem>, dz: Dz, out: Outcome<V>, g: Going<V>)
    requires |dz.pm| == |prog| + 2
  {
    match g
    case Stands(k, vs) => out.Running? && Shows(prog, dz, out.st, k, vs)
    case Result(v) => out == Returned(v)
    case Stop => out == Stopped
    case Short => out == Fault(StackCell(-1))
    case Undefined => false
  }

  /** What a good element needs of the byte code: its cells. */
  lemma FirstIs(prog: seq<Elem>, dz: Dz, k: nat)
    requires Loaded(prog, dz) && k < |prog| && prog[k].Instr?
    ensures var pc, cells := dz.pm[k].pc, GenCode(dz.pm, k, prog[k], dz.numArg);
      && cells.Ok? && 0 <= pc <= pc + |cells.value| <= |dz.code| && |cells.value| > 0
      && dz.code[pc] == cells.value[0]
      && (forall i :: 0 <= i < |cells.value| ==> dz.code[pc + i] == cells.value[i])
      && dz.pm[k + 1].pc == pc + |cells.value|
  {
    FirstCell(prog, dz, k);
    assert Linked(prog, dz.pm, k);
    GenCodeLength(prog, dz.pm, k, dz.numArg);
    assert LaidOut(prog, dz.pm, dz.numArg, dz.code, 0, k);
    hide GenCode;
    var pc, cells := dz.pm[k].pc, GenCode(dz.pm, k, prog[k], dz.numArg).value;
    forall i | 0 <= i < |cells| ensures dz.code[pc + i] == cells[i] {
      assert dz.code[pc..pc + |cells|][i] == cells[i];
    }
  }

  lemma ShowsIs<V>(prog: seq<Elem>, dz: Dz, st: State<V>, k: nat, vs: seq<V>)
    requires |dz.pm| == |prog| + 2 && Shows(prog, dz, st, k, vs)
    ensures dz.pm[k].pc == st.pc && dz.pm[k].sp == |vs| == st.sp + 1
    ensures |st.stack| == DZ_STACK_SIZE && Sound(st) && Values(st) == vs
  {
  }

  /** What holds of the machine before element k. */
  ghost predicate Before<V>(prog: seq<Elem>, dz: Dz, st: State<V>, k: nat, vs: seq<V>) {
    && Loaded(prog, dz) && dz.numArg >= 1 && k < |prog| && prog[k].Instr? && vs != [] && Shows(prog, dz, st, k, vs)
    && OperandGood(prog, dz, k) && TargetGood(prog, dz, k)
  }

  /** A round that goes to the next element, with one value more at most. */
  lemma GoesOn<V>(prog: seq<Elem>, dz: Dz, st: State<V>, out: Outcome<V>, k: nat, vs: seq<V>)
    requires Loaded(prog, dz) && k <= |prog| && dz.numArg >= 0 && |st.stack| == DZ_STACK_SIZE
    requires Goes(out, st, dz.pm[k].pc, vs) && dz.pm[k].sp == |vs| && vs != []
    ensures Agrees(prog, dz, out, Stands(k, vs))
  {
  }

  lemma PlainAgrees<V>(prog: seq<Elem>, dz: Dz, alu: Alu<V>, rnd: V, st: State<V>, k: nat, vs: seq<V>)
    requires Before(prog, dz, st, k, vs) && OperandOf(prog[k].op) == NoOperand && prog[k].op != ERROR
    ensures Agrees(prog, dz, Step(dz.code, alu, rnd, st), OnTo(Plain(prog[k].op, alu, rnd, vs), k + 1))
  {
    var op := prog[k].op;
    FirstIs(prog, dz, k);
    assert Linked(prog, dz.pm, k);
    assert Reads(dz.code, st, op, 0) && op != RETURN;
    hide Step, Loaded, Shows;
    var out := Step(dz.code, alu, rnd, st);
    if op in {NOP, STACK, PRINT} {
      Moves(dz.code, alu, rnd, st, op, 0);
    } else if op in {DUP, RAND, GAUSS} {
      Pushes(dz.code, alu, rnd, st, op, 0);
    } else if op.Mon? {
      Applies(dz.code, alu, rnd, st, op.m);
    } else if op == POP {
      Drops(dz.code, alu, rnd, st);
    } else {
      Combines(dz.code, alu, rnd, st, op.d, 0);
    }
    if Plain(op, alu, rnd, vs).Some? {
      GoesOn(prog, dz, st, out, k + 1, Plain(op, alu, rnd, vs).value);
    }
  }

  lemma DataAgrees<V>(prog: seq<Elem>, dz: Dz, alu: Alu<V>, rnd: V, st: State<V>, k: nat, vs: seq<V>)
    requires Before(prog, dz, st, k, vs) && OperandOf(prog[k].op) == Immediate
    ensures |prog[k].args| >= 1 && prog[k].args[0].Num?
    ensures Agrees(prog, dz, Step(dz.code, alu, rnd, st),
                   OnTo(WithData(prog[k].op, alu, vs, [prog[k].args[0].r]), k + 1))
  {
    FirstIs(prog, dz, k);
    assert Linked(prog, dz.pm, k);
    var op, r := prog[k].op, prog[k].args[0].r;
    assert GenCode(dz.pm, k, prog[k], dz.numArg).value[1] == Constant(r) == dz.code[st.pc + 1];
    assert Reads(dz.code, st, op, 0);
    hide Step, Loaded, Shows;
    match op
    case PUSH_i => Pushes(dz.code, alu, rnd, st, op, 0);
    case Dia_i(d) => WithConstant(dz.code, alu, rnd, st, d, 0);
    GoesOn(prog, dz, st, Step(dz.code, alu, rnd, st), k + 1, WithData(op, alu, vs, [r]).value);
  }

  lemma {:induction false} ConstantsRead(code: seq<Cell>, pc: nat, data: seq<real>)
    requires pc + |data| <= |code| && forall i :: 0 <= i < |data| ==> code[pc + i] == Constant(data[i])
    ensures ReadConstants(code, pc, |data|) == Some(data)
    decreases |data|
  {
    if data != [] {
      assert code[pc + 0] == Constant(data[0]);
      forall i | 0 <= i < |data| - 1 ensures code[pc + 1 + i] == Constant(data[1..][i]) {
        assert code[pc + (1 + i)] == Constant(data[1 + i]);
      }
      ConstantsRead(code, pc + 1, data[1..]);
      assert data == [data[0]] + data[1..];
    }
  }

  lemma VectorAgrees<V>(prog: seq<Elem>, dz: Dz, alu: Alu<V>, rnd: V, st: State<V>, k: nat, vs: seq<V>)
    requires Before(prog, dz, st, k, vs) && OperandOf(prog[k].op) == Vector
    ensures |prog[k].args| == 1 && prog[k].args[0].Vec?
    ensures Agrees(prog, dz, Step(dz.code, alu, rnd, st),
                   Stands(k + 1, But(vs, 1) + [alu.spline(prog[k].op, Last(vs), prog[k].args[0].data)]))
  {
    FirstIs(prog, dz, k);
    assert Linked(prog, dz.pm, k);
    var op, data := prog[k].op, prog[k].args[0].data;
    var cells := GenCode(dz.pm, k, prog[k], dz.numArg).value;
    assert Reads(dz.code, st, op, |data|) && cells == [Code(op, |data|)] + Constants(data);
    forall i | 0 <= i < |data| ensures dz.code[st.pc + 1 + i] == Constant(data[i]) {
      assert dz.code[dz.pm[k].pc + (1 + i)] == cells[1 + i] == Constants(data)[i];
    }
    hide Step, Loaded, Shows, GenCode;
    ConstantsRead(dz.code, st.pc + 1, data);
    Splines(dz.code, alu, rnd, st, op, data);
    GoesOn(prog, dz, st, Step(dz.code, alu, rnd, st), k + 1, But(vs, 1) + [alu.spline(op, Last(vs), data)]);
  }

  /** The cell of a stack relative instruction on value i. */
  lemma RelativeCell(prog: seq<Elem>, dz: Dz, k: nat) returns (i: nat)
    requires Loaded(prog, dz) && k < |prog| && IsRelative(prog[k]) && OperandGood(prog, dz, k) && dz.pm[k].sp >= 1
    ensures i < dz.pm[k].sp && Designates(prog[k].args, dz.pm, |prog|, dz.numArg, k, i)
    ensures var pc, top := dz.pm[k].pc, dz.pm[k].sp - 1;
      && 0 <= pc < |dz.code| && dz.pm[k + 1].pc == pc + 1
      && (i == top ==> prog[k].op in {PUSH_r, POP_r})
      && dz.code[pc] == (if i != top then Code(prog[k].op, i - top)
                         else if prog[k].op == PUSH_r then Code(DUP, 0) else Code(NOP, 0))
      && dz.pm[k + 1].sp == match prog[k].op
                            case PUSH_r => top + 2
                            case POP_r => i + 1
                            case SET_r => top
                            case _ => top + 1
  {
    FirstIs(prog, dz, k);
    assert Linked(prog, dz.pm, k);
    i := dz.pm[k].sp - 1 - RelativeArg(prog[k].args, dz.pm, |prog|, k, dz.numArg).value;
    hide Loaded, RelativeArg;
    DesignatesIff(prog[k].args, dz.pm, |prog|, dz.numArg, k, i);
  }

  lemma OneDesignated(prog: seq<Elem>, dz: Dz, k: nat, i: int, j: int)
    requires k < |prog| && |dz.pm| == |prog| + 2 && prog[k].Instr?
    requires Designates(prog[k].args, dz.pm, |prog|, dz.numArg, k, i)
    requires Designates(prog[k].args, dz.pm, |prog|, dz.numArg, k, j)
    ensures i == j
  {
    DesignatesIff(prog[k].args, dz.pm, |prog|, dz.numArg, k, i);
    DesignatesIff(prog[k].args, dz.pm, |prog|, dz.numArg, k, j);
  }

  lemma RelativeAgrees<V>(prog: seq<Elem>, dz: Dz, alu: Alu<V>, rnd: V, st: State<V>, k: nat, vs: seq<V>)
    returns (i: nat)
    requires Before(prog, dz, st, k, vs) && OperandOf(prog[k].op) == StackRelative
    ensures i < |vs| && Designates(prog[k].args, dz.pm, |prog|, dz.numArg, k, i)
    ensures Agrees(prog, dz, Step(dz.code, alu, rnd, st), OnTo(Relative(prog[k].op, alu, vs, i), k + 1))
  {
    hide Step, Before, Loaded, OperandGood, TargetGood, Shows, Agrees, Designates, Goes;
    BeforeIs(prog, dz, st, k, vs);
    ShowsIs(prog, dz, st, k, vs);
    var op, top := prog[k].op, |vs| - 1;
    i := RelativeCell(prog, dz, k);
    if i == top {
      if op == PUSH_r {
        Pushes(dz.code, alu, rnd, st, DUP, 0);
      } else {
        Moves(dz.code, alu, rnd, st, NOP, 0);
        assert vs == vs[..top] + [Last(vs)];
      }
    } else {
      match op
      case PUSH_r => Copies(dz.code, alu, rnd, st, i - top);
      case POP_r => CutsDown(dz.code, alu, rnd, st, i - top);
      case SET_r => Sets(dz.code, alu, rnd, st, i - top);
      case Dia_r(d) => WithValue(dz.code, alu, rnd, st, d, i - top);
    }
    GoesOn(prog, dz, st, Step(dz.code, alu, rnd, st), k + 1, Relative(op, alu, vs, i).value);
  }

  /** The cell of a branch, whose target is an element. */
  lemma BranchCell(prog: seq<Elem>, dz: Dz, k: nat) returns (t: nat)
    requires Loaded(prog, dz) && k < |prog| && IsBranch(prog[k]) && TargetGood(prog, dz, k)
    ensures Target(prog, dz.pm, k, t) && dz.pm[t].sp == BranchDepth(prog[k].op, dz.pm[k].sp)
    ensures var pc := dz.pm[k].pc;
      && 0 <= pc < |dz.code| && dz.pm[k + 1].pc == pc + 1
      && dz.code[pc] == Code(prog[k].op, dz.pm[t].pc - pc - 1)
    ensures prog[k].op != BR_l ==> dz.pm[k + 1].sp == dz.pm[k].sp + Delta(MoveOf(prog[k].op))
  {
    FirstIs(prog, dz, k);
    assert Linked(prog, dz.pm, k) && Joined(prog, dz.pm, k);
    t := JumpTarget(dz.pm, k, prog[k].args);
    hide Loaded, BranchArg;
    GoesToIff(prog[k].args, dz.pm, |prog|, k, dz.pm[t].pc);
  }

  lemma OneTarget(prog: seq<Elem>, pm: seq<Entry>, k: nat, t: nat, u: nat)
    requires k < |prog| && |pm| == |prog| + 2 && prog[k].Instr? && Target(prog, pm, k, t) && Target(prog, pm, k, u)
    ensures t == u
  {
    GoesToIff(prog[k].args, pm, |prog|, k, pm[t].pc);
    GoesToIff(prog[k].args, pm, |prog|, k, pm[u].pc);
    hide BranchArg, GoesTo;
  }

  lemma JumpAgrees<V>(prog: seq<Elem>, dz: Dz, alu: Alu<V>, rnd: V, st: State<V>, k: nat, vs: seq<V>) returns (t: nat)
    requires Before(prog, dz, st, k, vs) && OperandOf(prog[k].op) == PcRelative
    ensures Target(prog, dz.pm, k, t)
    ensures Agrees(prog, dz, Step(dz.code, alu, rnd, st), Jumping(prog[k].op, alu, vs, t, k + 1))
  {
    hide Step, Before, Loaded, OperandGood, TargetGood, Target, Goes;
    BeforeIs(prog, dz, st, k, vs);
    ShowsIs(prog, dz, st, k, vs);
    var op := prog[k].op;
    t := BranchCell(prog, dz, k);
    assert t <= |prog| by { TargetIs(prog, dz.pm, k, t); }
    DepthsAround(prog, dz, k);
    var arg := dz.pm[t].pc - st.pc - 1;
    assert Reads(dz.code, st, op, arg);
    var out := Step(dz.code, alu, rnd, st);
    match op
    case BR_l => Moves(dz.code, alu, rnd, st, op, arg);
    case Branch_l(c) => Branches(dz.code, alu, rnd, st, c, arg);
    case BEGFOR_l | ENDFOR_l => Loops(dz.code, alu, rnd, st, op, arg);
    var g := Jumping(op, alu, vs, t, k + 1);
    if g.Stands? {
      GoesOn(prog, dz, st, out, g.k, g.vs);
    }
  }

  // ------------------------------------------------- runs

  /** One round of the machine does what the element at its address means. */
  lemma StepMeans<V>(prog: seq<Elem>, dz: Dz, alu: Alu<V>, rnd: V, st: State<V>, k: nat, vs: seq<V>)
    requires Before(prog, dz, st, k, vs)
    ensures Agrees(prog, dz, Step(dz.code, alu, rnd, st), Meaning(prog, dz.pm, dz.numArg, alu, rnd, k, vs))
  {
    hide Before, Agrees, Step, Plain, Relative, Jumping, WithData, Target, Designates;
    assert k < |prog| && prog[k].Instr? && vs != [] && |dz.pm| == |prog| + 2 by { BeforeIs(prog, dz, st, k, vs); }
    var op, args := prog[k].op, prog[k].args;
    if op == ERROR {
      ErrorAgrees(prog, dz, alu, rnd, st, k, vs);
    } else {
      match OperandOf(op)
      case NoOperand => PlainAgrees(prog, dz, alu, rnd, st, k, vs);
      case Immediate => DataAgrees(prog, dz, alu, rnd, st, k, vs);
      case Vector => VectorAgrees(prog, dz, alu, rnd, st, k, vs);
      case StackRelative =>
        var i := RelativeAgrees(prog, dz, alu, rnd, st, k, vs);
        forall j | Designates(args, dz.pm, |prog|, dz.numArg, k, j) ensures j == i {
          OneDesignated(prog, dz, k, i, j);
        }
      case PcRelative =>
        var t := JumpAgrees(prog, dz, alu, rnd, st, k, vs);
        forall u | Target(prog, dz.pm, k, u) ensures u == t {
          OneTarget(prog, dz.pm, k, t, u);
        }
    }
  }

  lemma BeforeIs<V>(prog: seq<Elem>, dz: Dz, st: State<V>, k: nat, vs: seq<V>)
    requires Before(prog, dz, st, k, vs)
    ensures k < |prog| && prog[k].Instr? && vs != [] && |dz.pm| == |prog| + 2 && dz.numArg >= 1
    ensures Loaded(prog, dz) && OperandGood(prog, dz, k) && TargetGood(prog, dz, k) && Shows(prog, dz, st, k, vs)
  {
  }

  lemma TargetIs(prog: seq<Elem>, pm: seq<Entry>, k: nat, t: nat)
    requires k < |prog| && |pm| == |prog| + 2 && prog[k].Instr? && Target(prog, pm, k, t)
    ensures t <= |prog|
  {
  }

  lemma ErrorAgrees<V>(prog: seq<Elem>, dz: Dz, alu: Alu<V>, rnd: V, st: State<V>, k: nat, vs: seq<V>)
    requires Before(prog, dz, st, k, vs) && prog[k].op == ERROR
    ensures Agrees(prog, dz, Step(dz.code, alu, rnd, st), Stop)
  {
    FirstIs(prog, dz, k);
    Ends(dz.code, alu, rnd, st, ERROR, 0);
  }

  /** Labels have no cells. */
  lemma {:induction false} SkipPc(prog: seq<Elem>, dz: Dz, k: nat)
    requires Loaded(prog, dz) && k <= |prog|
    ensures dz.pm[Skip(prog, k)].pc == dz.pm[k].pc && dz.pm[Skip(prog, k)].sp == dz.pm[k].sp
    decreases |prog| - k
  {
    if k < |prog| && !prog[k].Instr? {
      assert Linked(prog, dz.pm, k);
      SkipPc(prog, dz, k + 1);
    }
  }

  /** Where the machine stands, at the next instruction. */
  lemma Arrives<V>(prog: seq<Elem>, dz: Dz, st: State<V>, k: nat, vs: seq<V>, p: seq<(int, int)>)
    requires ReachedGood(prog, dz) && dz.numArg >= 1 && OnPath(dz, st, p) && vs != [] && Shows(prog, dz, st, k, vs)
    ensures var j := Skip(prog, k);
      Shows(prog, dz, st, j, vs) && (j < |prog| ==> Before(prog, dz, st, j, vs))
  {
    SkipPc(prog, dz, k);
    var j := Skip(prog, k);
    if j < |prog| {
      hide OperandGood, TargetGood, Loaded;
      assert DzPaths.Stands(prog, dz, p[|p| - 1], j);
    }
  }

  lemma {:induction false} RunMeans<V>(prog: seq<Elem>, dz: Dz, alu: Alu<V>, rnd: seq<V>, st: State<V>, k: nat,
                                       vs: seq<V>, p: seq<(int, int)>)
    requires ReachedGood(prog, dz) && dz.numArg >= 1 && OnPath(dz, st, p) && vs != [] && Shows(prog, dz, st, k, vs)
    ensures Agrees(prog, dz, Run(dz.code, alu, rnd, st), Interpret(prog, dz.pm, dz.numArg, alu, rnd, k, vs))
    decreases |rnd|
  {
    if rnd != [] {
      Arrives(prog, dz, st, k, vs, p);
      hide ReachedGood, OnPath, Before, Step, Meaning, Shows, Loaded;
      var j := Skip(prog, k);
      var out := Step(dz.code, alu, rnd[0], st);
      ShowsIs(prog, dz, st, j, vs);
      if j == |prog| {
        AtTheEnd(prog, dz, alu, rnd[0], st);
      } else {
        StepMeans(prog, dz, alu, rnd[0], st, j, vs);
        var g := Meaning(prog, dz.pm, dz.numArg, alu, rnd[0], j, vs);
        if g.Stands? {
          StepOnPath(dz, alu, rnd[0], st, p);
          ShowsIs(prog, dz, out.st, g.k, g.vs);
          RunMeans(prog, dz, alu, rnd[1..], out.st, g.k, g.vs, p + [Here(out.st)]);
        }
      }
    }
  }

  lemma AtTheEnd<V>(prog: seq<Elem>, dz: Dz, alu: Alu<V>, rnd: V, st: State<V>)
    requires ReachedGood(prog, dz) && dz.pm[|prog|].pc == st.pc && Sound(st)
    ensures Step(dz.code, alu, rnd, st) == Returned(Last(Values(st)))
  {
    assert LaidOut(prog, dz.pm, dz.numArg, dz.code, 0, |prog|);
  }

  /** The byte code of an accepted program whose runs follow the map computes what the program
      means: started with the arguments on the stack, the last one in the register, every run of
      it goes through the same values, ends when the program ends, with the same result, and
      touches the cell below the stack when the program asks for a value that is not there. */
  lemma CodeMeansProgram<V>(prog: seq<Elem>, numArg: int, junk: Entry, alu: Alu<V>, rnd: seq<V>, args: seq<V>,
                            stack: seq<V>)
    requires Load(prog, numArg, junk).Ok? && ReachedGood(prog, Load(prog, numArg, junk).value)
    requires |args| == numArg >= 1 && |stack| == DZ_STACK_SIZE && But(args, 1) <= stack
    ensures var dz := Load(prog, numArg, junk).value;
      && |dz.pm| == |prog| + 2
      && Agrees(prog, dz, Run(dz.code, alu, rnd, Start(dz, Last(args), stack)),
                Interpret(prog, dz.pm, numArg, alu, rnd, 0, args))
  {
    var dz := Load(prog, numArg, junk).value;
    var st := Start(dz, Last(args), stack);
    StartOnPath(dz, Last(args), stack);
    StartFits(prog, dz);
    assert Values(st) == args;
    RunMeans(prog, dz, alu, rnd, st, 0, args, [(0, dz.numArg)]);
  }

  lemma StartFits(prog: seq<Elem>, dz: Dz)
    requires Loaded(prog, dz)
    ensures dz.numArg <= DZ_STACK_SIZE && dz.pm[0].pc == 0 && dz.pm[0].sp == dz.numArg
  {
  }
}
