/** The three passes of the static analyser (src/dz.c:755-910) and the assembler
    (src/dz.c:701-753), as functions on the map. */
module DzAnalysis {
  import opened Basics
  import opened DzProgram

  const DZ_STACK_SIZE := 1000

  // ---------------------------------------------------------------- pass 1

  /** The entry that follows element e, given the entries before it. */
  function Advance(pm: seq<Entry>, e: Elem, numArg: int): Result<Entry>
    requires |pm| > 0
  {
    var last := pm[|pm| - 1].(tag := None);
    if e.Label? then Ok(last.(tag := Some(e.name)))
    else
      var op :- FindOp(e);
      var len :- CodeLength(op, e.args);
      var next := last.(pc := last.pc + len);
      match MoveOf(op)
      case Pop1 => Ok(next.(sp := next.sp - 1))
      case Push1 => Ok(next.(sp := next.sp + 1))
      case Keep => Ok(next)
      case PopAt =>
        var arg :- RelativeArg(e.args, pm + [next], |pm|, |pm| - 1, numArg);
        Ok(next.(sp := next.sp - arg))
      case Terminal => Ok(next.(sp := -3, sg := next.sg + 1))
      case Loop => Ok(next.(sp := next.sp - 3))
  }

  function PassOne(prog: seq<Elem>, pm: seq<Entry>, numArg: int): Result<seq<Entry>>
    requires 0 < |pm| <= |prog| + 1
    decreases |prog| + 1 - |pm|
  {
    if |pm| == |prog| + 1 then Ok(pm)
    else
      var e :- Advance(pm, prog[|pm| - 1], numArg);
      PassOne(prog, pm + [e], numArg)
  }

  function FirstEntry(numArg: int): Entry { Entry(0, numArg, 0, None) }

  // ---------------------------------------------------------------- pass 2

  /** First entry i..imax at code address d, or imax + 1. */
  function TargetIndex(pm: seq<Entry>, imax: int, d: int, i: nat): (t: nat)
    requires i <= imax + 1 < |pm|
    ensures i <= t <= imax + 1
    ensures t <= imax ==> pm[t].pc == d
    ensures forall k :: i <= k < t ==> pm[k].pc != d
    decreases imax + 1 - i
  {
    if i > imax || pm[i].pc == d then i else TargetIndex(pm, imax, d, i + 1)
  }

  /** Depth on arrival when the branch is taken. */
  function BranchDepth(op: Op, sp: int): int {
    match MoveOf(op)
    case Pop1 => sp - 1
    case Push1 => sp + 1
    case _ => sp
  }

  /** Segment src becomes part of segment dst, d cells higher. */
  function Relabel(pm: seq<Entry>, imax: int, src: int, dst: int, d: int): (r: seq<Entry>)
    requires imax < |pm|
    ensures |r| == |pm|
  {
    seq(|pm|, i requires 0 <= i < |pm| =>
      if i <= imax && pm[i].sg == src then pm[i].(sg := dst, sp := pm[i].sp + d) else pm[i])
  }

  /** The slot after the last entry is never written: its content is whatever
      malloc left there, and the jump search reads it. */
  function Resolve(pm: seq<Entry>, inum: nat, e: Elem): (r: Result<seq<Entry>>)
    requires inum + 2 <= |pm|
    ensures r.Ok? ==> |r.value| == |pm|
  {
    if !e.Instr? then Ok(pm)
    else
      var op :- FindOp(e);
      if OperandOf(op) != PcRelative then Ok(pm)
      else
        var imax := |pm| - 2;
        var arg :- BranchArg(e.args, pm, imax, inum);
        var d := arg + pm[inum].pc + 1;
        var t := TargetIndex(pm, imax, d, 0);
        if pm[t].pc != d then Err(StupidLocation)
        else
          var brsp := BranchDepth(op, pm[inum].sp);
          if pm[inum].sg == pm[t].sg then
            if brsp != pm[t].sp then Err(StackMismatch) else Ok(pm)
          else Ok(Relabel(pm, imax, pm[t].sg, pm[inum].sg, brsp - pm[t].sp))
  }

  function PassTwo(prog: seq<Elem>, pm: seq<Entry>, inum: nat): (r: Result<seq<Entry>>)
    requires |pm| == |prog| + 2 && inum <= |prog|
    ensures r.Ok? ==> |r.value| == |pm|
    decreases |prog| - inum
  {
    if inum == |prog| then Ok(pm)
    else
      var next :- Resolve(pm, inum, prog[inum]);
      PassTwo(prog, next, inum + 1)
  }

  // ---------------------------------------------------------------- pass 3

  /** Complaints, and the stack size to reserve. */
  function PassThree(pm: seq<Entry>, imax: int, inum: nat, req: int): Result<int>
    requires imax < |pm|
    decreases imax + 1 - inum
  {
    if inum > imax then Ok(req)
    else if pm[inum].sg != 0 then Err(NotReached)
    else if pm[inum].sp < 0 then Err(BelowGround)
    else PassThree(pm, imax, inum + 1, if pm[inum].sp > req then pm[inum].sp + 1 else req)
  }

  datatype Analysis = Analysis(pm: seq<Entry>, req: int)

  /** make_progmap; junk is the content of the slot that pass 1 leaves alone. */
  function Analyse(prog: seq<Elem>, numArg: int, junk: Entry): (r: Result<Analysis>)
    ensures r.Ok? ==> |r.value.pm| == |prog| + 2
  {
    var pm1 :- PassOne(prog, [FirstEntry(numArg)], numArg);
    assert |pm1| == |prog| + 1 by { PassOneLength(prog, [FirstEntry(numArg)], numArg); }
    var pm2 :- PassTwo(prog, pm1 + [junk], 0);
    var req :- PassThree(pm2, |prog|, 1, numArg);
    if pm2[|prog|].sp != 1 then Err(NotRewound) else Ok(Analysis(pm2, req))
  }

  lemma {:induction false} PassOneLength(prog: seq<Elem>, pm: seq<Entry>, numArg: int)
    requires 0 < |pm| <= |prog| + 1
    ensures var r := PassOne(prog, pm, numArg);
            r.Ok? ==> |r.value| == |prog| + 1 && r.value[..|pm|] == pm
    decreases |prog| + 1 - |pm|
  {
    if |pm| < |prog| + 1 {
      var e := Advance(pm, prog[|pm| - 1], numArg);
      if e.Ok? {
        PassOneLength(prog, pm + [e.value], numArg);
        var r := PassOne(prog, pm, numArg);
        if r.Ok? {
          assert r.value[..|pm|] == r.value[..|pm| + 1][..|pm|];
        }
      }
    }
  }

  // -------------------------------------------------------------- assembler

  function Constants(v: seq<real>): (r: seq<Cell>)
    ensures |r| == |v| && forall i :: 0 <= i < |v| ==> r[i] == Constant(v[i])
  {
    seq(|v|, i requires 0 <= i < |v| => Constant(v[i]))
  }

  /** Byte code of one element. A stack relative operand 0 designates the top:
      PUSH@ becomes DUP, POP@ becomes NOP, anything else is refused. */
  function GenCode(pm: seq<Entry>, inum: nat, e: Elem, numArg: int): Result<seq<Cell>>
    requires inum + 2 <= |pm|
  {
    if !e.Instr? then Ok([])
    else
      var op :- FindOp(e);
      match OperandOf(op)
      case NoOperand => Ok([Code(op, 0)])
      case StackRelative =>
        var arg :- RelativeArg(e.args, pm, |pm| - 2, inum, numArg);
        if arg != 0 then Ok([Code(op, -arg)])
        else if op == PUSH_r then Ok([Code(DUP, 0)])
        else if op == POP_r then Ok([Code(NOP, 0)])
        else Err(RelativeIsZero)
      case Immediate =>
        if |e.args| >= 1 && e.args[0].Num? then Ok([Code(op, 0), Constant(e.args[0].r)])
        else Err(OperandExpected)
      case Vector =>
        var v :- VectorArg(e.args);
        Ok([Code(op, |v|)] + Constants(v))
      case PcRelative =>
        var arg :- BranchArg(e.args, pm, |pm| - 2, inum);
        Ok([Code(op, arg)])
  }

  function Assemble(prog: seq<Elem>, pm: seq<Entry>, inum: nat, numArg: int): Result<seq<Cell>>
    requires |pm| == |prog| + 2 && inum <= |prog|
    decreases |prog| - inum
  {
    if inum == |prog| then Ok([Code(RETURN, 0)])
    else
      var head :- GenCode(pm, inum, prog[inum], numArg);
      var tail :- Assemble(prog, pm, inum + 1, numArg);
      Ok(head + tail)
  }

  /** A loaded DZ function, with the map it was assembled from. */
  datatype Dz = Dz(numArg: int, code: seq<Cell>, reqStack: int, pm: seq<Entry>)

  /** dz-load. */
  function Load(prog: seq<Elem>, numArg: int, junk: Entry): Result<Dz> {
    var a :- Analyse(prog, numArg, junk);
    if a.req > DZ_STACK_SIZE then Err(StackTooSmall)
    else
      var code :- Assemble(prog, a.pm, 0, numArg);
      Ok(Dz(numArg, code, a.req, a.pm))
  }
}
