/** What the static analyser guarantees about runs of the machine. */
module DzSoundness {
  import opened Basics
  import opened DzProgram
  import opened DzAnalysis
  import opened DzMachine

  // ------------------------------------------------ what the passes establish

  predicate IsBranch(e: Elem) { e.Instr? && OperandOf(e.op) == PcRelative }

  predicate IsRelative(e: Elem) { e.Instr? && OperandOf(e.op) == StackRelative }

  predicate NumericOperand(e: Elem) { e.Instr? && |e.args| == 1 && e.args[0].Num? }

  function Delta(m: Move): int {
    match m
    case Push1 => 1
    case Pop1 => -1
    case Loop => -3
    case _ => 0
  }

  /** Entry k + 1 continues entry k: they stay in one segment and differ by the
      stack move of element k, unless that element never falls through. */
  ghost predicate Linked(prog: seq<Elem>, pm: seq<Entry>, k: nat)
    requires k < |prog| && k + 1 < |pm|
  {
    match prog[k]
    case Label(_) => pm[k + 1].pc == pm[k].pc && pm[k + 1].sp == pm[k].sp && pm[k + 1].sg == pm[k].sg
    case Malformed => false
    case Instr(op, args) =>
      && op != RETURN
      && CodeLength(op, args).Ok?
      && pm[k + 1].pc == pm[k].pc + CodeLength(op, args).value
      && (!MoveOf(op).Terminal? ==> pm[k + 1].sg == pm[k].sg)
      && (match MoveOf(op)
          case Terminal => true
          case PopAt =>
            NumericOperand(prog[k]) ==> pm[k].sp - pm[k + 1].sp == prog[k].args[0].r.Floor
          case m => pm[k + 1].sp == pm[k].sp + Delta(m))
  }

  /** Segment 0 holds entry 0 at depth numArg, or it is lost for good. */
  ghost predicate Rooted(pm: seq<Entry>, imax: nat, numArg: int)
    requires imax < |pm|
  {
    (pm[0].sg == 0 && pm[0].sp == numArg) || forall i :: 0 <= i <= imax ==> pm[i].sg != 0
  }

  function JumpTarget(pm: seq<Entry>, k: nat, args: seq<Arg>): nat
    requires k + 2 <= |pm| && BranchArg(args, pm, |pm| - 2, k).Ok?
  {
    TargetIndex(pm, |pm| - 2, BranchArg(args, pm, |pm| - 2, k).value + pm[k].pc + 1, 0)
  }

  /** A branch that pass 2 has seen: both ends agree on segment and depth. */
  ghost predicate Joined(prog: seq<Elem>, pm: seq<Entry>, k: nat)
    requires k < |prog| && |pm| == |prog| + 2
  {
    IsBranch(prog[k]) ==>
      var arg := BranchArg(prog[k].args, pm, |prog|, k);
      && arg.Ok?
      && var t := JumpTarget(pm, k, prog[k].args);
      && pm[t].pc == arg.value + pm[k].pc + 1
      && (t <= |prog| ==> pm[t].sg == pm[k].sg && pm[t].sp == BranchDepth(prog[k].op, pm[k].sp))
  }

  lemma {:induction false} PassOneLinks(prog: seq<Elem>, pm: seq<Entry>, numArg: int)
    requires 0 < |pm| <= |prog| + 1
    requires forall k :: 0 <= k < |pm| - 1 ==> Linked(prog, pm, k)
    ensures var r := PassOne(prog, pm, numArg);
            r.Ok? ==>
              && |r.value| == |prog| + 1 && r.value[0] == pm[0]
              && forall k :: 0 <= k < |prog| ==> Linked(prog, r.value, k)
    decreases |prog| + 1 - |pm|
  {
    if |pm| < |prog| + 1 {
      var e := Advance(pm, prog[|pm| - 1], numArg);
      if e.Ok? {
        var pm' := pm + [e.value];
        forall k | 0 <= k < |pm'| - 1 ensures Linked(prog, pm', k) {
          if k < |pm| - 1 {
            assert Linked(prog, pm, k);
          }
        }
        PassOneLinks(prog, pm', numArg);
      }
    }
  }

  /** Relabelling moves no code, no label and no junk, and shifts a segment as a
      whole: whatever two entries of one segment agreed on, they still agree on. */
  lemma RelabelKeeps(prog: seq<Elem>, pm: seq<Entry>, numArg: int, n: nat, src: int, dst: int, d: int)
    requires |pm| == |prog| + 2 && n <= |prog|
    requires forall k :: 0 <= k < |prog| ==> Linked(prog, pm, k)
    requires forall k :: 0 <= k < n ==> Joined(prog, pm, k)
    requires Rooted(pm, |prog|, numArg)
    requires src != dst && exists i :: 0 <= i <= |prog| && pm[i].sg == dst
    ensures var qm := Relabel(pm, |prog|, src, dst, d);
            && (forall k :: 0 <= k < |prog| ==> Linked(prog, qm, k))
            && (forall k :: 0 <= k < n ==> Joined(prog, qm, k))
            && Rooted(qm, |prog|, numArg)
  {
    var qm := Relabel(pm, |prog|, src, dst, d);
    assert forall i :: 0 <= i < |pm| ==> qm[i].pc == pm[i].pc && qm[i].tag == pm[i].tag;
    forall k | 0 <= k < |prog| ensures Linked(prog, qm, k) {
      assert Linked(prog, pm, k);
    }
    forall k | 0 <= k < n ensures Joined(prog, qm, k) {
      assert Joined(prog, pm, k);
      if IsBranch(prog[k]) {
        BranchArgSame(prog[k].args, pm, qm, k);
      }
    }
  }

  lemma BranchArgSame(args: seq<Arg>, pm: seq<Entry>, qm: seq<Entry>, k: nat)
    requires k + 2 <= |pm| == |qm|
    requires forall i :: 0 <= i < |pm| ==> pm[i].tag == qm[i].tag && pm[i].pc == qm[i].pc
    ensures BranchArg(args, pm, |pm| - 2, k) == BranchArg(args, qm, |qm| - 2, k)
  {
    if OneOperand(args) && args[0].Str? {
      LabelIndexSame(pm, qm, |pm| - 2, args[0].s, 0);
      LabelIndexFound(pm, |pm| - 2, args[0].s, 0);
    }
  }

  lemma {:induction false} PassTwoJoins(prog: seq<Elem>, pm: seq<Entry>, inum: nat, numArg: int)
    requires |pm| == |prog| + 2 && inum <= |prog|
    requires forall k :: 0 <= k < |prog| ==> Linked(prog, pm, k)
    requires forall k :: 0 <= k < inum ==> Joined(prog, pm, k)
    requires Rooted(pm, |prog|, numArg)
    ensures var r := PassTwo(prog, pm, inum);
            r.Ok? ==>
              && (forall k :: 0 <= k < |prog| ==> Linked(prog, r.value, k))
              && (forall k :: 0 <= k < |prog| ==> Joined(prog, r.value, k))
              && Rooted(r.value, |prog|, numArg)
    decreases |prog| - inum
  {
    if inum < |prog| {
      var next := Resolve(pm, inum, prog[inum]);
      if next.Ok? {
        ResolveJoins(prog, pm, inum, numArg);
        PassTwoJoins(prog, next.value, inum + 1, numArg);
      }
    }
  }

  lemma ResolveJoins(prog: seq<Elem>, pm: seq<Entry>, inum: nat, numArg: int)
    requires |pm| == |prog| + 2 && inum < |prog|
    requires forall k :: 0 <= k < |prog| ==> Linked(prog, pm, k)
    requires forall k :: 0 <= k < inum ==> Joined(prog, pm, k)
    requires Rooted(pm, |prog|, numArg)
    requires Resolve(pm, inum, prog[inum]).Ok?
    ensures var qm := Resolve(pm, inum, prog[inum]).value;
            && (forall k :: 0 <= k < |prog| ==> Linked(prog, qm, k))
            && (forall k :: 0 <= k <= inum ==> Joined(prog, qm, k))
            && Rooted(qm, |prog|, numArg)
  {
    hide Linked, Rooted;
    var qm := Resolve(pm, inum, prog[inum]).value;
    if IsBranch(prog[inum]) && qm != pm {
      var t := JumpTarget(pm, inum, prog[inum].args);
      var d := BranchDepth(prog[inum].op, pm[inum].sp) - pm[t].sp;
      RelabelKeeps(prog, pm, numArg, inum, pm[t].sg, pm[inum].sg, d);
      BranchArgSame(prog[inum].args, pm, qm, inum);
      assert JumpTarget(qm, inum, prog[inum].args) == t;
    }
  }

  lemma {:induction false} PassThreeBounds(pm: seq<Entry>, imax: int, inum: nat, req: int)
    requires imax < |pm|
    ensures var r := PassThree(pm, imax, inum, req);
            r.Ok? ==>
              && req <= r.value
              && forall i :: inum <= i <= imax ==> pm[i].sg == 0 && 0 <= pm[i].sp <= r.value
    decreases imax + 1 - inum
  {
    if inum <= imax {
      PassThreeBounds(pm, imax, inum + 1, if pm[inum].sp > req then pm[inum].sp + 1 else req);
    }
  }

  /** All that acceptance says about the map. */
  ghost predicate Accepted(prog: seq<Elem>, numArg: int, pm: seq<Entry>, req: int) {
    && |pm| == |prog| + 2
    && (forall k :: 0 <= k < |prog| ==> Linked(prog, pm, k))
    && (forall k :: 0 <= k < |prog| ==> Joined(prog, pm, k))
    && (forall k :: 0 <= k <= |prog| ==> pm[k].sg == 0 && pm[k].sp <= req)
    && (forall k :: 1 <= k <= |prog| ==> 0 <= pm[k].sp)
    && pm[0].pc == 0 && pm[0].sp == numArg
    && pm[|prog|].sp == 1
  }

  lemma AnalyseAccepts(prog: seq<Elem>, numArg: int, junk: Entry)
    requires Analyse(prog, numArg, junk).Ok?
    ensures var a := Analyse(prog, numArg, junk).value;
            Accepted(prog, numArg, a.pm, a.req)
  {
    PassOneLinks(prog, [FirstEntry(numArg)], numArg);
    var pm1 := PassOne(prog, [FirstEntry(numArg)], numArg).value + [junk];
    forall k | 0 <= k < |prog| ensures Linked(prog, pm1, k) {
      assert Linked(prog, pm1[..|prog| + 1], k);
    }
    PassTwoJoins(prog, pm1, 0, numArg);
    PassTwoCode(prog, pm1, 0);
    var pm := PassTwo(prog, pm1, 0).value;
    PassThreeBounds(pm, |prog|, 1, numArg);
    assert |prog| > 0 ==> pm[1].sg == 0;
    assert pm[|prog|].sp == 1;
    if |prog| == 0 {
      assert PassTwo(prog, pm1, 0).value == pm1;
    }
  }

  /** Pass 2 moves no code and no label. */
  lemma {:induction false} PassTwoCode(prog: seq<Elem>, pm: seq<Entry>, inum: nat)
    requires |pm| == |prog| + 2 && inum <= |prog|
    ensures var r := PassTwo(prog, pm, inum);
            r.Ok? ==>
              && (forall i :: 0 <= i < |pm| ==> r.value[i].pc == pm[i].pc && r.value[i].tag == pm[i].tag)
              && r.value[|prog| + 1] == pm[|prog| + 1]
    decreases |prog| - inum
  {
    hide Resolve;
    if inum < |prog| {
      var next := Resolve(pm, inum, prog[inum]);
      if next.Ok? {
        ResolveCode(pm, inum, prog[inum]);
        PassTwoCode(prog, next.value, inum + 1);
      }
    }
  }

  lemma ResolveCode(pm: seq<Entry>, inum: nat, e: Elem)
    requires inum + 2 <= |pm|
    ensures var r := Resolve(pm, inum, e);
            r.Ok? ==>
              && (forall i :: 0 <= i < |pm| ==> r.value[i].pc == pm[i].pc && r.value[i].tag == pm[i].tag)
              && r.value[|pm| - 1] == pm[|pm| - 1]
  {
  }

  // -------------------------------------------------------- code layout

  /** The cells of element k stand at the address its entry gives. */
  ghost predicate LaidOut(prog: seq<Elem>, pm: seq<Entry>, numArg: int, code: seq<Cell>, base: int, k: nat)
    requires k <= |prog| && |pm| == |prog| + 2
  {
    var at := pm[k].pc - base;
    if k == |prog| then 0 <= at == |code| - 1 && code[at] == Code(RETURN, 0)
    else
      var cells := GenCode(pm, k, prog[k], numArg);
      cells.Ok? && 0 <= at <= at + |cells.value| <= |code| && code[at..at + |cells.value|] == cells.value
  }

  lemma GenCodeLength(prog: seq<Elem>, pm: seq<Entry>, k: nat, numArg: int)
    requires k < |prog| && |pm| == |prog| + 2 && Linked(prog, pm, k)
    ensures var r := GenCode(pm, k, prog[k], numArg);
            r.Ok? ==> pm[k].pc + |r.value| == pm[k + 1].pc
  {
  }

  lemma {:induction false} AssembleLayout(prog: seq<Elem>, pm: seq<Entry>, inum: nat, numArg: int, code: seq<Cell>)
    requires |pm| == |prog| + 2 && inum <= |prog|
    requires forall k :: 0 <= k < |prog| ==> Linked(prog, pm, k)
    requires Assemble(prog, pm, inum, numArg) == Ok(code)
    ensures forall k :: inum <= k <= |prog| ==> LaidOut(prog, pm, numArg, code, pm[inum].pc, k)
    decreases |prog| - inum
  {
    if inum < |prog| {
      var head := GenCode(pm, inum, prog[inum], numArg).value;
      var tail := Assemble(prog, pm, inum + 1, numArg).value;
      AssembleLayout(prog, pm, inum + 1, numArg, tail);
      GenCodeLength(prog, pm, inum, numArg);
      forall k | inum <= k <= |prog| ensures LaidOut(prog, pm, numArg, code, pm[inum].pc, k) {
        if k > inum {
          LaidOutBehind(prog, pm, numArg, head, tail, pm[inum].pc, k);
        }
      }
    }
  }

  lemma LaidOutBehind(prog: seq<Elem>, pm: seq<Entry>, numArg: int, head: seq<Cell>, tail: seq<Cell>, base: int, k: nat)
    requires k <= |prog| && |pm| == |prog| + 2
    requires LaidOut(prog, pm, numArg, tail, base + |head|, k)
    ensures LaidOut(prog, pm, numArg, head + tail, base, k)
  {
    if k < |prog| {
      var at := pm[k].pc - base - |head|;
      var n := |GenCode(pm, k, prog[k], numArg).value|;
      assert (head + tail)[|head| + at..|head| + at + n] == tail[at..at + n];
    }
  }

  /** A program the loader accepted, seen through its map. */
  ghost predicate Loaded(prog: seq<Elem>, dz: Dz) {
    && Accepted(prog, dz.numArg, dz.pm, dz.reqStack)
    && dz.reqStack <= DZ_STACK_SIZE
    && forall k :: 0 <= k <= |prog| ==> LaidOut(prog, dz.pm, dz.numArg, dz.code, 0, k)
  }

  lemma LoadGives(prog: seq<Elem>, numArg: int, junk: Entry)
    requires Load(prog, numArg, junk).Ok?
    ensures Loaded(prog, Load(prog, numArg, junk).value)
  {
    AnalyseAccepts(prog, numArg, junk);
    var dz := Load(prog, numArg, junk).value;
    AssembleLayout(prog, dz.pm, 0, numArg, dz.code);
  }

  // ------------------------------------------- control flow without values

  /** Where one instruction can leave code address and depth, whatever branches
      and loops are taken. */
  function Successors(op: Op, arg: int, pc: int, depth: int): set<(int, int)> {
    match op
    case RETURN | ERROR => {}
    case BR_l => {(pc + 1 + arg, depth)}
    case Branch_l(_) => {(pc + 1, depth - 1), (pc + 1 + arg, depth - 1)}
    case BEGFOR_l | ENDFOR_l => {(pc + 1, depth - 3), (pc + 1 + arg, depth)}
    case POP_r => {(pc + 1, depth + arg)}
    case PUSH_i => {(pc + 2, depth + 1)}
    case Dia_i(_) => {(pc + 2, depth)}
    case SPLINE_n | DSPLINE_n => {(pc + 1 + arg, depth)}
    case _ => {(pc + 1, depth + Delta(MoveOf(op)))}
  }

  /** Stack cells one instruction can read or write. */
  function Touched(op: Op, arg: int, depth: int): set<int> {
    match op
    case POP | Dia(_) | Branch_l(_) => {depth - 2}
    case DUP | PUSH_i | RAND | GAUSS => {depth - 1}
    case PUSH_r => {depth - 1, depth - 1 + arg}
    case SET_r => {depth - 1 + arg, depth - 2}
    case Dia_r(_) => {depth - 1 + arg}
    case BEGFOR_l | ENDFOR_l => {depth - 2, depth - 3, depth - 4}
    case _ => {}
  }

  /** The entry lists a depth for this code address. */
  ghost predicate Lands(pm: seq<Entry>, imax: nat, pc: int, depth: int)
    requires imax < |pm|
  {
    exists j: nat :: j <= imax && pm[j].pc == pc && pm[j].sp == depth
  }

  /** Running element k keeps the machine on the map, and its stack relative
      operand, unless it designates the top, lies below the top of the stack. */
  ghost predicate Keeps(prog: seq<Elem>, dz: Dz, k: nat)
    requires Loaded(prog, dz) && k < |prog|
  {
    prog[k].Instr? ==>
      var pc, depth := dz.pm[k].pc, dz.pm[k].sp;
      && 0 <= pc < |dz.code| && dz.code[pc].Code?
      && var op, arg := dz.code[pc].op, dz.code[pc].arg;
      && (OperandOf(op) == StackRelative ==> 0 <= depth - 1 + arg < depth - 1)
      && forall s :: s in Successors(op, arg, pc, depth) ==> Lands(dz.pm, |prog|, s.0, s.1)
  }

  /** What the loader does not check of symbolic operands: the operand of a stack
      relative instruction lies below the top, and POP@ drops the same number of
      cells in pass 1 and in the assembled code. */
  ghost predicate OperandGood(prog: seq<Elem>, dz: Dz, k: nat)
    requires Loaded(prog, dz) && k < |prog|
  {
    IsRelative(prog[k]) ==>
      var arg := RelativeArg(prog[k].args, dz.pm, |prog|, k, dz.numArg);
      && arg.Ok?
      && (arg.value == 0 || 0 < arg.value < dz.pm[k].sp)
      && (prog[k].op == POP_r ==> dz.pm[k].sp - dz.pm[k + 1].sp == arg.value)
  }

  /** What the loader does not check of branches: the jump search stopped at a
      real entry and not at the slot pass 1 never wrote. */
  ghost predicate TargetGood(prog: seq<Elem>, dz: Dz, k: nat)
    requires Loaded(prog, dz) && k < |prog|
  {
    IsBranch(prog[k]) ==>
      assert Joined(prog, dz.pm, k);
      JumpTarget(dz.pm, k, prog[k].args) <= |prog|
  }

  /** Elements at one code address have one depth. */
  lemma {:induction false} SamePcSameDepth(prog: seq<Elem>, dz: Dz, i: nat, j: nat)
    requires Loaded(prog, dz) && i <= j <= |prog|
    ensures dz.pm[i].pc <= dz.pm[j].pc
    ensures dz.pm[i].pc == dz.pm[j].pc ==> dz.pm[i].sp == dz.pm[j].sp
    decreases j - i
  {
    if i < j {
      SamePcSameDepth(prog, dz, i, j - 1);
      assert Linked(prog, dz.pm, j - 1);
    }
  }

  lemma FirstCell(prog: seq<Elem>, dz: Dz, k: nat)
    requires Loaded(prog, dz) && k < |prog| && prog[k].Instr?
    ensures var cells := GenCode(dz.pm, k, prog[k], dz.numArg);
            && cells.Ok? && |cells.value| > 0 && cells.value[0].Code?
            && 0 <= dz.pm[k].pc < |dz.code| && dz.code[dz.pm[k].pc] == cells.value[0]
  {
    assert LaidOut(prog, dz.pm, dz.numArg, dz.code, 0, k);
    var cells := GenCode(dz.pm, k, prog[k], dz.numArg).value;
    assert dz.code[dz.pm[k].pc..dz.pm[k].pc + |cells|][0] == cells[0];
  }

  lemma KeepsIffBranch(prog: seq<Elem>, dz: Dz, k: nat)
    requires Loaded(prog, dz) && k < |prog| && IsBranch(prog[k])
    ensures Keeps(prog, dz, k) <==> TargetGood(prog, dz, k)
  {
    FirstCell(prog, dz, k);
    assert Linked(prog, dz.pm, k) && Joined(prog, dz.pm, k);
    var pm, pc, depth := dz.pm, dz.pm[k].pc, dz.pm[k].sp;
    var op, arg := dz.code[pc].op, dz.code[pc].arg;
    assert !op.BR_l? ==> Lands(pm, |prog|, pm[k + 1].pc, pm[k + 1].sp);
    var t := JumpTarget(pm, k, prog[k].args);
    if t <= |prog| {
      assert Lands(pm, |prog|, pm[t].pc, pm[t].sp);
    } else {
      assert (pc + 1 + arg, BranchDepth(op, depth)) in Successors(op, arg, pc, depth);
      assert !Lands(pm, |prog|, pc + 1 + arg, BranchDepth(op, depth));
    }
  }

  lemma KeepsIffRelative(prog: seq<Elem>, dz: Dz, k: nat)
    requires Loaded(prog, dz) && k < |prog| && IsRelative(prog[k])
    ensures Keeps(prog, dz, k) <==> OperandGood(prog, dz, k)
  {
    FirstCell(prog, dz, k);
    assert Linked(prog, dz.pm, k);
    var pm, pc, depth := dz.pm, dz.pm[k].pc, dz.pm[k].sp;
    var op, arg := dz.code[pc].op, dz.code[pc].arg;
    if OperandGood(prog, dz, k) {
      assert Lands(pm, |prog|, pm[k + 1].pc, pm[k + 1].sp);
    } else if prog[k].op == POP_r && Keeps(prog, dz, k) {
      assert (pc + 1, depth + arg) in Successors(op, arg, pc, depth);
      assert Lands(pm, |prog|, pc + 1, depth + arg);
      var j: nat :| j <= |prog| && pm[j].pc == pc + 1 && pm[j].sp == depth + arg;
      SamePcSameDepth(prog, dz, if j < k + 1 then j else k + 1, if j < k + 1 then k + 1 else j);
    }
  }

  lemma KeepsOther(prog: seq<Elem>, dz: Dz, k: nat)
    requires Loaded(prog, dz) && k < |prog| && !IsRelative(prog[k]) && !IsBranch(prog[k])
    ensures Keeps(prog, dz, k)
  {
    if prog[k].Instr? {
      FirstCell(prog, dz, k);
      assert Linked(prog, dz.pm, k);
      assert Lands(dz.pm, |prog|, dz.pm[k + 1].pc, dz.pm[k + 1].sp);
    }
  }

  /** The map is kept exactly by the elements whose operands and targets are good. */
  lemma KeepsIff(prog: seq<Elem>, dz: Dz, k: nat)
    requires Loaded(prog, dz) && k < |prog|
    ensures Keeps(prog, dz, k) <==> OperandGood(prog, dz, k) && TargetGood(prog, dz, k)
  {
    if IsRelative(prog[k]) {
      KeepsIffRelative(prog, dz, k);
    } else if IsBranch(prog[k]) {
      KeepsIffBranch(prog, dz, k);
    } else {
      KeepsOther(prog, dz, k);
    }
  }
}
