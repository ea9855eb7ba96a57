/** What the static analyser accepts (src/dz.c:755-910): exactly the programs whose elements can
    be given depths that agree with every instruction and every branch, all connected with the
    start, unless a branch into what is connected with the start comes too early. */
module DzAcceptance {
  import opened Basics
  import opened DzProgram
  import opened DzAnalysis
  import opened DzSoundness
  import opened DzNames

  // ------------------------------------------------- the first map

  /** POP@ goes down to this depth: that of the argument or label it names, or so many values
      fewer; in segment 0, where depths are known, one value at least is left. */
  ghost predicate GoesDownTo(args: seq<Arg>, pm: seq<Entry>, k: nat, numArg: int, depth: int)
    requires k < |pm|
  {
    && |args| == 1
    && match args[0]
       case Str(s) =>
         if 1 <= ArgNumber(s) <= numArg then depth == ArgNumber(s)
         else exists l :: FirstLabel(pm, k, s, l) && depth == pm[l].sp
       case Num(r) => IsInteger(r) && depth == pm[k].sp - r.Floor && (pm[k].sg == 0 ==> 0 < depth <= pm[k].sp)
       case _ => false
  }

  function Size(op: Op, args: seq<Arg>): nat {
    match OperandOf(op)
    case Immediate => 2
    case Vector => if |args| == 1 && args[0].Vec? then 1 + |args[0].data| else 1
    case _ => 1
  }

  /** Entry k + 1 follows entry k: what pass 1 knows before the branches are looked at. An
      instruction that never falls through begins a new segment, at depth -3. */
  ghost predicate Next(prog: seq<Elem>, pm: seq<Entry>, k: nat, numArg: int)
    requires k < |prog| && k + 1 < |pm|
  {
    match prog[k]
    case Label(name) => pm[k + 1] == pm[k].(tag := Some(name))
    case Malformed => false
    case Instr(op, args) =>
      && op != RETURN && (OperandOf(op) == Vector ==> |args| == 1 && args[0].Vec?)
      && pm[k + 1].tag == None && pm[k + 1].pc == pm[k].pc + Size(op, args)
      && pm[k + 1].sg == pm[k].sg + (if MoveOf(op) == Terminal then 1 else 0)
      && match MoveOf(op)
         case Terminal => pm[k + 1].sp == -3
         case PopAt => GoesDownTo(args, pm, k, numArg, pm[k + 1].sp)
         case m => pm[k + 1].sp == pm[k].sp + Delta(m)
  }

  ghost predicate FirstMap(prog: seq<Elem>, numArg: int, pm: seq<Entry>) {
    && |pm| == |prog| + 1 && pm[0] == FirstEntry(numArg)
    && forall k :: 0 <= k < |prog| ==> Next(prog, pm, k, numArg)
  }

  lemma DownIff(args: seq<Arg>, pm: seq<Entry>, next: Entry, numArg: int, a: int)
    requires pm != [] && next.tag == None
    ensures RelativeArg(args, pm + [next], |pm|, |pm| - 1, numArg) == Ok(a) <==>
      GoesDownTo(args, pm, |pm| - 1, numArg, pm[|pm| - 1].sp - a)
  {
    var qm, k := pm + [next], |pm| - 1;
    DesignatesIff(args, qm, |pm|, numArg, k, pm[k].sp - 1 - a);
    if |args| == 1 && args[0].Str? {
      var s := args[0].s;
      forall l ensures FirstLabel(qm, |pm|, s, l) <==> FirstLabel(pm, k, s, l) {
        assert 0 <= l <= k ==> qm[l] == pm[l] && forall j :: 0 <= j < l ==> qm[j] == pm[j];
        assert l == |pm| ==> qm[l] == next;
      }
      if exists l :: FirstLabel(pm, k, s, l) && pm[k].sp - a == pm[l].sp {
        var l :| FirstLabel(pm, k, s, l) && pm[k].sp - a == pm[l].sp;
        assert FirstLabel(qm, |pm|, s, l) && qm[l] == pm[l];
      }
      if exists l :: FirstLabel(qm, |pm|, s, l) && pm[k].sp - 1 - a == qm[l].sp - 1 {
        var l :| FirstLabel(qm, |pm|, s, l) && pm[k].sp - 1 - a == qm[l].sp - 1;
        assert FirstLabel(pm, k, s, l) && qm[l] == pm[l];
      }
    }
  }

  /** A depth depends on the entries up to k alone. */
  lemma DownBefore(args: seq<Arg>, pm: seq<Entry>, k: nat, numArg: int, depth: int)
    requires k < |pm|
    ensures GoesDownTo(args, pm, k, numArg, depth) <==> GoesDownTo(args, pm[..k + 1], k, numArg, depth)
  {
    var qm := pm[..k + 1];
    if |args| == 1 && args[0].Str? {
      var s := args[0].s;
      forall l ensures FirstLabel(qm, k, s, l) <==> FirstLabel(pm, k, s, l) {
        assert 0 <= l <= k ==> forall j :: 0 <= j <= l ==> qm[j] == pm[j];
      }
      assert forall l :: 0 <= l <= k ==> qm[l] == pm[l];
    }
  }

  lemma AdvanceIff(prog: seq<Elem>, pm: seq<Entry>, k: nat, numArg: int)
    requires k < |prog| && k + 1 < |pm|
    ensures Advance(pm[..k + 1], prog[k], numArg) == Ok(pm[k + 1]) <==> Next(prog, pm, k, numArg)
  {
    hide RelativeArg, GoesDownTo;
    var last := pm[..k + 1][k].(tag := None);
    if prog[k].Instr? && CodeLength(prog[k].op, prog[k].args).Ok? && MoveOf(prog[k].op) == PopAt {
      var next := last.(pc := last.pc + CodeLength(prog[k].op, prog[k].args).value);
      DownIff(prog[k].args, pm[..k + 1], next, numArg, pm[k].sp - pm[k + 1].sp);
      DownBefore(prog[k].args, pm, k, numArg, pm[k + 1].sp);
    }
  }

  lemma {:induction false} PassOneGives(prog: seq<Elem>, pm: seq<Entry>, n: nat, numArg: int)
    requires |pm| == |prog| + 1 && 0 < n <= |pm|
    requires forall k :: n - 1 <= k < |prog| ==> Next(prog, pm, k, numArg)
    ensures PassOne(prog, pm[..n], numArg) == Ok(pm)
    decreases |pm| - n
  {
    if n == |pm| {
      assert pm[..n] == pm;
    } else {
      AdvanceIff(prog, pm, n - 1, numArg);
      hide Advance, Next;
      assert pm[..n] + [pm[n]] == pm[..n + 1];
      PassOneGives(prog, pm, n + 1, numArg);
    }
  }

  lemma {:induction false} PassOneFirst(prog: seq<Elem>, pm: seq<Entry>, numArg: int)
    requires 0 < |pm| <= |prog| + 1 && PassOne(prog, pm, numArg).Ok?
    ensures var r := PassOne(prog, pm, numArg).value;
      |r| == |prog| + 1 && r[..|pm|] == pm && forall k :: |pm| - 1 <= k < |prog| ==> Next(prog, r, k, numArg)
    decreases |prog| + 1 - |pm|
  {
    PassOneLength(prog, pm, numArg);
    if |pm| < |prog| + 1 {
      var e := Advance(pm, prog[|pm| - 1], numArg).value;
      var r := PassOne(prog, pm, numArg).value;
      PassOneFirst(prog, pm + [e], numArg);
      assert r[|pm|] == (pm + [e])[|pm|] == e && r[..|pm| - 1 + 1] == pm;
      AdvanceIff(prog, r, |pm| - 1, numArg);
      hide Next, Advance;
    }
  }

  /** Pass 1 succeeds exactly when there is such a map, and answers it. */
  lemma PassOneIff(prog: seq<Elem>, numArg: int)
    ensures var r := PassOne(prog, [FirstEntry(numArg)], numArg);
      && (r.Ok? <==> exists pm :: FirstMap(prog, numArg, pm))
      && forall pm :: FirstMap(prog, numArg, pm) ==> r == Ok(pm)
  {
    var r := PassOne(prog, [FirstEntry(numArg)], numArg);
    if r.Ok? {
      PassOneFirst(prog, [FirstEntry(numArg)], numArg);
      assert r.value[0] == r.value[..1][0];
      assert FirstMap(prog, numArg, r.value);
    }
    forall pm | FirstMap(prog, numArg, pm) ensures r == Ok(pm) {
      PassOneGives(prog, pm, 1, numArg);
      assert pm[..1] == [FirstEntry(numArg)];
    }
  }

  // ------------------------------------------------- depths and connections

  predicate FallsThrough(e: Elem) { !(e.Instr? && MoveOf(e.op) == Terminal) }

  /** Branch k goes to element t: the first entry at its address. */
  ghost predicate Jumps(prog: seq<Elem>, q: seq<Entry>, k: nat, t: nat)
    requires k < |prog| && |q| == |prog| + 2
  {
    && IsBranch(prog[k]) && t <= |prog| && GoesTo(prog[k].args, q, |prog|, k, q[t].pc)
    && forall j :: 0 <= j < t ==> q[j].pc != q[t].pc
  }

  /** Every branch has a good operand and goes to an element. */
  ghost predicate BranchesLand(prog: seq<Elem>, q: seq<Entry>)
    requires |q| == |prog| + 2
  {
    forall k :: 0 <= k < |prog| && IsBranch(prog[k]) ==> exists t :: Jumps(prog, q, k, t)
  }

  /** No branch has the address that is left in the slot behind the last entry. */
  ghost predicate SlotMissed(prog: seq<Elem>, q: seq<Entry>)
    requires |q| == |prog| + 2
  {
    forall k :: 0 <= k < |prog| && IsBranch(prog[k]) && GoesTo(prog[k].args, q, |prog|, k, q[|prog| + 1].pc) ==>
      exists t :: Jumps(prog, q, k, t)
  }

  /** Depths that agree with what each element does, and with the first n branches. */
  ghost predicate DepthsFit(prog: seq<Elem>, q: seq<Entry>, ds: seq<int>, n: nat)
    requires |q| == |prog| + 2
  {
    && |ds| == |prog| + 1
    && (forall k :: 0 <= k < |prog| && FallsThrough(prog[k]) ==> ds[k + 1] - ds[k] == q[k + 1].sp - q[k].sp)
    && forall k, t: nat :: 0 <= k < |prog| && k < n && Jumps(prog, q, k, t) ==> ds[t] == BranchDepth(prog[k].op, ds[k])
  }

  /** Colours that no element and none of the first n branches leads away from. */
  ghost predicate Colours(prog: seq<Elem>, q: seq<Entry>, cs: seq<int>, n: nat)
    requires |q| == |prog| + 2
  {
    && |cs| == |prog| + 1
    && (forall k :: 0 <= k < |prog| && FallsThrough(prog[k]) ==> cs[k + 1] == cs[k])
    && forall k, t: nat :: 0 <= k < |prog| && k < n && Jumps(prog, q, k, t) ==> cs[t] == cs[k]
  }

  /** Entry i is connected with entry 0, by the elements and the first n branches, either way. */
  ghost predicate Connected(prog: seq<Elem>, q: seq<Entry>, n: nat, i: nat)
    requires |q| == |prog| + 2 && i <= |prog|
  {
    forall cs :: Colours(prog, q, cs, n) ==> cs[i] == cs[0]
  }

  /** None of the first n branches leads, from what is not connected with the start by the
      branches before it, to what is. */
  ghost predicate StartKept(prog: seq<Elem>, q: seq<Entry>, n: nat)
    requires |q| == |prog| + 2
  {
    forall k, t: nat :: 0 <= k < |prog| && k < n && Jumps(prog, q, k, t) && Connected(prog, q, k, t) ==>
      Connected(prog, q, k, k)
  }

  // ------------------------------------------------- pass 2

  ghost predicate SameCode(q: seq<Entry>, m: seq<Entry>) {
    |m| == |q| && forall i :: 0 <= i < |q| ==> m[i].pc == q[i].pc && m[i].tag == q[i].tag
  }

  function Depths(m: seq<Entry>, n: nat): (ds: seq<int>)
    requires n < |m|
    ensures |ds| == n + 1 && forall i :: 0 <= i <= n ==> ds[i] == m[i].sp
  {
    seq(n + 1, i requires 0 <= i <= n => m[i].sp)
  }

  function Segments(m: seq<Entry>, n: nat): (cs: seq<int>)
    requires n < |m|
    ensures |cs| == n + 1 && forall i :: 0 <= i <= n ==> cs[i] == m[i].sg
  {
    seq(n + 1, i requires 0 <= i <= n => m[i].sg)
  }

  /** Entries of one segment have one colour, and their depths are off by the same amount. */
  ghost predicate OneSegment(prog: seq<Elem>, q: seq<Entry>, m: seq<Entry>, n: nat, i: nat, j: nat)
    requires |q| == |prog| + 2 == |m| && i <= |prog| && j <= |prog|
  {
    && (forall cs :: Colours(prog, q, cs, n) ==> cs[i] == cs[j])
    && forall ds :: DepthsFit(prog, q, ds, |prog|) ==> m[i].sp - ds[i] == m[j].sp - ds[j]
  }

  ghost predicate Grouped(prog: seq<Elem>, q: seq<Entry>, m: seq<Entry>, n: nat)
    requires |q| == |prog| + 2 == |m|
  {
    forall i, j :: 0 <= i <= |prog| && 0 <= j <= |prog| && m[i].sg == m[j].sg ==> OneSegment(prog, q, m, n, i, j)
  }

  /** The start is in segment 0 at its depth, or that segment is gone. */
  ghost predicate StartAt(prog: seq<Elem>, q: seq<Entry>, numArg: int, m: seq<Entry>, n: nat)
    requires |q| == |prog| + 2 == |m|
  {
    if StartKept(prog, q, n) then m[0].sg == 0 && m[0].sp == numArg
    else forall i :: 0 <= i <= |prog| ==> m[i].sg != 0
  }

  /** The map after n elements of pass 2. */
  ghost predicate Halfway(prog: seq<Elem>, q: seq<Entry>, numArg: int, m: seq<Entry>, n: nat) {
    && |q| == |prog| + 2 == |m| && SameCode(q, m) && m[|prog| + 1] == q[|prog| + 1]
    && Colours(prog, q, Segments(m, |prog|), n) && DepthsFit(prog, q, Depths(m, |prog|), n)
    && Grouped(prog, q, m, n) && StartAt(prog, q, numArg, m, n)
  }

  lemma JumpsIff(prog: seq<Elem>, q: seq<Entry>, m: seq<Entry>, k: nat, t: nat)
    requires k < |prog| && |q| == |prog| + 2 && SameCode(q, m) && IsBranch(prog[k]) && t <= |prog|
    ensures Jumps(prog, q, k, t) <==>
      BranchArg(prog[k].args, m, |prog|, k).Ok? && JumpTarget(m, k, prog[k].args) == t
  {
    GoesToIff(prog[k].args, q, |prog|, k, q[t].pc);
    BranchArgSame(prog[k].args, q, m, k);
    hide BranchArg, GoesTo;
  }

  lemma OneJump(prog: seq<Elem>, q: seq<Entry>, k: nat, t: nat, u: nat)
    requires k < |prog| && |q| == |prog| + 2 && Jumps(prog, q, k, t) && Jumps(prog, q, k, u)
    ensures t == u
  {
    JumpsIff(prog, q, q, k, t);
    JumpsIff(prog, q, q, k, u);
  }

  /** Where the search for branch n ends. */
  lemma Search(prog: seq<Elem>, q: seq<Entry>, m: seq<Entry>, n: nat)
    requires n < |prog| && |q| == |prog| + 2 && SameCode(q, m) && m[|prog| + 1] == q[|prog| + 1] && IsBranch(prog[n])
    requires SlotMissed(prog, q) && prog[n].op != RETURN
    ensures var r := Resolve(m, n, prog[n]);
      if exists t :: Jumps(prog, q, n, t) then
        BranchArg(prog[n].args, m, |prog|, n).Ok? && Jumps(prog, q, n, JumpTarget(m, n, prog[n].args))
      else r.Err?
  {
    var arg := BranchArg(prog[n].args, m, |prog|, n);
    if t :| Jumps(prog, q, n, t) {
      JumpsIff(prog, q, m, n, t);
    } else if arg.Ok? {
      var t := JumpTarget(m, n, prog[n].args);
      if t <= |prog| {
        JumpsIff(prog, q, m, n, t);
      } else {
        BranchArgSame(prog[n].args, q, m, n);
        GoesToIff(prog[n].args, q, |prog|, n, q[|prog| + 1].pc);
      }
    }
  }

  lemma FewerColours(prog: seq<Elem>, q: seq<Entry>, cs: seq<int>, n: nat)
    requires |q| == |prog| + 2 && n < |prog|
    ensures Colours(prog, q, cs, n + 1) <==>
      Colours(prog, q, cs, n) && forall t: nat :: Jumps(prog, q, n, t) ==> cs[t] == cs[n]
  {
  }

  lemma FewerDepths(prog: seq<Elem>, q: seq<Entry>, ds: seq<int>, n: nat)
    requires |q| == |prog| + 2 && n < |prog|
    ensures DepthsFit(prog, q, ds, n + 1) <==>
      DepthsFit(prog, q, ds, n) && forall t: nat :: Jumps(prog, q, n, t) ==> ds[t] == BranchDepth(prog[n].op, ds[n])
    ensures DepthsFit(prog, q, ds, |prog|) ==> DepthsFit(prog, q, ds, n + 1)
  {
  }

  lemma StartKeptMore(prog: seq<Elem>, q: seq<Entry>, n: nat)
    requires |q| == |prog| + 2 && n < |prog|
    ensures StartKept(prog, q, n + 1) <==>
      StartKept(prog, q, n) &&
      forall t: nat :: Jumps(prog, q, n, t) && Connected(prog, q, n, t) ==> Connected(prog, q, n, n)
  {
    hide Connected, Jumps;
  }

  lemma StillOne(prog: seq<Elem>, q: seq<Entry>, m: seq<Entry>, n: nat, i: nat, j: nat)
    requires |q| == |prog| + 2 == |m| && i <= |prog| && j <= |prog| && n < |prog| && OneSegment(prog, q, m, n, i, j)
    ensures OneSegment(prog, q, m, n + 1, i, j)
  {
    hide DepthsFit, Jumps;
    forall cs | Colours(prog, q, cs, n + 1) ensures cs[i] == cs[j] {
      FewerColours(prog, q, cs, n);
    }
  }

  /** Entries of the start's segment are the connected ones, as long as it is segment 0. */
  lemma ConnectedIff(prog: seq<Elem>, q: seq<Entry>, numArg: int, m: seq<Entry>, n: nat, i: nat)
    requires Halfway(prog, q, numArg, m, n) && i <= |prog|
    ensures Connected(prog, q, n, i) <==> m[i].sg == m[0].sg
  {
    hide Colours, DepthsFit, SameCode, StartKept;
    if m[i].sg == m[0].sg {
      assert OneSegment(prog, q, m, n, i, 0);
    } else {
      var cs := Segments(m, |prog|);
      assert Colours(prog, q, cs, n) && cs[i] != cs[0];
    }
  }

  /** An element that joins nothing new. */
  lemma NothingJoined(prog: seq<Elem>, q: seq<Entry>, numArg: int, m: seq<Entry>, n: nat)
    requires Halfway(prog, q, numArg, m, n) && n < |prog|
    requires forall t: nat :: Jumps(prog, q, n, t) ==> m[t].sg == m[n].sg && m[t].sp == BranchDepth(prog[n].op, m[n].sp)
    ensures Halfway(prog, q, numArg, m, n + 1)
  {
    hide Colours, DepthsFit, OneSegment, Connected, StartKept, SameCode;
    FewerColours(prog, q, Segments(m, |prog|), n);
    FewerDepths(prog, q, Depths(m, |prog|), n);
    forall i, j | 0 <= i <= |prog| && 0 <= j <= |prog| && m[i].sg == m[j].sg
      ensures OneSegment(prog, q, m, n + 1, i, j)
    {
      StillOne(prog, q, m, n, i, j);
    }
    StartKeptMore(prog, q, n);
    forall t: nat | Jumps(prog, q, n, t) ensures Connected(prog, q, n, t) <==> Connected(prog, q, n, n) {
      ConnectedIff(prog, q, numArg, m, n, t);
      ConnectedIff(prog, q, numArg, m, n, n);
    }
  }

  lemma MergedColours(prog: seq<Elem>, q: seq<Entry>, m: seq<Entry>, n: nat, t: nat)
    requires |q| == |prog| + 2 == |m| && n < |prog| && Jumps(prog, q, n, t)
    requires Colours(prog, q, Segments(m, |prog|), n) && DepthsFit(prog, q, Depths(m, |prog|), n)
    requires m[n].sg != m[t].sg
    ensures var w := Relabel(m, |prog|, m[t].sg, m[n].sg, BranchDepth(prog[n].op, m[n].sp) - m[t].sp);
      Colours(prog, q, Segments(w, |prog|), n + 1) && DepthsFit(prog, q, Depths(w, |prog|), n + 1)
  {
    hide Jumps, Relabel, BranchDepth, FallsThrough;
    JumpsWithin(prog, q);
    var d := BranchDepth(prog[n].op, m[n].sp) - m[t].sp;
    var w := Relabel(m, |prog|, m[t].sg, m[n].sg, d);
    RelabelAt(m, |prog|, m[t].sg, m[n].sg, d);
    forall u: nat | Jumps(prog, q, n, u) ensures u == t {
      OneJump(prog, q, n, t, u);
    }
    assert Colours(prog, q, Segments(w, |prog|), n + 1);
    MergedDepths(prog, q, m, n, t, d);
  }

  lemma MergedDepths(prog: seq<Elem>, q: seq<Entry>, m: seq<Entry>, n: nat, t: nat, d: int)
    requires |q| == |prog| + 2 == |m| && n < |prog| && t <= |prog| && IsBranch(prog[n])
    requires forall u: nat :: Jumps(prog, q, n, u) ==> u == t
    requires Colours(prog, q, Segments(m, |prog|), n) && DepthsFit(prog, q, Depths(m, |prog|), n)
    requires m[n].sg != m[t].sg && d == BranchDepth(prog[n].op, m[n].sp) - m[t].sp
    ensures DepthsFit(prog, q, Depths(Relabel(m, |prog|, m[t].sg, m[n].sg, d), |prog|), n + 1)
  {
    hide Jumps, Relabel, BranchDepth, FallsThrough;
    JumpsWithin(prog, q);
    var w := Relabel(m, |prog|, m[t].sg, m[n].sg, d);
    RelabelAt(m, |prog|, m[t].sg, m[n].sg, d);
    forall k, u: nat | 0 <= k <= n && Jumps(prog, q, k, u) ensures w[u].sp == BranchDepth(prog[k].op, w[k].sp) {
      if k < n {
        assert Segments(m, |prog|)[u] == Segments(m, |prog|)[k];
        DepthShift(prog[k].op, w[k].sp, m[k].sp);
      }
    }
  }

  lemma RelabelAt(m: seq<Entry>, imax: nat, src: int, dst: int, d: int)
    requires imax < |m|
    ensures var w := Relabel(m, imax, src, dst, d);
      |w| == |m| && forall i :: 0 <= i <= imax ==>
        if m[i].sg == src then w[i].sg == dst && w[i].sp == m[i].sp + d
        else w[i].sg == m[i].sg && w[i].sp == m[i].sp
  {
  }

  lemma JumpsWithin(prog: seq<Elem>, q: seq<Entry>)
    requires |q| == |prog| + 2
    ensures forall k, u: nat :: 0 <= k < |prog| && Jumps(prog, q, k, u) ==> u <= |prog| && IsBranch(prog[k])
  {
  }

  lemma MergedSegment(prog: seq<Elem>, q: seq<Entry>, m: seq<Entry>, n: nat, t: nat, i: nat, j: nat)
    requires |q| == |prog| + 2 == |m| && n < |prog| && Jumps(prog, q, n, t) && i <= |prog| && j <= |prog|
    requires m[n].sg != m[t].sg
    requires Grouped(prog, q, m, n)
    requires var w := Relabel(m, |prog|, m[t].sg, m[n].sg, BranchDepth(prog[n].op, m[n].sp) - m[t].sp);
      w[i].sg == w[j].sg
    ensures var w := Relabel(m, |prog|, m[t].sg, m[n].sg, BranchDepth(prog[n].op, m[n].sp) - m[t].sp);
      OneSegment(prog, q, w, n + 1, i, j)
  {
    var d := BranchDepth(prog[n].op, m[n].sp) - m[t].sp;
    var w := Relabel(m, |prog|, m[t].sg, m[n].sg, d);
    JumpsWithin(prog, q);
    var i', j' := if m[i].sg == m[t].sg then t else n, if m[j].sg == m[t].sg then t else n;
    assert m[i].sg != m[j].sg ==> OneSegment(prog, q, m, n, i, i') && OneSegment(prog, q, m, n, j, j') && i' != j';
    assert m[i].sg == m[j].sg ==> OneSegment(prog, q, m, n, i, j);
    hide Colours, DepthsFit, Jumps;
    forall cs | Colours(prog, q, cs, n + 1) ensures cs[i] == cs[j] {
      FewerColours(prog, q, cs, n);
    }
    forall ds | DepthsFit(prog, q, ds, |prog|) ensures w[i].sp - ds[i] == w[j].sp - ds[j] {
      FewerDepths(prog, q, ds, n);
      DepthShift(prog[n].op, m[n].sp, ds[n]);
    }
  }

  lemma DepthShift(op: Op, a: int, b: int)
    ensures BranchDepth(op, a) - BranchDepth(op, b) == a - b
  {
  }

  /** A branch that joins two segments. */
  lemma Merged(prog: seq<Elem>, q: seq<Entry>, numArg: int, m: seq<Entry>, n: nat, t: nat)
    requires Halfway(prog, q, numArg, m, n) && n < |prog| && Jumps(prog, q, n, t) && m[n].sg != m[t].sg
    ensures var w := Relabel(m, |prog|, m[t].sg, m[n].sg, BranchDepth(prog[n].op, m[n].sp) - m[t].sp);
      Halfway(prog, q, numArg, w, n + 1)
  {
    hide Colours, DepthsFit, OneSegment, Connected, StartKept, StartAt, SameCode, BranchDepth, Relabel, Jumps;
    JumpsWithin(prog, q);
    var w := Relabel(m, |prog|, m[t].sg, m[n].sg, BranchDepth(prog[n].op, m[n].sp) - m[t].sp);
    RelabelSame(q, m, |prog|, m[t].sg, m[n].sg, BranchDepth(prog[n].op, m[n].sp) - m[t].sp);
    MergedStart(prog, q, numArg, m, n, t);
    MergedColours(prog, q, m, n, t);
    forall i, j | 0 <= i <= |prog| && 0 <= j <= |prog| && w[i].sg == w[j].sg
      ensures OneSegment(prog, q, w, n + 1, i, j)
    {
      MergedSegment(prog, q, m, n, t, i, j);
    }
  }

  lemma RelabelSame(q: seq<Entry>, m: seq<Entry>, imax: nat, src: int, dst: int, d: int)
    requires SameCode(q, m) && imax + 2 == |m|
    ensures var w := Relabel(m, imax, src, dst, d); SameCode(q, w) && w[imax + 1] == m[imax + 1]
  {
  }

  /** The start keeps segment 0 unless the segment it is in is the one that is renamed. */
  lemma MergedStart(prog: seq<Elem>, q: seq<Entry>, numArg: int, m: seq<Entry>, n: nat, t: nat)
    requires Halfway(prog, q, numArg, m, n) && n < |prog| && Jumps(prog, q, n, t) && m[n].sg != m[t].sg
    ensures var w := Relabel(m, |prog|, m[t].sg, m[n].sg, BranchDepth(prog[n].op, m[n].sp) - m[t].sp);
      StartAt(prog, q, numArg, w, n + 1)
  {
    hide Colours, DepthsFit, OneSegment, Connected, StartKept, SameCode, BranchDepth;
    StartKeptMore(prog, q, n);
    JumpsWithin(prog, q);
    ConnectedIff(prog, q, numArg, m, n, t);
    ConnectedIff(prog, q, numArg, m, n, n);
    forall u: nat | Jumps(prog, q, n, u) ensures u == t {
      OneJump(prog, q, n, t, u);
    }
    hide Jumps;
  }

  /** One element of pass 2. It fails only when no depths fit or a branch lands nowhere. */
  lemma ResolveHalfway(prog: seq<Elem>, q: seq<Entry>, numArg: int, m: seq<Entry>, n: nat)
    requires Halfway(prog, q, numArg, m, n) && n < |prog| && SlotMissed(prog, q)
    requires prog[n].Instr? ==> prog[n].op != RETURN
    ensures var r := Resolve(m, n, prog[n]);
      && (r.Ok? ==>
            Halfway(prog, q, numArg, r.value, n + 1) && (IsBranch(prog[n]) ==> exists t :: Jumps(prog, q, n, t)))
      && (r.Err? ==>
            (IsBranch(prog[n]) && forall t :: !Jumps(prog, q, n, t)) || forall ds :: !DepthsFit(prog, q, ds, |prog|))
  {
    hide Resolve, Colours, DepthsFit, Grouped, StartAt, BranchArg;
    if !IsBranch(prog[n]) {
      ResolvePlain(m, n, prog[n]);
      hide GoesTo;
      assert forall t :: !Jumps(prog, q, n, t);
      NothingJoined(prog, q, numArg, m, n);
    } else {
      hide Jumps, SameCode;
      Search(prog, q, m, n);
      if exists t :: Jumps(prog, q, n, t) {
        BranchHalfway(prog, q, numArg, m, n);
      }
    }
  }

  lemma BranchHalfway(prog: seq<Elem>, q: seq<Entry>, numArg: int, m: seq<Entry>, n: nat)
    requires Halfway(prog, q, numArg, m, n) && n < |prog| && IsBranch(prog[n])
    requires BranchArg(prog[n].args, m, |prog|, n).Ok? && Jumps(prog, q, n, JumpTarget(m, n, prog[n].args))
    ensures var r := Resolve(m, n, prog[n]);
      if r.Ok? then Halfway(prog, q, numArg, r.value, n + 1) else forall ds :: !DepthsFit(prog, q, ds, |prog|)
  {
    hide Resolve, Colours, DepthsFit, Grouped, StartAt, BranchArg, Jumps, SameCode, Relabel;
    var t := JumpTarget(m, n, prog[n].args);
    JumpsWithin(prog, q);
    Resolved(m, n, prog[n], t);
    if m[n].sg != m[t].sg {
      Merged(prog, q, numArg, m, n, t);
    } else if m[t].sp == BranchDepth(prog[n].op, m[n].sp) {
      forall u: nat | Jumps(prog, q, n, u) ensures u == t {
        OneJump(prog, q, n, t, u);
      }
      NothingJoined(prog, q, numArg, m, n);
    } else {
      Mismatch(prog, q, numArg, m, n, t);
    }
  }

  lemma ResolvePlain(m: seq<Entry>, n: nat, e: Elem)
    requires n + 2 <= |m| && !IsBranch(e) && (e.Instr? ==> e.op != RETURN)
    ensures Resolve(m, n, e) == Ok(m)
  {
  }

  lemma Resolved(m: seq<Entry>, n: nat, e: Elem, t: nat)
    requires n + 2 <= |m| && e.Instr? && OperandOf(e.op) == PcRelative
    requires BranchArg(e.args, m, |m| - 2, n).Ok? && t == JumpTarget(m, n, e.args) <= |m| - 2
    ensures Resolve(m, n, e) ==
      var d := BranchDepth(e.op, m[n].sp);
      if m[n].sg != m[t].sg then Ok(Relabel(m, |m| - 2, m[t].sg, m[n].sg, d - m[t].sp))
      else if d == m[t].sp then Ok(m) else Err(StackMismatch)
  {
  }

  lemma Mismatch(prog: seq<Elem>, q: seq<Entry>, numArg: int, m: seq<Entry>, n: nat, t: nat)
    requires Halfway(prog, q, numArg, m, n) && n < |prog| && t <= |prog| && Jumps(prog, q, n, t)
    requires m[n].sg == m[t].sg && m[t].sp != BranchDepth(prog[n].op, m[n].sp)
    ensures forall ds :: !DepthsFit(prog, q, ds, |prog|)
  {
    assert OneSegment(prog, q, m, n, n, t);
    forall ds ensures !DepthsFit(prog, q, ds, |prog|) {
      if DepthsFit(prog, q, ds, |prog|) {
        DepthShift(prog[n].op, m[n].sp, ds[n]);
      }
    }
  }

  lemma {:induction false} PassTwoHalfway(prog: seq<Elem>, q: seq<Entry>, numArg: int, m: seq<Entry>, n: nat)
    requires Halfway(prog, q, numArg, m, n) && n <= |prog| && SlotMissed(prog, q)
    requires forall k :: 0 <= k < |prog| && prog[k].Instr? ==> prog[k].op != RETURN
    requires forall k :: 0 <= k < n && IsBranch(prog[k]) ==> exists t :: Jumps(prog, q, k, t)
    ensures var r := PassTwo(prog, m, n);
      && (r.Ok? ==> Halfway(prog, q, numArg, r.value, |prog|) && BranchesLand(prog, q))
      && (r.Err? ==> !BranchesLand(prog, q) || forall ds :: !DepthsFit(prog, q, ds, |prog|))
    decreases |prog| - n
  {
    hide Halfway, Resolve, Jumps, DepthsFit, SlotMissed;
    if n < |prog| {
      assert |m| == |prog| + 2 by { HalfwayIs(prog, q, numArg, m, n); }
      ResolveHalfway(prog, q, numArg, m, n);
      var r := Resolve(m, n, prog[n]);
      if r.Ok? {
        PassTwoHalfway(prog, q, numArg, r.value, n + 1);
      }
    }
  }

  lemma HalfwayIs(prog: seq<Elem>, q: seq<Entry>, numArg: int, m: seq<Entry>, n: nat)
    requires Halfway(prog, q, numArg, m, n)
    ensures |m| == |prog| + 2
  {
  }

  // ------------------------------------------------- the whole analyser

  lemma {:induction false} FirstGrouped(prog: seq<Elem>, numArg: int, q: seq<Entry>, i: nat, j: nat)
    requires |q| == |prog| + 2 && FirstMap(prog, numArg, q[..|prog| + 1]) && i <= j <= |prog|
    ensures q[i].sg <= q[j].sg && (q[i].sg == q[j].sg ==> OneSegment(prog, q, q, 0, i, j))
    decreases j - i
  {
    if i < j {
      FirstGrouped(prog, numArg, q, i, j - 1);
      assert Next(prog, q[..|prog| + 1], j - 1, numArg);
    }
  }

  /** Pass 1 leaves a map that pass 2 can start with. */
  lemma StartsHalfway(prog: seq<Elem>, numArg: int, pm: seq<Entry>, junk: Entry)
    requires FirstMap(prog, numArg, pm)
    ensures Halfway(prog, pm + [junk], numArg, pm + [junk], 0)
    ensures forall k :: 0 <= k < |prog| && prog[k].Instr? ==> prog[k].op != RETURN
  {
    var q := pm + [junk];
    assert q[..|prog| + 1] == pm;
    forall k | 0 <= k < |prog| ensures FallsThrough(prog[k]) ==> q[k + 1].sg == q[k].sg {
      assert Next(prog, pm, k, numArg);
    }
    forall k | 0 <= k < |prog| && prog[k].Instr? ensures prog[k].op != RETURN {
      assert Next(prog, pm, k, numArg);
    }
    hide OneSegment, Next;
    forall i, j | 0 <= i <= |prog| && 0 <= j <= |prog| && q[i].sg == q[j].sg ensures OneSegment(prog, q, q, 0, i, j) {
      if i <= j {
        FirstGrouped(prog, numArg, q, i, j);
      } else {
        FirstGrouped(prog, numArg, q, j, i);
        Turned(prog, q, i, j);
      }
    }
  }

  lemma Turned(prog: seq<Elem>, q: seq<Entry>, i: nat, j: nat)
    requires |q| == |prog| + 2 && i <= |prog| && j <= |prog| && OneSegment(prog, q, q, 0, j, i)
    ensures OneSegment(prog, q, q, 0, i, j)
  {
  }

  /** Pass 2 succeeds exactly when every branch lands on an element and some depths fit. */
  lemma PassTwoIff(prog: seq<Elem>, numArg: int, pm: seq<Entry>, junk: Entry)
    requires FirstMap(prog, numArg, pm) && SlotMissed(prog, pm + [junk])
    ensures var q := pm + [junk];
      PassTwo(prog, q, 0).Ok? <==> BranchesLand(prog, q) && exists ds :: DepthsFit(prog, q, ds, |prog|)
  {
    var q := pm + [junk];
    StartsHalfway(prog, numArg, pm, junk);
    PassTwoHalfway(prog, q, numArg, q, 0);
    hide DepthsFit, BranchesLand, SlotMissed;
    var r := PassTwo(prog, q, 0);
    if r.Ok? {
      assert DepthsFit(prog, q, Depths(r.value, |prog|), |prog|);
    }
  }

  /** Depths for the whole program: from the arguments at the start to one value at the end, and
      never below the ground. */
  ghost predicate GoodDepths(prog: seq<Elem>, q: seq<Entry>, numArg: int, ds: seq<int>)
    requires |q| == |prog| + 2
  {
    && |ds| == |prog| + 1 && DepthsFit(prog, q, ds, |prog|) && ds[0] == numArg && ds[|prog|] == 1
    && forall k :: 1 <= k <= |prog| ==> ds[k] >= 0
  }

  ghost predicate Acceptable(prog: seq<Elem>, q: seq<Entry>, numArg: int)
    requires |q| == |prog| + 2
  {
    && BranchesLand(prog, q) && (exists ds :: GoodDepths(prog, q, numArg, ds))
    && (forall i: nat :: i <= |prog| ==> Connected(prog, q, |prog|, i)) && StartKept(prog, q, |prog|)
  }

  lemma {:induction false} PassThreeIff(pm: seq<Entry>, imax: int, inum: nat, req: int)
    requires imax < |pm|
    ensures PassThree(pm, imax, inum, req).Ok? <==> forall i :: inum <= i <= imax ==> pm[i].sg == 0 && pm[i].sp >= 0
    decreases imax + 1 - inum
  {
    if inum <= imax {
      PassThreeIff(pm, imax, inum + 1, if pm[inum].sp > req then pm[inum].sp + 1 else req);
    }
  }

  /** The map after pass 2 passes the complaints of pass 3 exactly when everything is connected
      with a start that was kept, and the depths are good. */
  lemma FinalIff(prog: seq<Elem>, q: seq<Entry>, numArg: int, m: seq<Entry>)
    requires Halfway(prog, q, numArg, m, |prog|) && BranchesLand(prog, q)
    ensures m[|prog|].sp == 1 && (forall i :: 1 <= i <= |prog| ==> m[i].sg == 0 && m[i].sp >= 0) <==>
      Acceptable(prog, q, numArg)
    ensures Acceptable(prog, q, numArg) ==>
      forall ds, i: nat :: GoodDepths(prog, q, numArg, ds) && i <= |prog| ==> ds[i] == m[i].sp
  {
    hide Colours, DepthsFit, StartKept, Connected, BranchesLand, OneSegment, SameCode;
    var n := |prog|;
    if m[n].sp == 1 && forall i :: 1 <= i <= n ==> m[i].sg == 0 && m[i].sp >= 0 {
      EmptyKept(prog, q);
      assert n > 0 ==> m[1].sg == 0;
      assert m[0].sg == 0 && m[0].sp == numArg;
      assert GoodDepths(prog, q, numArg, Depths(m, n));
      forall i: nat | i <= n ensures Connected(prog, q, n, i) {
        ConnectedIff(prog, q, numArg, m, n, i);
      }
    }
    if Acceptable(prog, q, numArg) {
      forall ds, i: nat | GoodDepths(prog, q, numArg, ds) && i <= n ensures ds[i] == m[i].sp && m[i].sg == 0 {
        ConnectedIff(prog, q, numArg, m, n, i);
        assert OneSegment(prog, q, m, n, i, 0);
        OffAlike(prog, q, m, n, i, 0, ds);
      }
      var ds :| GoodDepths(prog, q, numArg, ds);
      assert forall i: nat :: i <= n ==> ds[i] == m[i].sp && m[i].sg == 0;
    }
  }

  lemma EmptyKept(prog: seq<Elem>, q: seq<Entry>)
    requires |q| == |prog| + 2
    ensures |prog| == 0 ==> StartKept(prog, q, |prog|)
  {
  }

  lemma OffAlike(prog: seq<Elem>, q: seq<Entry>, m: seq<Entry>, n: nat, i: nat, j: nat, ds: seq<int>)
    requires |q| == |prog| + 2 == |m| && i <= |prog| && j <= |prog| && OneSegment(prog, q, m, n, i, j)
    requires DepthsFit(prog, q, ds, |prog|)
    ensures m[i].sp - ds[i] == m[j].sp - ds[j]
  {
  }

  /** The analyser accepts a program exactly when pass 1 has a map of it, every branch lands on
      an element, the elements can be given good depths, all of them are connected with the
      start, and no branch leads into what is connected with the start from what is not yet.
      The depths are then those it answers, and there are no others. */
  lemma AnalyseIff(prog: seq<Elem>, numArg: int, junk: Entry)
    requires forall pm :: FirstMap(prog, numArg, pm) ==> SlotMissed(prog, pm + [junk])
    ensures Analyse(prog, numArg, junk).Ok? <==>
      exists pm :: FirstMap(prog, numArg, pm) && Acceptable(prog, pm + [junk], numArg)
    ensures Analyse(prog, numArg, junk).Ok? ==>
      forall pm, ds, i: nat ::
        FirstMap(prog, numArg, pm) && GoodDepths(prog, pm + [junk], numArg, ds) && i <= |prog| ==>
        ds[i] == Analyse(prog, numArg, junk).value.pm[i].sp
  {
    PassOneIff(prog, numArg);
    hide Next, Acceptable, PassOne, PassTwo, PassThree, SlotMissed, DepthsFit;
    forall pm | FirstMap(prog, numArg, pm)
      ensures Analyse(prog, numArg, junk).Ok? <==> Acceptable(prog, pm + [junk], numArg)
      ensures Analyse(prog, numArg, junk).Ok? ==>
        forall ds, i: nat :: GoodDepths(prog, pm + [junk], numArg, ds) && i <= |prog| ==>
          ds[i] == Analyse(prog, numArg, junk).value.pm[i].sp
    {
      AnalyseFrom(prog, numArg, junk, pm);
    }
  }

  lemma AnalyseFrom(prog: seq<Elem>, numArg: int, junk: Entry, pm: seq<Entry>)
    requires FirstMap(prog, numArg, pm) && SlotMissed(prog, pm + [junk])
    ensures Analyse(prog, numArg, junk).Ok? <==> Acceptable(prog, pm + [junk], numArg)
    ensures Analyse(prog, numArg, junk).Ok? ==>
      forall ds, i: nat :: GoodDepths(prog, pm + [junk], numArg, ds) && i <= |prog| ==>
        ds[i] == Analyse(prog, numArg, junk).value.pm[i].sp
  {
    var q := pm + [junk];
    PassOneIff(prog, numArg);
    StartsHalfway(prog, numArg, pm, junk);
    hide FirstMap, PassOne, PassTwo, PassThree, Halfway, SlotMissed, BranchesLand, DepthsFit, Connected, StartKept;
    PassTwoHalfway(prog, q, numArg, q, 0);
    var r := PassTwo(prog, q, 0);
    if r.Ok? {
      HalfwayIs(prog, q, numArg, r.value, |prog|);
      PassThreeIff(r.value, |prog|, 1, numArg);
      FinalIff(prog, q, numArg, r.value);
    }
  }

  // ------------------------------------------------- loading

  /** The stack that pass 3 reserves is the number of arguments or some depth and one more. */
  lemma {:induction false} ReserveIs(pm: seq<Entry>, imax: int, inum: nat, req: int)
    requires imax < |pm| && PassThree(pm, imax, inum, req).Ok?
    ensures var r := PassThree(pm, imax, inum, req).value;
      && (r == req || exists i :: inum <= i <= imax && r == pm[i].sp + 1)
      && req <= r && forall i :: inum <= i <= imax ==> pm[i].sp <= r
    decreases imax + 1 - inum
  {
    if inum <= imax {
      ReserveIs(pm, imax, inum + 1, if pm[inum].sp > req then pm[inum].sp + 1 else req);
    }
  }

  /** Element k can be assembled: a constant is there, or the operand designates a value, and
      the last value itself only for PUSH@ and POP@. */
  ghost predicate OperandFine(prog: seq<Elem>, pm: seq<Entry>, numArg: int, k: nat)
    requires k < |prog| && |pm| == |prog| + 2
  {
    prog[k].Instr? ==>
      var op, args := prog[k].op, prog[k].args;
      match OperandOf(op)
      case Immediate => |args| >= 1 && args[0].Num?
      case StackRelative =>
        exists i :: Designates(args, pm, |prog|, numArg, k, i) && (i == pm[k].sp - 1 ==> op in {PUSH_r, POP_r})
      case _ => true
  }

  lemma GenCodeIff(prog: seq<Elem>, pm: seq<Entry>, numArg: int, k: nat)
    requires k < |prog| && |pm| == |prog| + 2 && Linked(prog, pm, k) && Joined(prog, pm, k)
    ensures GenCode(pm, k, prog[k], numArg).Ok? <==> OperandFine(prog, pm, numArg, k)
  {
    hide RelativeArg, BranchArg, Designates, JumpTarget;
    if IsRelative(prog[k]) {
      var args := prog[k].args;
      var arg := RelativeArg(args, pm, |prog|, k, numArg);
      if arg.Ok? {
        DesignatesIff(args, pm, |prog|, numArg, k, pm[k].sp - 1 - arg.value);
      }
      forall i ensures Designates(args, pm, |prog|, numArg, k, i) <==> arg == Ok(pm[k].sp - 1 - i) {
        DesignatesIff(args, pm, |prog|, numArg, k, i);
      }
    }
  }

  lemma {:induction false} AssembleIff(prog: seq<Elem>, pm: seq<Entry>, inum: nat, numArg: int)
    requires |pm| == |prog| + 2 && inum <= |prog|
    requires forall k :: 0 <= k < |prog| ==> Linked(prog, pm, k) && Joined(prog, pm, k)
    ensures Assemble(prog, pm, inum, numArg).Ok? <==>
      forall k :: inum <= k < |prog| ==> OperandFine(prog, pm, numArg, k)
    decreases |prog| - inum
  {
    hide GenCode, OperandFine, Linked, Joined;
    if inum < |prog| {
      GenCodeIff(prog, pm, numArg, inum);
      AssembleIff(prog, pm, inum + 1, numArg);
    }
  }

  /** A program is loaded exactly when the analyser accepts it, the stack holds it and all
      operands are fine. */
  lemma LoadIff(prog: seq<Elem>, numArg: int, junk: Entry)
    ensures Load(prog, numArg, junk).Ok? <==>
      var a := Analyse(prog, numArg, junk);
      a.Ok? && a.value.req <= DZ_STACK_SIZE && forall k :: 0 <= k < |prog| ==> OperandFine(prog, a.value.pm, numArg, k)
  {
    hide Analyse, Assemble, OperandFine, Linked, Joined;
    if Analyse(prog, numArg, junk).Ok? {
      AnalyseAccepts(prog, numArg, junk);
      AssembleIff(prog, Analyse(prog, numArg, junk).value.pm, 0, numArg);
    }
  }

  // ------------------------------------------------- a program refused

  /** A loop whose test comes last, with a way back to the start in between. */
  function BackLoop(): seq<Elem> {
    [Label("A"), Instr(BR_l, [Str("C")]), Label("B"), Instr(BR_l, [Str("A")]), Label("C"),
     Instr(DUP, []), Instr(Branch_l(GT), [Str("B")])]
  }

  function BackMap(): seq<Entry> {
    [Entry(0, 1, 0, None), Entry(0, 1, 0, Some("A")), Entry(1, -3, 1, None), Entry(1, -3, 1, Some("B")),
     Entry(2, -3, 2, None), Entry(2, -3, 2, Some("C")), Entry(3, -2, 2, None), Entry(4, -3, 2, None)]
  }

  lemma BackJumps(q: seq<Entry>, k: nat, t: nat)
    requires |q| == 9 && q[..8] == BackMap() && k < 7
    ensures Jumps(BackLoop(), q, k, t) <==> (k, t) in {(1, 4), (3, 0), (6, 2)}
  {
    BackEntries(q);
    hide BackMap;
    var prog := BackLoop();
    assert FirstLabel(q, 7, "C", 5) && FirstLabel(q, 7, "A", 1) && FirstLabel(q, 7, "B", 3);
    if IsBranch(prog[k]) {
      var u := if k == 1 then 4 else if k == 3 then 0 else 2;
      assert Jumps(prog, q, k, u);
      if Jumps(prog, q, k, t) {
        OneJump(prog, q, k, t, u);
      }
    }
  }

  lemma BackEntries(q: seq<Entry>)
    requires |q| == 9 && q[..8] == BackMap()
    ensures q[0] == Entry(0, 1, 0, None) && q[1] == Entry(0, 1, 0, Some("A"))
    ensures q[2] == Entry(1, -3, 1, None) && q[3] == Entry(1, -3, 1, Some("B"))
    ensures q[4] == Entry(2, -3, 2, None) && q[5] == Entry(2, -3, 2, Some("C"))
    ensures q[6] == Entry(3, -2, 2, None) && q[7] == Entry(4, -3, 2, None)
  {
    assert forall i :: 0 <= i < 8 ==> q[i] == q[..8][i];
  }

  /** Everything in it is connected with the start, and good depths exist, but the way back comes
      before the test has been connected with the start: the program is refused. */
  lemma ReachableRefused(junk: Entry)
    ensures var prog, q := BackLoop(), BackMap() + [junk];
      && FirstMap(prog, 1, BackMap()) && BranchesLand(prog, q) && GoodDepths(prog, q, 1, [1, 1, 1, 1, 1, 1, 2, 1])
      && (forall i: nat :: i <= |prog| ==> Connected(prog, q, |prog|, i))
      && Analyse(prog, 1, junk).Err?
  {
    var prog, q := BackLoop(), BackMap() + [junk];
    BackIsMap();
    BackEdges(q);
    BackDepths(q, [1, 1, 1, 1, 1, 1, 2, 1]);
    BackApart(q);
    forall i: nat, cs | i <= 7 && Colours(prog, q, cs, 7) ensures cs[i] == cs[0] {
      BackTogether(q, cs);
    }
    hide Jumps, FirstMap, Analyse, Next, Colours, DepthsFit, StartKept, BackLoop, BackMap;
    AnalyseFrom(prog, 1, junk, BackMap());
  }

  lemma BackEdges(q: seq<Entry>)
    requires |q| == 9 && q[..8] == BackMap()
    ensures forall k: nat, t: nat :: k < 7 ==> (Jumps(BackLoop(), q, k, t) <==> (k, t) in {(1, 4), (3, 0), (6, 2)})
    ensures forall k :: 0 <= k < 7 ==> (FallsThrough(BackLoop()[k]) <==> k != 1 && k != 3)
    ensures BranchesLand(BackLoop(), q) && SlotMissed(BackLoop(), q)
  {
    forall k: nat, t: nat | k < 7 ensures Jumps(BackLoop(), q, k, t) <==> (k, t) in {(1, 4), (3, 0), (6, 2)} {
      BackJumps(q, k, t);
    }
    forall k | 0 <= k < 7 && IsBranch(BackLoop()[k]) ensures exists t :: Jumps(BackLoop(), q, k, t) {
      assert k in {1, 3, 6};
      assert Jumps(BackLoop(), q, k, if k == 1 then 4 else if k == 3 then 0 else 2);
    }
  }

  lemma BackDepths(q: seq<Entry>, ds: seq<int>)
    requires |q| == 9 && q[..8] == BackMap() && ds == [1, 1, 1, 1, 1, 1, 2, 1]
    ensures GoodDepths(BackLoop(), q, 1, ds)
  {
    BackEdges(q);
    BackLinks(q, ds);
    hide Jumps, FallsThrough, BranchesLand, SlotMissed, BackMap;
    var prog := BackLoop();
    assert |prog| == 7 && MoveOf(prog[1].op) == Terminal == MoveOf(prog[3].op) && MoveOf(prog[6].op) == Pop1;
    hide BackLoop;
    forall k, t: nat | 0 <= k < 7 && Jumps(prog, q, k, t) ensures ds[t] == BranchDepth(prog[k].op, ds[k]) {
      assert (k, t) in {(1, 4), (3, 0), (6, 2)};
    }
  }

  lemma BackLinks(q: seq<Entry>, ds: seq<int>)
    requires |q| == 9 && q[..8] == BackMap() && ds == [1, 1, 1, 1, 1, 1, 2, 1]
    ensures forall k :: 0 <= k < 7 && k != 1 && k != 3 ==> ds[k + 1] - ds[k] == q[k + 1].sp - q[k].sp
  {
    BackEntries(q);
    hide BackMap;
    forall k | 0 <= k < 7 && k != 1 && k != 3 ensures ds[k + 1] - ds[k] == q[k + 1].sp - q[k].sp {
      assert k in {0, 2, 4, 5, 6};
    }
  }

  lemma BackTogether(q: seq<Entry>, cs: seq<int>)
    requires |q| == 9 && q[..8] == BackMap() && Colours(BackLoop(), q, cs, 7)
    ensures forall i :: 0 <= i <= 7 ==> cs[i] == cs[0]
  {
    BackEdges(q);
    hide Jumps, FallsThrough, BranchesLand, SlotMissed;
    var prog := BackLoop();
    assert Jumps(prog, q, 1, 4) && Jumps(prog, q, 3, 0) && Jumps(prog, q, 6, 2);
    hide BackLoop, BackMap;
    assert FallsThrough(prog[0]) && FallsThrough(prog[2]) && FallsThrough(prog[4]);
    assert FallsThrough(prog[5]) && FallsThrough(prog[6]);
    assert cs[0 + 1] == cs[0] && cs[2 + 1] == cs[2] && cs[4 + 1] == cs[4] && cs[5 + 1] == cs[5] && cs[6 + 1] == cs[6];
  }

  /** The way back, element 3, is not connected with the start by what comes before it. */
  lemma BackApart(q: seq<Entry>)
    requires |q| == 9 && q[..8] == BackMap()
    ensures !StartKept(BackLoop(), q, 7)
  {
    BackEdges(q);
    hide Jumps, FallsThrough, BranchesLand, SlotMissed;
    var prog, cs := BackLoop(), [0, 0, 1, 1, 0, 0, 0, 0];
    assert |prog| == 7;
    hide BackLoop, BackMap;
    forall k | 0 <= k < 7 && FallsThrough(prog[k]) ensures cs[k + 1] == cs[k] {
      assert k in {0, 2, 4, 5, 6};
    }
    assert Colours(prog, q, cs, 3) && cs[3] != cs[0];
    assert !Connected(prog, q, 3, 3) && Connected(prog, q, 3, 0) && Jumps(prog, q, 3, 0);
  }

  lemma BackIsMap()
    ensures FirstMap(BackLoop(), 1, BackMap())
  {
    var prog, pm := BackLoop(), BackMap();
    forall k | 0 <= k < |prog| ensures Next(prog, pm, k, 1) {
      assert k in {0, 1, 2, 3, 4, 5, 6};
    }
  }
}
