/** Every run of an accepted program follows the map the analyser computed. */
module DzPaths {
  import opened Basics
  import opened DzProgram
  import opened DzAnalysis
  import opened DzMachine
  import opened DzSoundness
  import opened DzRuns

  /** Code addresses and depths of a run, whatever its branches and loops decide. */
  ghost predicate Path(dz: Dz, p: seq<(int, int)>) {
    && p != [] && p[0] == (0, dz.numArg)
    && forall i :: 0 <= i < |p| - 1 ==> Follows(dz.code, p[i], p[i + 1])
  }

  ghost predicate Follows(code: seq<Cell>, s: (int, int), s': (int, int)) {
    && 0 <= s.0 < |code| && code[s.0].Code?
    && s' in Successors(code[s.0].op, code[s.0].arg, s.0, s.1)
  }

  /** The map has this address at this depth, and a stack relative operand there lies
      below the top. */
  ghost predicate OnMap(prog: seq<Elem>, dz: Dz, s: (int, int))
    requires Loaded(prog, dz)
  {
    && Lands(dz.pm, |prog|, s.0, s.1)
    && 0 <= s.0 < |dz.code| && dz.code[s.0].Code?
    && (OperandOf(dz.code[s.0].op) == StackRelative ==> 0 <= s.1 - 1 + dz.code[s.0].arg < s.1 - 1)
  }

  ghost predicate Stands(prog: seq<Elem>, dz: Dz, s: (int, int), k: nat)
    requires Loaded(prog, dz)
  {
    k < |prog| && prog[k].Instr? && dz.pm[k].pc == s.0 && dz.pm[k].sp == s.1
  }

  /** Every element that some run reaches has an operand below the top that POP@ and
      pass 1 read alike, and a jump target that is a real entry. */
  ghost predicate ReachedGood(prog: seq<Elem>, dz: Dz) {
    && Loaded(prog, dz)
    && forall p, k :: Path(dz, p) && Stands(prog, dz, p[|p| - 1], k) ==>
         OperandGood(prog, dz, k) && TargetGood(prog, dz, k)
  }

  /** For any accepted program, symbolic operands and jumps onto the unwritten slot
      included: all runs follow the map if and only if every element that some run
      reaches has a good operand and a good target. */
  lemma RunsFollowIff(prog: seq<Elem>, dz: Dz)
    requires Loaded(prog, dz)
    ensures (forall p :: Path(dz, p) ==> OnMap(prog, dz, p[|p| - 1])) <==> ReachedGood(prog, dz)
  {
    hide Loaded, OnMap, OperandGood, TargetGood;
    if forall p :: Path(dz, p) ==> OnMap(prog, dz, p[|p| - 1]) {
      forall p, k | Path(dz, p) && Stands(prog, dz, p[|p| - 1], k)
        ensures OperandGood(prog, dz, k) && TargetGood(prog, dz, k)
      {
        forall s' | Follows(dz.code, p[|p| - 1], s') ensures OnMap(prog, dz, s') {
          PathMore(dz, p, s');
          assert (p + [s'])[|p|] == s';
        }
        ReachedIsGood(prog, dz, p[|p| - 1], k);
      }
    }
    if ReachedGood(prog, dz) {
      forall p | Path(dz, p) ensures OnMap(prog, dz, p[|p| - 1]) {
        PathOnMap(prog, dz, p);
      }
    }
  }

  lemma PathMore(dz: Dz, p: seq<(int, int)>, s: (int, int))
    requires Path(dz, p) && Follows(dz.code, p[|p| - 1], s)
    ensures Path(dz, p + [s])
  {
  }

  lemma ReachedIsGood(prog: seq<Elem>, dz: Dz, s: (int, int), k: nat)
    requires Loaded(prog, dz) && Stands(prog, dz, s, k) && OnMap(prog, dz, s)
    requires forall s' :: Follows(dz.code, s, s') ==> OnMap(prog, dz, s')
    ensures OperandGood(prog, dz, k) && TargetGood(prog, dz, k)
  {
    hide LaidOut, Linked, Joined, OperandGood, TargetGood, Successors, Lands;
    KeepsIff(prog, dz, k);
    var op, arg := dz.code[s.0].op, dz.code[s.0].arg;
    forall s' | s' in Successors(op, arg, s.0, s.1) ensures Lands(dz.pm, |prog|, s'.0, s'.1) {
      assert Follows(dz.code, s, s');
    }
    KeepsWhen(prog, dz, k);
  }

  lemma KeepsWhen(prog: seq<Elem>, dz: Dz, k: nat)
    requires Loaded(prog, dz) && k < |prog| && prog[k].Instr?
    requires OnMap(prog, dz, (dz.pm[k].pc, dz.pm[k].sp))
    requires var pc, depth := dz.pm[k].pc, dz.pm[k].sp;
             forall s :: s in Successors(dz.code[pc].op, dz.code[pc].arg, pc, depth) ==> Lands(dz.pm, |prog|, s.0, s.1)
    ensures Keeps(prog, dz, k)
  {
    hide Loaded, Lands, Successors;
  }

  /** A state the map has, standing at an element that is good or at the end. */
  lemma LandedOnMap(prog: seq<Elem>, dz: Dz, s: (int, int))
    requires Loaded(prog, dz) && Lands(dz.pm, |prog|, s.0, s.1)
    requires forall k :: Stands(prog, dz, s, k) ==> OperandGood(prog, dz, k) && TargetGood(prog, dz, k)
    ensures OnMap(prog, dz, s)
    ensures forall s' :: Follows(dz.code, s, s') ==> Lands(dz.pm, |prog|, s'.0, s'.1)
  {
    var j: nat :| j <= |prog| && dz.pm[j].pc == s.0 && dz.pm[j].sp == s.1;
    var k := LandsOnInstruction(prog, dz, j);
    if k == |prog| {
      assert LaidOut(prog, dz.pm, dz.numArg, dz.code, 0, k);
    } else {
      hide Loaded, OperandGood, TargetGood, Successors;
      assert Stands(prog, dz, s, k);
      KeepsIff(prog, dz, k);
    }
  }

  lemma {:induction false} PathOnMap(prog: seq<Elem>, dz: Dz, p: seq<(int, int)>)
    requires ReachedGood(prog, dz) && Path(dz, p)
    ensures OnMap(prog, dz, p[|p| - 1])
    ensures forall s' :: Follows(dz.code, p[|p| - 1], s') ==> Lands(dz.pm, |prog|, s'.0, s'.1)
    decreases |p|
  {
    StartLands(prog, dz);
    hide Loaded, OperandGood, TargetGood, OnMap, Lands;
    if |p| > 1 {
      var q := p[..|p| - 1];
      assert forall i :: 0 <= i < |q| ==> q[i] == p[i];
      PathOnMap(prog, dz, q);
      assert Follows(dz.code, p[|p| - 2], p[|p| - 2 + 1]);
    }
    LandedOnMap(prog, dz, p[|p| - 1]);
  }

  lemma StartLands(prog: seq<Elem>, dz: Dz)
    requires Loaded(prog, dz)
    ensures Lands(dz.pm, |prog|, 0, dz.numArg)
  {
    assert dz.pm[0].pc == 0 && dz.pm[0].sp == dz.numArg;
  }

  // ------------------------------------------------------- machine runs

  /** The element where a path has led, or the end. */
  lemma PathKeeps(prog: seq<Elem>, dz: Dz, p: seq<(int, int)>) returns (k: nat)
    requires ReachedGood(prog, dz) && Path(dz, p)
    ensures k <= |prog| && dz.pm[k].pc == p[|p| - 1].0 && dz.pm[k].sp == p[|p| - 1].1
    ensures k < |prog| ==> Stands(prog, dz, p[|p| - 1], k) && Keeps(prog, dz, k)
  {
    hide OnMap, OperandGood, TargetGood;
    var s := p[|p| - 1];
    PathOnMap(prog, dz, p);
    k := Landing(prog, dz, s);
    if k < |prog| {
      KeepsIff(prog, dz, k);
    }
  }

  lemma Landing(prog: seq<Elem>, dz: Dz, s: (int, int)) returns (k: nat)
    requires Loaded(prog, dz) && OnMap(prog, dz, s)
    ensures k <= |prog| && dz.pm[k].pc == s.0 && dz.pm[k].sp == s.1 && (k < |prog| ==> Stands(prog, dz, s, k))
  {
    var j: nat :| j <= |prog| && dz.pm[j].pc == s.0 && dz.pm[j].sp == s.1;
    k := LandsOnInstruction(prog, dz, j);
  }

  /** The machine stands where path p has led. */
  ghost predicate OnPath<V>(dz: Dz, st: State<V>, p: seq<(int, int)>) {
    Path(dz, p) && p[|p| - 1] == (st.pc, st.sp + 1) && |st.stack| == DZ_STACK_SIZE
  }

  lemma PathKeepsAt<V>(prog: seq<Elem>, dz: Dz, st: State<V>, p: seq<(int, int)>) returns (k: nat)
    requires ReachedGood(prog, dz) && OnPath(dz, st, p)
    ensures AtEntry(prog, dz, st, k) && (k < |prog| ==> Keeps(prog, dz, k))
  {
    hide OperandGood, TargetGood, Keeps;
    k := PathKeeps(prog, dz, p);
  }

  function Here<V>(st: State<V>): (int, int) { (st.pc, st.sp + 1) }

  lemma StepOnPath<V>(dz: Dz, alu: Alu<V>, rnd: V, st: State<V>, p: seq<(int, int)>)
    requires OnPath(dz, st, p) && Step(dz.code, alu, rnd, st).Running?
    ensures var next := Step(dz.code, alu, rnd, st).st; OnPath(dz, next, p + [Here(next)])
  {
    hide Step, Successors;
    StepInCode(dz.code, alu, rnd, st);
    StepFollows(dz.code, alu, rnd, st);
    PathMore(dz, p, Here(Step(dz.code, alu, rnd, st).st));
  }

  lemma StartOnPath<V>(dz: Dz, top: V, stack: seq<V>)
    requires |stack| == DZ_STACK_SIZE
    ensures OnPath(dz, Start(dz, top, stack), [(0, dz.numArg)])
  {
  }

  lemma StepInCode<V>(code: seq<Cell>, alu: Alu<V>, rnd: V, st: State<V>)
    requires Step(code, alu, rnd, st).Running?
    ensures 0 <= st.pc < |code| && code[st.pc].Code?
  {
  }

  /** Every run of the machine follows such a path. */
  lemma {:induction false} RunIsPath<V>(dz: Dz, alu: Alu<V>, rnd: seq<V>, st: State<V>, p: seq<(int, int)>)
    returns (q: seq<(int, int)>)
    requires OnPath(dz, st, p) && Run(dz.code, alu, rnd, st).Running?
    ensures p <= q && OnPath(dz, Run(dz.code, alu, rnd, st).st, q)
    decreases |rnd|
  {
    hide Step, OnPath;
    q := p;
    if rnd != [] {
      StepOnPath(dz, alu, rnd[0], st, p);
      var next := Step(dz.code, alu, rnd[0], st).st;
      q := RunIsPath(dz, alu, rnd[1..], next, p + [Here(next)]);
    }
  }

  /** Some instruction a path leads to needs the cell below the stack. */
  ghost predicate TouchesGround(code: seq<Cell>, s: (int, int)) {
    0 <= s.0 < |code| && code[s.0].Code? && -1 in Touched(code[s.0].op, code[s.0].arg, s.1)
  }

  lemma FaultTouches<V>(code: seq<Cell>, alu: Alu<V>, st: State<V>)
    requires 0 <= st.pc < |code| && code[st.pc].Code? && HitsGround(code, alu, st)
    ensures TouchesGround(code, Here(st))
  {
  }

  /** Over every run each reached state is legal, and a run that leaves the stack does
      so on the cell below it, where a path needs that cell. */
  lemma {:induction false} RunsAreLegal<V>(prog: seq<Elem>, dz: Dz, alu: Alu<V>, rnd: seq<V>, st: State<V>,
                                           p: seq<(int, int)>)
    requires ReachedGood(prog, dz) && dz.numArg >= 0 && OnPath(dz, st, p)
    ensures var out := Run(dz.code, alu, rnd, st);
            && (out.Running? ==> Legal(prog, dz, out.st))
            && (out.Fault? ==> out.what == StackCell(-1))
            && (out.Fault? ==> exists q :: PathTouches(dz, q))
    decreases |rnd|
  {
    hide Step, Loaded, OperandGood, TargetGood, Path, TouchesGround, Legal, HitsGround, AtEntry;
    var k := PathKeepsAt(prog, dz, st, p);
    EntryIsLegal(prog, dz, st, k);
    LegalPc(prog, dz, st);
    if rnd != [] {
      if AtEntry(prog, dz, st, |prog|) {
        ReturnsAtEnd(prog, dz, alu, rnd[0], st, st);
      } else {
        EntryBound(prog, dz, st, k);
        FaultsIff(prog, dz, alu, rnd[0], st, k);
        var out := Step(dz.code, alu, rnd[0], st);
        if out.Running? {
          StepOnPath(dz, alu, rnd[0], st, p);
          RunsAreLegal(prog, dz, alu, rnd[1..], out.st, p + [Here(out.st)]);
        } else if out.Fault? {
          FaultTouches(dz.code, alu, st);
          assert PathTouches(dz, p);
        }
      }
    }
  }

  lemma EntryBound<V>(prog: seq<Elem>, dz: Dz, st: State<V>, k: nat)
    requires Loaded(prog, dz) && AtEntry(prog, dz, st, k) && !AtEntry(prog, dz, st, |prog|)
    ensures k < |prog|
  {
  }

  lemma LegalPc<V>(prog: seq<Elem>, dz: Dz, st: State<V>)
    requires Loaded(prog, dz) && Legal(prog, dz, st)
    ensures 0 <= st.pc < |dz.code| && dz.code[st.pc].Code?
  {
  }

  /** A run leaves the stack exactly when one of its rounds hits the ground. */
  lemma {:induction false} FaultsExactlyAtGround<V>(prog: seq<Elem>, dz: Dz, alu: Alu<V>, rnd: seq<V>, st: State<V>,
                                                    p: seq<(int, int)>)
    requires ReachedGood(prog, dz) && dz.numArg >= 0 && OnPath(dz, st, p)
    ensures Run(dz.code, alu, rnd, st).Fault? <==>
            exists n :: 0 <= n < |rnd| && GroundRound(dz.code, alu, rnd[..n], st)
    decreases |rnd|
  {
    hide Step, Loaded, OperandGood, TargetGood, OnPath, HitsGround, Legal, AtEntry;
    var k := PathKeepsAt(prog, dz, st, p);
    EntryIsLegal(prog, dz, st, k);
    LegalPc(prog, dz, st);
    if rnd == [] {
    } else if AtEntry(prog, dz, st, |prog|) {
      ReturnsAtOnce(prog, dz, alu, rnd, st);
    } else {
      EntryBound(prog, dz, st, k);
      FaultsIff(prog, dz, alu, rnd[0], st, k);
      assert Run(dz.code, alu, rnd[..0], st) == Running(st);
      var out := Step(dz.code, alu, rnd[0], st);
      if out.Running? {
        StepOnPath(dz, alu, rnd[0], st, p);
        FaultsExactlyAtGround(prog, dz, alu, rnd[1..], out.st, p + [Here(out.st)]);
      }
      forall n | 0 < n < |rnd|
        ensures GroundRound(dz.code, alu, rnd[..n], st) <==>
                out.Running? && GroundRound(dz.code, alu, rnd[1..][..n - 1], out.st)
      {
        assert rnd[..n][1..] == rnd[1..][..n - 1];
      }
      if Run(dz.code, alu, rnd, st).Fault? && out.Running? {
        var n :| 0 <= n < |rnd[1..]| && GroundRound(dz.code, alu, rnd[1..][..n], out.st);
        assert GroundRound(dz.code, alu, rnd[..n + 1], st);
      }
    }
  }

  /** After the rounds of rnd the machine still runs, and its next one hits the ground. */
  ghost predicate GroundRound<V>(code: seq<Cell>, alu: Alu<V>, rnd: seq<V>, st: State<V>) {
    var out := Run(code, alu, rnd, st);
    out.Running? && 0 <= out.st.pc < |code| && code[out.st.pc].Code? && HitsGround(code, alu, out.st)
  }

  lemma ReturnsAtOnce<V>(prog: seq<Elem>, dz: Dz, alu: Alu<V>, rnd: seq<V>, st: State<V>)
    requires Loaded(prog, dz) && AtEntry(prog, dz, st, |prog|) && rnd != []
    ensures Run(dz.code, alu, rnd, st).Returned?
    ensures forall n :: 0 <= n < |rnd| ==> !GroundRound(dz.code, alu, rnd[..n], st)
  {
    assert LaidOut(prog, dz.pm, dz.numArg, dz.code, 0, |prog|);
    forall n | 0 <= n < |rnd| ensures !GroundRound(dz.code, alu, rnd[..n], st) {
      if n > 0 {
        assert rnd[..n] != [];
      }
    }
  }

  /** A run neither reads nor writes the stack above what its program reserved:
      other cells there leave the outcome as it is, and keep their contents. */
  lemma {:induction false} StaysReserved<V>(prog: seq<Elem>, dz: Dz, alu: Alu<V>, rnd: seq<V>,
                                            st: State<V>, su: State<V>, p: seq<(int, int)>)
    requires ReachedGood(prog, dz) && dz.numArg >= 0 && OnPath(dz, st, p)
    requires SameBelow(st, su, dz.reqStack - 1)
    ensures var out := Run(dz.code, alu, rnd, st);
            && SameOutcome(out, Run(dz.code, alu, rnd, su), dz.reqStack - 1)
            && (out.Running? ==> SameFrom(out.st, st, dz.reqStack - 1))
    decreases |rnd|
  {
    hide Loaded, Keeps, Step, Touched, OnPath, AtEntry, OperandGood, TargetGood;
    if rnd != [] {
      var k := PathKeepsAt(prog, dz, st, p);
      if AtEntry(prog, dz, st, |prog|) {
        ReturnsAtEnd(prog, dz, alu, rnd[0], st, su);
      } else {
        EntryBound(prog, dz, st, k);
        EntryTouches(prog, dz, st, k);
        StepTouches(dz.code, alu, rnd[0], st, su, dz.reqStack - 1);
        var out := Step(dz.code, alu, rnd[0], st);
        if out.Running? {
          StepOnPath(dz, alu, rnd[0], st, p);
          StaysReserved(prog, dz, alu, rnd[1..], out.st, Step(dz.code, alu, rnd[0], su).st, p + [Here(out.st)]);
        }
      }
    }
  }

  lemma EntryTouches<V>(prog: seq<Elem>, dz: Dz, st: State<V>, k: nat)
    requires Loaded(prog, dz) && dz.numArg >= 0 && k < |prog| && AtEntry(prog, dz, st, k) && Keeps(prog, dz, k)
    ensures 0 <= st.pc < |dz.code| && dz.code[st.pc].Code?
    ensures TouchesBelow(dz.code[st.pc].op, dz.code[st.pc].arg, st.sp + 1, dz.reqStack - 1)
  {
    TouchedReserved(prog, dz, k);
  }

  // ------------------------------------------------------- the ground

  predicate AtGround(s: (int, int)) { s.1 == 0 }

  /** A next state across the border of depth 0. */
  ghost predicate Crosses(code: seq<Cell>, s: (int, int), s': (int, int)) {
    Follows(code, s, s') && AtGround(s) != AtGround(s')
  }

  /** Where the stack is as deep as the instruction needs, the cell below dz_stack[0] is
      touched exactly by those that can enter or leave depth 0; next is such a state. */
  lemma TouchCrosses(op: Op, arg: int, pc: int, d: int, next: (int, int))
    requires d >= 0 && (MoveOf(op) == Pop1 ==> d >= 1) && (MoveOf(op) == Loop ==> d >= 3)
    requires OperandOf(op) == StackRelative ==> 0 <= d - 1 + arg < d - 1
    requires next == match MoveOf(op)
                     case Push1 => (if op.PUSH_i? then pc + 2 else pc + 1, d + 1)
                     case Pop1 => (pc + 1, d - 1)
                     case _ => (pc + 1, d - 3)
    ensures -1 in Touched(op, arg, d) ==> next in Successors(op, arg, pc, d) && (d == 0) != (next.1 == 0)
    ensures -1 !in Touched(op, arg, d) ==>
      forall s' :: s' in Successors(op, arg, pc, d) ==> (d == 0) == (s'.1 == 0)
  {
  }

  lemma GroundStep(prog: seq<Elem>, dz: Dz, s: (int, int), k: nat)
    requires Loaded(prog, dz) && dz.numArg >= 0 && Stands(prog, dz, s, k) && Keeps(prog, dz, k)
    ensures TouchesGround(dz.code, s) <==> exists s' :: Crosses(dz.code, s, s')
  {
    hide Lands, Touched, Successors, MoveOf, OperandOf;
    OperandCells(prog, dz, k);
    DepthsAround(prog, dz, k);
    var op, arg, pc, d := dz.code[s.0].op, dz.code[s.0].arg, s.0, s.1;
    var next := match MoveOf(op)
                case Push1 => (if op.PUSH_i? then pc + 2 else pc + 1, d + 1)
                case Pop1 => (pc + 1, d - 1)
                case _ => (pc + 1, d - 3);
    TouchCrosses(op, arg, pc, d, next);
    if TouchesGround(dz.code, s) {
      assert Crosses(dz.code, s, next);
    }
  }

  lemma EndStep(prog: seq<Elem>, dz: Dz, s: (int, int))
    requires Loaded(prog, dz) && dz.pm[|prog|].pc == s.0
    ensures !TouchesGround(dz.code, s) && forall s' :: !Crosses(dz.code, s, s')
  {
    assert LaidOut(prog, dz.pm, dz.numArg, dz.code, 0, |prog|);
  }

  lemma PathGround(prog: seq<Elem>, dz: Dz, p: seq<(int, int)>, s: (int, int))
    requires ReachedGood(prog, dz) && dz.numArg >= 0 && Path(dz, p) && s == p[|p| - 1]
    ensures TouchesGround(dz.code, s) <==> exists s' :: Crosses(dz.code, s, s')
  {
    hide TouchesGround, Crosses, OperandGood, TargetGood, Keeps, LaidOut, Linked, Joined;
    var k := PathKeeps(prog, dz, p);
    if k < |prog| {
      GroundStep(prog, dz, s, k);
    } else {
      EndStep(prog, dz, s);
    }
  }

  /** A path at an instruction that can touch the cell below the stack. */
  ghost predicate PathTouches(dz: Dz, p: seq<(int, int)>) { Path(dz, p) && TouchesGround(dz.code, p[|p| - 1]) }

  /** A path whose last step enters or leaves depth 0. */
  ghost predicate PathCrosses(dz: Dz, p: seq<(int, int)>) {
    Path(dz, p) && |p| > 1 && AtGround(p[|p| - 2]) != AtGround(p[|p| - 1])
  }

  ghost predicate PathAtGround(dz: Dz, p: seq<(int, int)>) { Path(dz, p) && AtGround(p[|p| - 1]) }

  lemma PathLess(dz: Dz, p: seq<(int, int)>)
    requires Path(dz, p) && |p| > 1
    ensures Path(dz, p[..|p| - 1]) && Follows(dz.code, p[|p| - 2], p[|p| - 1])
  {
    assert forall i :: 0 <= i < |p| - 1 ==> p[..|p| - 1][i] == p[i];
    assert Follows(dz.code, p[|p| - 2], p[|p| - 2 + 1]);
  }

  /** When runs follow the map, the cell below the stack can be touched exactly when
      some run enters or leaves depth 0. */
  lemma GroundIff(prog: seq<Elem>, dz: Dz)
    requires ReachedGood(prog, dz) && dz.numArg >= 0
    ensures (exists p :: PathTouches(dz, p)) <==> (exists p :: PathCrosses(dz, p))
  {
    if p :| PathTouches(dz, p) {
      TouchThenCross(prog, dz, p);
    }
    if p :| PathCrosses(dz, p) {
      CrossAfterTouch(prog, dz, p);
    }
  }

  lemma TouchThenCross(prog: seq<Elem>, dz: Dz, p: seq<(int, int)>)
    requires ReachedGood(prog, dz) && dz.numArg >= 0 && PathTouches(dz, p)
    ensures exists s' :: PathCrosses(dz, p + [s'])
  {
    hide TouchesGround, Follows, ReachedGood;
    PathGround(prog, dz, p, p[|p| - 1]);
    var s' :| Crosses(dz.code, p[|p| - 1], s');
    PathMore(dz, p, s');
    var q := p + [s'];
    assert q[|q| - 2] == p[|p| - 1] && q[|q| - 1] == s';
    assert PathCrosses(dz, p + [s']);
  }

  lemma CrossAfterTouch(prog: seq<Elem>, dz: Dz, p: seq<(int, int)>)
    requires ReachedGood(prog, dz) && dz.numArg >= 0 && PathCrosses(dz, p)
    ensures PathTouches(dz, p[..|p| - 1])
  {
    hide TouchesGround, Follows, ReachedGood;
    PathLess(dz, p);
    assert Crosses(dz.code, p[|p| - 2], p[|p| - 1]);
    PathGround(prog, dz, p[..|p| - 1], p[|p| - 2]);
  }

  /** With arguments, exactly when some run reaches depth 0. */
  lemma GroundIffDepth(prog: seq<Elem>, dz: Dz)
    requires ReachedGood(prog, dz) && dz.numArg >= 1
    ensures (exists p :: PathTouches(dz, p)) <==> (exists p :: PathAtGround(dz, p))
  {
    GroundIff(prog, dz);
    if p :| PathCrosses(dz, p) {
      PathLess(dz, p);
      assert PathAtGround(dz, p) || PathAtGround(dz, p[..|p| - 1]);
    }
    if p :| PathAtGround(dz, p) {
      FirstGround(dz, p);
    }
  }

  /** A path from above that reaches depth 0 enters it somewhere. */
  lemma {:induction false} FirstGround(dz: Dz, p: seq<(int, int)>)
    requires dz.numArg >= 1 && PathAtGround(dz, p)
    ensures exists q :: PathCrosses(dz, q)
    decreases |p|
  {
    PathLess(dz, p);
    if AtGround(p[|p| - 2]) {
      FirstGround(dz, p[..|p| - 1]);
    } else {
      assert PathCrosses(dz, p);
    }
  }
}
