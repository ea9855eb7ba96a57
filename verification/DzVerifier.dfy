/** The claim the analyser makes for itself (src/dz.c:553-558), and where it fails. */
module DzVerifier {
  import opened Basics
  import opened DzProgram
  import opened DzAnalysis
  import opened DzMachine
  import opened DzSoundness
  import opened DzRuns
  import opened DzPaths

  // ------------------------------------------------ numeric programs

  /** Programs the analyser checks in full: stack relative operands are numbers. */
  predicate NumericProgram(prog: seq<Elem>) {
    forall k :: 0 <= k < |prog| && IsRelative(prog[k]) ==> NumericOperand(prog[k])
  }

  ghost predicate HasEntry(pm: seq<Entry>, imax: int, d: int)
    requires imax < |pm|
  {
    exists i :: 0 <= i <= imax && pm[i].pc == d
  }

  /** The address every numeric jump goes to is the address of some element. */
  ghost predicate JumpsReal(prog: seq<Elem>, dz: Dz)
    requires |dz.pm| == |prog| + 2
  {
    forall k :: 0 <= k < |prog| && IsBranch(prog[k]) && NumericOperand(prog[k]) ==>
      HasEntry(dz.pm, |prog|, dz.pm[k].pc + 1 + prog[k].args[0].r.Floor)
  }

  /** A jump search stops at a real entry exactly when there is one to stop at; for a
      label there always is. */
  lemma TargetIff(prog: seq<Elem>, dz: Dz, k: nat)
    requires Loaded(prog, dz) && k < |prog| && IsBranch(prog[k])
    ensures TargetGood(prog, dz, k) <==>
      (NumericOperand(prog[k]) ==> HasEntry(dz.pm, |prog|, dz.pm[k].pc + 1 + prog[k].args[0].r.Floor))
  {
    assert Joined(prog, dz.pm, k);
    if prog[k].args[0].Str? {
      LabelIndexFound(dz.pm, |prog|, prog[k].args[0].s, 0);
    }
  }

  lemma MapIsKept(prog: seq<Elem>, numArg: int, junk: Entry)
    requires Load(prog, numArg, junk).Ok?
    requires NumericProgram(prog) && JumpsReal(prog, Load(prog, numArg, junk).value)
    ensures var dz := Load(prog, numArg, junk).value;
            Loaded(prog, dz) && forall k :: 0 <= k < |prog| ==> Keeps(prog, dz, k)
  {
    LoadGives(prog, numArg, junk);
    var dz := Load(prog, numArg, junk).value;
    forall k | 0 <= k < |prog| ensures Keeps(prog, dz, k) {
      assert LaidOut(prog, dz.pm, dz.numArg, dz.code, 0, k);
      assert Linked(prog, dz.pm, k);
      if IsBranch(prog[k]) {
        TargetIff(prog, dz, k);
      }
      KeepsIff(prog, dz, k);
    }
  }

  /** Numeric operands and jumps to elements are enough for every run to follow the map. */
  lemma NumericFollows(prog: seq<Elem>, numArg: int, junk: Entry)
    requires Load(prog, numArg, junk).Ok?
    requires NumericProgram(prog) && JumpsReal(prog, Load(prog, numArg, junk).value)
    ensures ReachedGood(prog, Load(prog, numArg, junk).value)
  {
    MapIsKept(prog, numArg, junk);
    var dz := Load(prog, numArg, junk).value;
    forall p, k | Path(dz, p) && Stands(prog, dz, p[|p| - 1], k)
      ensures OperandGood(prog, dz, k) && TargetGood(prog, dz, k)
    {
      assert Keeps(prog, dz, k);
      KeepsIff(prog, dz, k);
    }
  }

  lemma JunkStays(prog: seq<Elem>, numArg: int, junk: Entry)
    requires Load(prog, numArg, junk).Ok?
    ensures Load(prog, numArg, junk).value.pm[|prog| + 1] == junk
  {
    PassOneLength(prog, [FirstEntry(numArg)], numArg);
    PassTwoCode(prog, PassOne(prog, [FirstEntry(numArg)], numArg).value + [junk], 0);
  }

  // ---------------------------------------------- negative argument counts

  /** Pass 1 never lowers a segment number. */
  lemma {:induction false} SegmentsRise(prog: seq<Elem>, pm: seq<Entry>, numArg: int, low: int)
    requires 1 < |pm| <= |prog| + 1 && forall i :: 1 <= i < |pm| ==> pm[i].sg >= low
    ensures var r := PassOne(prog, pm, numArg);
            r.Ok? ==>
              && |r.value| == |prog| + 1 && r.value[..|pm|] == pm
              && forall i :: 1 <= i <= |prog| ==> r.value[i].sg >= low
    decreases |prog| + 1 - |pm|
  {
    PassOneLength(prog, pm, numArg);
    if |pm| < |prog| + 1 {
      var e := Advance(pm, prog[|pm| - 1], numArg);
      if e.Ok? {
        assert e.value.sg >= pm[|pm| - 1].sg;
        SegmentsRise(prog, pm + [e.value], numArg, low);
      }
    }
  }

  /** Entries from 1 on that lie outside segment 0 stay outside it, as long as
      element 0 joins nothing. */
  lemma {:induction false} StaysOutside(prog: seq<Elem>, pm: seq<Entry>, inum: nat)
    requires |pm| == |prog| + 2 && 1 <= inum <= |prog| && forall i :: 1 <= i <= |prog| ==> pm[i].sg != 0
    ensures var r := PassTwo(prog, pm, inum);
            r.Ok? ==> forall i :: 1 <= i <= |prog| ==> r.value[i].sg != 0
    decreases |prog| - inum
  {
    hide Resolve;
    if inum < |prog| {
      var next := Resolve(pm, inum, prog[inum]);
      if next.Ok? {
        ResolveOutside(prog, pm, inum);
        StaysOutside(prog, next.value, inum + 1);
      }
    }
  }

  lemma ResolveOutside(prog: seq<Elem>, pm: seq<Entry>, inum: nat)
    requires |pm| == |prog| + 2 && 1 <= inum < |prog| && forall i :: 1 <= i <= |prog| ==> pm[i].sg != 0
    ensures var r := Resolve(pm, inum, prog[inum]);
            r.Ok? ==> forall i :: 1 <= i <= |prog| ==> r.value[i].sg != 0
  {
  }

  /** Below the ground an accepted program cannot begin with a label, a jump or
      anything that pops: the first element pushes, from depth -1. */
  lemma NegativeStart(prog: seq<Elem>, numArg: int, junk: Entry)
    requires Load(prog, numArg, junk).Ok? && numArg < 0
    requires prog != [] && Loaded(prog, Load(prog, numArg, junk).value)
    requires TargetGood(prog, Load(prog, numArg, junk).value, 0)
    ensures numArg == -1 && prog[0].Instr? && MoveOf(prog[0].op) == Push1
  {
    var dz := Load(prog, numArg, junk).value;
    assert Linked(prog, dz.pm, 0) && dz.pm[1].sp >= 0;
    if prog[0].Instr? && MoveOf(prog[0].op) == Terminal {
      NotTerminal(prog, numArg, junk);
    }
  }

  /** A jump to itself or an ERROR in front leaves all other entries outside segment 0. */
  lemma TerminalFirst(prog: seq<Elem>, numArg: int, junk: Entry)
    requires Load(prog, numArg, junk).Ok? && prog != [] && prog[0].Instr? && MoveOf(prog[0].op) == Terminal
    requires var pm := Load(prog, numArg, junk).value.pm;
             IsBranch(prog[0]) ==>
               BranchArg(prog[0].args, pm, |prog|, 0).Ok? && JumpTarget(pm, 0, prog[0].args) == 0
    ensures Load(prog, numArg, junk).value.pm[1].sg != 0
  {
    hide PassThree;
    var e0 := FirstEntry(numArg);
    var qm := Load(prog, numArg, junk).value.pm;
    var e1 := Advance([e0], prog[0], numArg).value;
    assert e1.sg == 1 && [e0] + [e1] == [e0, e1];
    SegmentsRise(prog, [e0, e1], numArg, 1);
    var pm1 := PassOne(prog, [e0, e1], numArg).value;
    assert PassOne(prog, [e0], numArg) == Ok(pm1);
    var pm := pm1 + [junk];
    PassTwoCode(prog, pm, 0);
    assert PassTwo(prog, pm, 0) == Ok(qm);
    if IsBranch(prog[0]) {
      BranchArgSame(prog[0].args, pm, qm, 0);
      assert JumpTarget(pm, 0, prog[0].args) == JumpTarget(qm, 0, prog[0].args);
    }
    assert Resolve(pm, 0, prog[0]) == Ok(pm);
    StaysOutside(prog, pm, 1);
  }

  lemma NotTerminal(prog: seq<Elem>, numArg: int, junk: Entry)
    requires Load(prog, numArg, junk).Ok? && numArg < 0
    requires prog != [] && Loaded(prog, Load(prog, numArg, junk).value)
    requires TargetGood(prog, Load(prog, numArg, junk).value, 0)
    requires prog[0].Instr?
    ensures MoveOf(prog[0].op) != Terminal
  {
    hide Analyse, Assemble, LaidOut;
    var pm := Load(prog, numArg, junk).value.pm;
    assert Joined(prog, pm, 0);
    assert pm[1].sg == 0;
    if MoveOf(prog[0].op) == Terminal {
      TerminalFirst(prog, numArg, junk);
      assert false;
    }
  }

  /** What every accepted program of negative arity does in its first round. Unless it
      begins with a jump onto the unwritten slot, its argument count is -1 and it
      writes two cells below the stack; that jump goes where the slot says. */
  lemma NegativeArity<V>(prog: seq<Elem>, numArg: int, junk: Entry, alu: Alu<V>, rnd: V, top: V, stack: seq<V>)
    requires Load(prog, numArg, junk).Ok? && numArg < 0
    ensures var dz := Load(prog, numArg, junk).value;
            var first := Step(dz.code, alu, rnd, Start(dz, top, stack));
            && prog != [] && Loaded(prog, dz)
            && (TargetGood(prog, dz, 0) <==> first == Fault(StackCell(-2)))
            && (TargetGood(prog, dz, 0) ==> numArg == -1)
            && (!TargetGood(prog, dz, 0) ==> first == Running(Start(dz, top, stack).(pc := junk.pc)))
  {
    LoadGives(prog, numArg, junk);
    var dz := Load(prog, numArg, junk).value;
    assert Linked(prog, dz.pm, 0) && dz.pm[1].sp >= 0;
    FirstCell(prog, dz, 0);
    if TargetGood(prog, dz, 0) {
      NegativeStart(prog, numArg, junk);
      OperandCells(prog, dz, 0);
      PushBelow(dz.code, alu, rnd, Start(dz, top, stack));
    } else {
      assert Joined(prog, dz.pm, 0);
      JunkStays(prog, numArg, junk);
    }
  }

  lemma PushBelow<V>(code: seq<Cell>, alu: Alu<V>, rnd: V, st: State<V>)
    requires 0 <= st.pc < |code| && code[st.pc].Code? && st.sp < 0
    requires MoveOf(code[st.pc].op) == Push1
    requires OperandOf(code[st.pc].op) == Immediate ==> st.pc + 1 < |code| && code[st.pc + 1].Constant?
    ensures Step(code, alu, rnd, st) == Fault(StackCell(st.sp))
  {
  }

  // ------------------------------------------------------- main theorems

  /** The claim of src/dz.c:553-558, for programs whose runs follow the map: whatever
      the arithmetic, the random numbers and the stack contents, every state of every
      run is legal, and the one cell outside the stack that can be touched is the
      cell below it. This takes an argument count that is not negative, and only
      that: with any other such a program fails in its first round, two cells below
      the stack. */
  lemma VerifierSound<V>(prog: seq<Elem>, numArg: int, junk: Entry, alu: Alu<V>, rnd: seq<V>, top: V, stack: seq<V>)
    requires Load(prog, numArg, junk).Ok? && |stack| == DZ_STACK_SIZE
    requires ReachedGood(prog, Load(prog, numArg, junk).value)
    ensures var dz := Load(prog, numArg, junk).value;
            var out := Run(dz.code, alu, rnd, Start(dz, top, stack));
            && (numArg >= 0 ==>
                  && (out.Running? ==> Legal(prog, dz, out.st))
                  && (out.Fault? ==> out.what == StackCell(-1)))
            && (numArg < 0 && rnd != [] ==> out == Fault(StackCell(-2)))
  {
    hide ReachedGood, Loaded;
    var dz := Load(prog, numArg, junk).value;
    StartOnPath(dz, top, stack);
    if numArg >= 0 {
      RunsAreLegal(prog, dz, alu, rnd, Start(dz, top, stack), [(0, dz.numArg)]);
    } else if rnd != [] {
      NegativeArity(prog, numArg, junk, alu, rnd[0], top, stack);
      FirstIsGood(prog, dz);
    }
  }

  /** The first element is reached. */
  lemma FirstIsGood(prog: seq<Elem>, dz: Dz)
    requires ReachedGood(prog, dz) && prog != []
    ensures TargetGood(prog, dz, 0)
  {
    var p := [(0, dz.numArg)];
    assert Path(dz, p);
    assert prog[0].Instr? ==> Stands(prog, dz, p[|p| - 1], 0);
  }

  /** Where no run can reach depth 0 nothing outside the stack is ever touched; by
      GroundIffDepth no other condition on the paths will do. */
  lemma NeverFaults<V>(prog: seq<Elem>, numArg: int, junk: Entry, alu: Alu<V>, rnd: seq<V>, top: V, stack: seq<V>)
    requires Load(prog, numArg, junk).Ok? && |stack| == DZ_STACK_SIZE
    requires ReachedGood(prog, Load(prog, numArg, junk).value)
    requires forall p :: !PathAtGround(Load(prog, numArg, junk).value, p)
    ensures var dz := Load(prog, numArg, junk).value;
            !Run(dz.code, alu, rnd, Start(dz, top, stack)).Fault?
  {
    hide ReachedGood, Loaded;
    var dz := Load(prog, numArg, junk).value;
    var p0 := [(0, dz.numArg)];
    StartOnPath(dz, top, stack);
    assert !PathAtGround(dz, p0);
    if numArg < 0 {
      NegativeReaches(prog, numArg, junk);
    } else {
      GroundIffDepth(prog, dz);
      RunsAreLegal(prog, dz, alu, rnd, Start(dz, top, stack), p0);
    }
  }

  /** From depth -1 the first push reaches depth 0. */
  lemma NegativeReaches(prog: seq<Elem>, numArg: int, junk: Entry)
    requires Load(prog, numArg, junk).Ok? && numArg < 0
    requires ReachedGood(prog, Load(prog, numArg, junk).value)
    ensures exists p :: PathAtGround(Load(prog, numArg, junk).value, p)
  {
    var dz := Load(prog, numArg, junk).value;
    assert prog != [];
    FirstIsGood(prog, dz);
    NegativeStart(prog, numArg, junk);
    OperandCells(prog, dz, 0);
    var p := [(0, dz.numArg)];
    var op, arg := dz.code[0].op, dz.code[0].arg;
    var next := (if op.PUSH_i? then 2 else 1, 0);
    assert next in Successors(op, arg, 0, -1);
    PathMore(dz, p, next);
    assert PathAtGround(dz, p + [next]);
  }

  /** In particular with no depth 0 on the map. */
  lemma NeverFaultsOnMap<V>(prog: seq<Elem>, numArg: int, junk: Entry, alu: Alu<V>, rnd: seq<V>, top: V,
                            stack: seq<V>)
    requires Load(prog, numArg, junk).Ok? && |stack| == DZ_STACK_SIZE
    requires ReachedGood(prog, Load(prog, numArg, junk).value)
    requires forall k :: 0 <= k <= |prog| ==> Load(prog, numArg, junk).value.pm[k].sp != 0
    ensures var dz := Load(prog, numArg, junk).value;
            !Run(dz.code, alu, rnd, Start(dz, top, stack)).Fault?
  {
    var dz := Load(prog, numArg, junk).value;
    forall p ensures !PathAtGround(dz, p) {
      hide ReachedGood;
      if PathAtGround(dz, p) {
        var k := PathKeeps(prog, dz, p);
      }
    }
    NeverFaults(prog, numArg, junk, alu, rnd, top, stack);
  }

  /** For any accepted program, symbolic operands included: the map is an
      invariant of the machine exactly when every symbolic operand resolves below
      the top, POP@ drops what pass 1 counted, and no branch hit the unwritten slot. */
  lemma MapInvariantIff(prog: seq<Elem>, numArg: int, junk: Entry)
    requires Load(prog, numArg, junk).Ok?
    ensures var dz := Load(prog, numArg, junk).value;
            && Loaded(prog, dz)
            && ((forall k :: 0 <= k < |prog| ==> Keeps(prog, dz, k)) <==>
                (forall k :: 0 <= k < |prog| ==> OperandGood(prog, dz, k) && TargetGood(prog, dz, k)))
  {
    LoadGives(prog, numArg, junk);
    var dz := Load(prog, numArg, junk).value;
    forall k | 0 <= k < |prog|
      ensures Keeps(prog, dz, k) <==> OperandGood(prog, dz, k) && TargetGood(prog, dz, k)
    {
      KeepsIff(prog, dz, k);
    }
  }

  // ------------------------------------- inputs on which the claim fails

  /** Popping the last cell is accepted and reads dz_stack[-1]. */
  lemma GroundIsReached<V>(alu: Alu<V>, rnd: V, top: V, stack: seq<V>, junk: Entry)
    requires |stack| == DZ_STACK_SIZE
    ensures var prog := [Instr(POP, []), Instr(PUSH_i, [Num(0.0)])];
            var dz := Load(prog, 1, junk);
            && dz.Ok?
            && Run(dz.value.code, alu, [rnd], Start(dz.value, top, stack)) == Fault(StackCell(-1))
  {
    var prog := [Instr(POP, []), Instr(PUSH_i, [Num(0.0)])];
    var e0, e1, e2 := FirstEntry(1), Entry(1, 0, 0, None), Entry(3, 1, 0, None);
    assert Advance([e0], prog[0], 1) == Ok(e1);
    assert Advance([e0, e1], prog[1], 1) == Ok(e2);
    assert [e0, e1] + [e2] == [e0, e1, e2] && [e0] + [e1] == [e0, e1];
    assert PassOne(prog, [e0, e1, e2], 1) == Ok([e0, e1, e2]);
    assert PassOne(prog, [e0, e1], 1) == Ok([e0, e1, e2]);
    var pm := [e0, e1, e2] + [junk];
    assert PassTwo(prog, pm, 2) == Ok(pm);
    assert PassTwo(prog, pm, 1) == Ok(pm);
    assert PassThree(pm, 2, 2, 1) == Ok(1);
    assert Analyse(prog, 1, junk) == Ok(Analysis(pm, 1));
    assert Assemble(prog, pm, 1, 1) == Ok([Code(PUSH_i, 0), Constant(0.0)] + [Code(RETURN, 0)]);
  }

  /** Such programs exist: a negative argument count is accepted. */
  lemma NegativeArityAccepted<V>(alu: Alu<V>, rnd: V, top: V, stack: seq<V>, junk: Entry)
    ensures var prog := [Instr(PUSH_i, [Num(0.0)]), Instr(PUSH_i, [Num(0.0)])];
            var dz := Load(prog, -1, junk);
            && dz.Ok?
            && Run(dz.value.code, alu, [rnd], Start(dz.value, top, stack)) == Fault(StackCell(-2))
  {
    var push := Instr(PUSH_i, [Num(0.0)]);
    var prog := [push, push];
    var e0, e1, e2 := FirstEntry(-1), Entry(2, 0, 0, None), Entry(4, 1, 0, None);
    assert Advance([e0], push, -1) == Ok(e1);
    assert Advance([e0, e1], push, -1) == Ok(e2);
    assert [e0, e1] + [e2] == [e0, e1, e2] && [e0] + [e1] == [e0, e1];
    assert PassOne(prog, [e0, e1, e2], -1) == Ok([e0, e1, e2]);
    assert PassOne(prog, [e0, e1], -1) == Ok([e0, e1, e2]);
    var pm := [e0, e1, e2] + [junk];
    assert PassTwo(prog, pm, 2) == Ok(pm);
    assert PassTwo(prog, pm, 1) == Ok(pm);
    assert PassThree(pm, 2, 2, 1) == Ok(1);
    var two := [Code(PUSH_i, 0), Constant(0.0)];
    assert Assemble(prog, pm, 2, -1) == Ok([Code(RETURN, 0)]);
    assert Assemble(prog, pm, 1, -1) == Ok(two + [Code(RETURN, 0)]);
  }

  /** And with a first jump onto the unwritten slot any negative count is. */
  lemma NegativeArityUnwritten()
    ensures Load([Instr(BR_l, [Num(99.0)])], -5, Entry(100, -9, 1, None)).Ok?
  {
    var prog, junk := [Instr(BR_l, [Num(99.0)])], Entry(100, -9, 1, None);
    var e0, e1 := FirstEntry(-5), Entry(1, -3, 1, None);
    assert Advance([e0], prog[0], -5) == Ok(e1);
    assert [e0] + [e1] == [e0, e1];
    assert PassOne(prog, [e0, e1], -5) == Ok([e0, e1]);
    var pm, qm := [e0, e1] + [junk], [e0, Entry(1, 1, 0, None), junk];
    assert TargetIndex(pm, 1, 100, 0) == 2;
    assert Relabel(pm, 1, 1, 0, 4) == qm;
    assert PassTwo(prog, qm, 1) == Ok(qm);
    assert Analyse(prog, -5, junk) == Ok(Analysis(qm, 2));
    assert Assemble(prog, qm, 1, -5) == Ok([Code(RETURN, 0)]);
  }

  /** A symbolic operand may designate a cell above the top: PUSH@ then reads what
      an earlier computation left in the global stack. */
  lemma SymbolicAboveTop<V>(alu: Alu<V>, rnd: V, top: V, stack: seq<V>, junk: Entry)
    requires |stack| == DZ_STACK_SIZE
    ensures var prog := [Instr(PUSH_r, [Str("L")]), Label("L"), Instr(POP, [])];
            var dz := Load(prog, 1, junk);
            && dz.Ok?
            && var out := Run(dz.value.code, alu, [rnd], Start(dz.value, top, stack));
            out.Running? && out.st.x == stack[1]
  {
    SymbolicLoads(junk);
    var code := [Code(PUSH_r, 1), Code(POP, 0), Code(RETURN, 0)];
    var st := State(0, 0, top, stack);
    assert Step(code, alu, rnd, st) == Running(State(1, 1, stack[0 := top][1], stack[0 := top]));
  }

  lemma SymbolicLoads(junk: Entry)
    ensures var prog := [Instr(PUSH_r, [Str("L")]), Label("L"), Instr(POP, [])];
            var dz := Load(prog, 1, junk);
            dz.Ok? && dz.value.numArg == 1 && dz.value.code == [Code(PUSH_r, 1), Code(POP, 0), Code(RETURN, 0)]
  {
    hide Step, Run;
    var prog := [Instr(PUSH_r, [Str("L")]), Label("L"), Instr(POP, [])];
    var e0, e1, e2, e3 := FirstEntry(1), Entry(1, 2, 0, None), Entry(1, 2, 0, Some("L")), Entry(2, 1, 0, None);
    var pm := [e0, e1, e2, e3] + [junk];
    SymbolicAnalysis(junk);
    assert LabelIndex(pm, 3, "L", 2) == Ok(2);
    assert LabelIndex(pm, 3, "L", 1) == Ok(2);
    assert GenCode(pm, 0, prog[0], 1) == Ok([Code(PUSH_r, 1)]);
    var ret := [Code(RETURN, 0)];
    assert Assemble(prog, pm, 3, 1) == Ok(ret);
    assert Assemble(prog, pm, 2, 1) == Ok([Code(POP, 0)] + ret);
    assert Assemble(prog, pm, 1, 1) == Ok([] + ([Code(POP, 0)] + ret));
  }

  lemma SymbolicAnalysis(junk: Entry)
    ensures var prog := [Instr(PUSH_r, [Str("L")]), Label("L"), Instr(POP, [])];
            var e0, e1, e2, e3 := FirstEntry(1), Entry(1, 2, 0, None), Entry(1, 2, 0, Some("L")), Entry(2, 1, 0, None);
            Analyse(prog, 1, junk) == Ok(Analysis([e0, e1, e2, e3] + [junk], 3))
  {
    var prog := [Instr(PUSH_r, [Str("L")]), Label("L"), Instr(POP, [])];
    var e0, e1, e2, e3 := FirstEntry(1), Entry(1, 2, 0, None), Entry(1, 2, 0, Some("L")), Entry(2, 1, 0, None);
    assert [e0, e1, e2] + [e3] == [e0, e1, e2, e3] && [e0, e1] + [e2] == [e0, e1, e2] && [e0] + [e1] == [e0, e1];
    assert PassOne(prog, [e0, e1, e2, e3], 1) == Ok([e0, e1, e2, e3]);
    assert PassOne(prog, [e0, e1, e2], 1) == Ok([e0, e1, e2, e3]);
    assert PassOne(prog, [e0, e1], 1) == Ok([e0, e1, e2, e3]);
    var pm := [e0, e1, e2, e3] + [junk];
    assert PassTwo(prog, pm, 3) == Ok(pm);
    assert PassTwo(prog, pm, 2) == Ok(pm);
    assert PassTwo(prog, pm, 1) == Ok(pm);
    assert PassThree(pm, 3, 3, 3) == Ok(3);
    assert PassThree(pm, 3, 2, 3) == Ok(3);
  }

  /** The slot that pass 1 never writes can make any jump acceptable: here a jump
      to address 100, outside the byte code. */
  lemma UnwrittenSlotAccepts<V>(alu: Alu<V>, rnd: seq<V>, top: V, stack: seq<V>)
    requires |rnd| == 2
    ensures var dz := Load([Instr(BR_l, [Num(99.0)])], 1, Entry(100, -3, 1, None));
            && dz.Ok?
            && Run(dz.value.code, alu, rnd, Start(dz.value, top, stack)) == Fault(CodeCell(100))
  {
    var prog, junk := [Instr(BR_l, [Num(99.0)])], Entry(100, -3, 1, None);
    var e0, e1 := FirstEntry(1), Entry(1, -3, 1, None);
    assert Advance([e0], prog[0], 1) == Ok(e1);
    assert [e0] + [e1] == [e0, e1];
    assert PassOne(prog, [e0, e1], 1) == Ok([e0, e1]);
    var pm, qm := [e0, e1] + [junk], [e0, Entry(1, 1, 0, None), junk];
    assert TargetIndex(pm, 1, 100, 0) == 2;
    assert Relabel(pm, 1, 1, 0, 4) == qm;
    assert PassTwo(prog, qm, 1) == Ok(qm);
    assert Analyse(prog, 1, junk) == Ok(Analysis(qm, 1));
    assert Assemble(prog, qm, 1, 1) == Ok([Code(RETURN, 0)]);
    var code := Load(prog, 1, junk).value.code;
    assert code == [Code(BR_l, 99), Code(RETURN, 0)];
    assert rnd[1..] != [] && rnd[1..][1..] == [];
  }
}
