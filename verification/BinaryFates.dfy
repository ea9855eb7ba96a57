/** The reader on arbitrary token lists (src/binary.c:1166-1256, 1324-1345): what becomes
    of a read is decided by the order in which relocations are used and defined. */
module BinaryFates {
  import opened Basics
  import opened BinaryGraph
  import opened BinaryReloc
  import opened BinaryWriter
  import opened BinaryReader

  /** Tokens that one object takes, if the list is long enough. */
  function Span(toks: seq<Token>): (n: Option<nat>)
    ensures n.Some? ==> 0 < n.value <= |toks|
    decreases |toks|
  {
    if toks == [] then None
    else
      match toks[0]
      case DEF(_) => (match Span(toks[1..]) case Some(n) => Some(1 + n) case None => None)
      case CONS =>
        (match Span(toks[1..])
         case None => None
         case Some(m) =>
           match Span(toks[1 + m..])
           case Some(n) => Some(1 + m + n)
           case None => None)
      case _ => Some(1)
  }

  lemma BreadCell(toks: seq<Token>, st: Memory, pp: Slot, ret: int)
    requires toks != [] && toks[0].CONS?
    ensures var left := Bread(toks[1..], NewCons(st, pp), Car(st.next), 1);
            Bread(toks, st, pp, ret) == if !left.Done? then left else Bread(left.rest, left.st, Cdr(st.next), 0)
  {
  }

  lemma SliceTwice<T>(s: seq<T>, m: nat, n: nat)
    requires m + n <= |s|
    ensures s[m..][n..] == s[m + n..]
  {
  }

  lemma SpanCell(toks: seq<Token>)
    requires toks != [] && toks[0].CONS? && Span(toks[1..]).Some? && Span(toks[1 + Span(toks[1..]).value..]).Some?
    ensures var m := Span(toks[1..]).value;
            var n := Span(toks[1 + m..]).value;
            && Span(toks) == Some(1 + m + n)
            && toks[1..][m..] == toks[1 + m..] && toks[1 + m..][n..] == toks[1 + m + n..]
  {
    var m := Span(toks[1..]).value;
    SpanStep(toks, m, Span(toks[1 + m..]).value);
    SliceTwice(toks, 1, m);
    SliceTwice(toks, 1 + m, Span(toks[1 + m..]).value);
  }

  lemma SpanStep(toks: seq<Token>, m: nat, n: nat)
    requires toks != [] && toks[0].CONS? && 1 + m <= |toks|
    requires Span(toks[1..]) == Some(m) && Span(toks[1 + m..]) == Some(n)
    ensures Span(toks) == Some(1 + m + n)
  {
  }

  // ------------------------------------------------ slots stay filled

  /** What a memory keeps under any read, however malformed the tokens. */
  ghost predicate Well(st: Memory) {
    && |st.relocf| == |st.relocp|
    && (forall k :: 0 <= k < |st.relocf| && st.relocf[k] == DEFD ==> !st.relocp[k].Link?)
    && forall s :: s in st.mem && !s.Root? ==> s.a < st.next
  }

  /** Slots that hold no link still hold none. */
  ghost predicate LinksKept(m: map<Slot, Word>, n: map<Slot, Word>, but: set<Slot>) {
    forall s :: s in m && s !in but && !m[s].Link? ==> s in n && !n[s].Link?
  }

  lemma {:induction false} PatchKeeps(mem: map<Slot, Word>, count: map<nat, int>, h: Word, w: Word)
    requires !w.Link?
    ensures Patch(mem, count, h, w).0.Keys == mem.Keys && LinksKept(mem, Patch(mem, count, h, w).0, {})
    decreases |Links(mem)|
  {
    if h.Link? && h.s in mem && mem[h.s].Link? {
      var mem' := mem[h.s := w];
      assert Links(mem') < Links(mem) by { assert h.s in Links(mem) && h.s !in Links(mem'); }
      LinksShrink(mem, mem');
      PatchKeeps(mem', Lock(count, w), mem[h.s], w);
    }
  }

  lemma CompleteKeepsLinks(st: Memory, k: nat, w: Word)
    requires Well(st) && k < |st.relocf| && !w.Link?
    ensures Well(Complete(st, k, w)) && LinksKept(st.mem, Complete(st, k, w).mem, {})
    ensures Complete(st, k, w).next == st.next
  {
    PatchKeeps(st.mem, st.count, st.relocp[k], w);
  }

  /** When the reader returns from a complete object its slot holds no link, so no
      definition ever copies one. */
  lemma {:induction false} SlotFilled(toks: seq<Token>, st: Memory, pp: Slot, ret: int)
    requires Well(st) && (!pp.Root? ==> pp.a < st.next)
    ensures var r := Bread(toks, st, pp, ret);
            r.Done? ==>
              && Well(r.st) && st.next <= r.st.next && LinksKept(st.mem, r.st.mem, {pp})
              && (r.ret == 0 != ret ==> pp in r.st.mem && !r.st.mem[pp].Link?)
    decreases |toks|
  {
    hide Complete, CompleteSpare, LinksKept, Well;
    if toks != [] {
      if toks[0].DEF? {
        DefFilled(toks, st, pp, ret);
      } else if toks[0].CONS? {
        ConsFilled(toks, st, pp, ret);
      } else {
        AtomFilled(toks, st, pp, ret);
      }
    }
  }

  lemma StoreKeeps(st: Memory, st': Memory, pp: Slot, w: Word)
    requires Well(st) && !w.Link? && st'.mem == st.mem[pp := w] && (!pp.Root? ==> pp.a < st.next)
    requires st'.relocp == st.relocp && st'.relocf == st.relocf && st.next <= st'.next
    ensures Well(st') && LinksKept(st.mem, st'.mem, {pp}) && pp in st'.mem && !st'.mem[pp].Link?
  {
  }

  lemma AtomFilled(toks: seq<Token>, st: Memory, pp: Slot, ret: int)
    requires Well(st) && (!pp.Root? ==> pp.a < st.next) && toks != [] && !toks[0].CONS? && !toks[0].DEF?
    ensures var r := Bread(toks, st, pp, ret);
            && !r.Wild?
            && (r.Done? ==>
                 && Well(r.st) && st.next <= r.st.next && LinksKept(st.mem, r.st.mem, {pp})
                 && (r.ret == 0 != ret ==> pp in r.st.mem && !r.st.mem[pp].Link?))
  {
    hide Well, LinksKept, Bread;
    if toks[0].REF? {
      RefFilled(toks, st, pp, ret);
    } else {
      BreadAtom(toks, st, pp, ret);
      var st' := Bread(toks, st, pp, ret).st;
      StoreKeeps(st, st', pp, st'.mem[pp]);
    }
  }

  lemma BreadAtom(toks: seq<Token>, st: Memory, pp: Slot, ret: int)
    requires toks != [] && !toks[0].CONS? && !toks[0].DEF? && !toks[0].REF?
    ensures var r := Bread(toks, st, pp, ret);
            && r.Done? && pp in r.st.mem && !r.st.mem[pp].Link? && r.st.mem == st.mem[pp := r.st.mem[pp]]
            && r.st.relocp == st.relocp && r.st.relocf == st.relocf && st.next <= r.st.next
  {
    hide Named, NewAtom;
    match toks[0]
    case NIL =>
    case NUMBER(r) => AtomEffect(st, pp, Number(r));
    case STRING(s) => AtomEffect(st, pp, Str(s));
    case SYMBOL(s) => NamedEffect(st, pp, s);
  }

  lemma AtomEffect(st: Memory, pp: Slot, n: Node)
    ensures var r := NewAtom(st, pp, n);
            && r.mem == st.mem[pp := At(st.next)] && r.relocp == st.relocp && r.relocf == st.relocf && st.next < r.next
  {
  }

  lemma NamedEffect(st: Memory, pp: Slot, s: string)
    ensures var r := Named(st, pp, s);
            && r.mem == st.mem[pp := At(if s in st.symtab then st.symtab[s] else st.next)]
            && r.relocp == st.relocp && r.relocf == st.relocf && st.next <= r.next
  {
  }

  lemma RefFilled(toks: seq<Token>, st: Memory, pp: Slot, ret: int)
    requires Well(st) && (!pp.Root? ==> pp.a < st.next) && toks != [] && toks[0].REF?
    ensures var r := Bread(toks, st, pp, ret);
            && !r.Wild?
            && (r.Done? ==>
                 && Well(r.st) && st.next <= r.st.next && LinksKept(st.mem, r.st.mem, {pp})
                 && (r.ret == 0 != ret ==> pp in r.st.mem && !r.st.mem[pp].Link?))
  {
    var k := toks[0].k;
    if k < |st.relocf| && st.relocf[k] == DEFD {
      BreadRef(toks, st, pp, ret);
      StoreKeeps(st, Bread(toks, st, pp, ret).st, pp, st.relocp[k]);
    }
  }

  lemma BreadRef(toks: seq<Token>, st: Memory, pp: Slot, ret: int)
    requires toks != [] && toks[0].REF? && toks[0].k < |st.relocf| == |st.relocp| && st.relocf[toks[0].k] == DEFD
    ensures var r := Bread(toks, st, pp, ret);
            && r.Done? && r.st.mem == st.mem[pp := st.relocp[toks[0].k]]
            && r.st.relocp == st.relocp && r.st.relocf == st.relocf && st.next <= r.st.next
  {
  }

  lemma {:induction false} DefFilled(toks: seq<Token>, st: Memory, pp: Slot, ret: int)
    requires Well(st) && (!pp.Root? ==> pp.a < st.next) && toks != [] && toks[0].DEF?
    ensures var r := Bread(toks, st, pp, ret);
            r.Done? ==>
              && Well(r.st) && st.next <= r.st.next && LinksKept(st.mem, r.st.mem, {pp})
              && pp in r.st.mem && !r.st.mem[pp].Link?
    decreases |toks|, 0
  {
    hide Complete, LinksKept, Well;
    SlotFilled(toks[1..], st, pp, 1);
    var body := Bread(toks[1..], st, pp, 1);
    if body.Done? && body.ret == 0 {
      WellSizes(body.st);
      if toks[0].k < |body.st.relocf| {
        CompleteKeepsLinks(body.st, toks[0].k, body.st.mem[pp]);
        KeptAgain(st.mem, pp, body.st.mem, Complete(body.st, toks[0].k, body.st.mem[pp]).mem);
      } else {
        SpareKeepsLinks(body.st, toks[0].k, body.rest);
      }
    }
  }

  lemma SpareKeepsLinks(st: Memory, k: nat, rest: seq<Token>)
    requires Well(st)
    ensures var r := CompleteSpare(st, k, rest);
            r.Done? ==> Well(r.st) && r.st.mem == st.mem && r.st.next == st.next
  {
  }

  lemma {:induction false} ConsFilled(toks: seq<Token>, st: Memory, pp: Slot, ret: int)
    requires Well(st) && (!pp.Root? ==> pp.a < st.next) && toks != [] && toks[0].CONS?
    ensures var r := Bread(toks, st, pp, ret);
            r.Done? ==>
              && Well(r.st) && st.next <= r.st.next && LinksKept(st.mem, r.st.mem, {pp})
              && pp in r.st.mem && !r.st.mem[pp].Link?
    decreases |toks|, 0
  {
    hide Bread, Well, LinksKept;
    var rest, a := toks[1..], st.next;
    var st1 := NewCons(st, pp);
    CellKeeps(st, pp);
    WellSizes(st);
    BreadCell(toks, st, pp, ret);
    SlotFilled(rest, st1, Car(a), 1);
    var left := Bread(rest, st1, Car(a), 1);
    if left.Done? {
      SlotFilled(left.rest, left.st, Cdr(a), 0);
      var r := Bread(left.rest, left.st, Cdr(a), 0);
      if r.Done? {
        KeptTwice(st.mem, pp, a, st1.mem, left.st.mem, r.st.mem);
      }
    }
  }

  lemma KeptAgain(m0: map<Slot, Word>, pp: Slot, m1: map<Slot, Word>, m2: map<Slot, Word>)
    requires LinksKept(m0, m1, {pp}) && LinksKept(m1, m2, {}) && pp in m1 && !m1[pp].Link?
    ensures LinksKept(m0, m2, {pp}) && pp in m2 && !m2[pp].Link?
  {
  }

  lemma WellSizes(st: Memory)
    requires Well(st)
    ensures |st.relocf| == |st.relocp| && forall s :: s in st.mem && !s.Root? ==> s.a < st.next
  {
  }

  lemma CellKeeps(st: Memory, pp: Slot)
    requires Well(st) && (!pp.Root? ==> pp.a < st.next)
    ensures var st' := NewCons(st, pp);
            && Well(st') && st'.mem == st.mem[Car(st.next) := Null][Cdr(st.next) := Null][pp := At(st.next)]
            && LinksKept(st.mem, st'.mem, {pp})
  {
  }

  lemma KeptTwice(m0: map<Slot, Word>, pp: Slot, a: nat, m1: map<Slot, Word>, m2: map<Slot, Word>, m3: map<Slot, Word>)
    requires m1 == m0[Car(a) := Null][Cdr(a) := Null][pp := At(a)]
    requires forall s :: s in m0 || s == pp ==> s.Root? || s.a < a
    requires LinksKept(m1, m2, {Car(a)}) && LinksKept(m2, m3, {Cdr(a)})
    ensures LinksKept(m0, m3, {pp}) && pp in m3 && !m3[pp].Link?
  {
    assert m1[pp] == At(a) && pp != Car(a) && pp != Cdr(a);
    forall s | s in m0 && s !in {pp} && !m0[s].Link? ensures s in m3 && !m3[s].Link? {
      assert s in m1 && m1[s] == m0[s];
    }
  }

  // --------------------------------------- uses and definitions in order

  /** What a token list asks of the relocation table, in the order the reader asks it:
      Use for a reference, Close for a definition whose object is complete, with the
      relocation that object refers to when it is nothing but a reference, and End
      where the list is too short. */
  datatype Event = Use(k: nat) | Close(k: nat, bare: Option<nat>) | End

  function Bare(toks: seq<Token>): Option<nat> {
    if toks != [] && toks[0].REF? then Some(toks[0].k) else None
  }

  function Events(toks: seq<Token>): seq<Event>
    decreases |toks|
  {
    if toks == [] then [End]
    else
      match toks[0]
      case REF(k) => [Use(k)]
      case DEF(k) =>
        Events(toks[1..]) + if Span(toks[1..]).Some? then [Close(k, Bare(toks[1..]))] else []
      case CONS =>
        Events(toks[1..]) + if Span(toks[1..]).Some? then Events(toks[1 + Span(toks[1..]).value..]) else []
      case _ => []
  }

  /** The table before the read: limit relocations, and the flags left behind them. */
  datatype Table = Table(limit: nat, spare: seq<Flag>)

  datatype Fate = Passes | Refuses | Strays

  ghost predicate IsClosed(ev: seq<Event>, k: nat) { exists j :: 0 <= j < |ev| && ev[j].Close? && ev[j].k == k }

  /** What becomes of a read at event e, after the events of pre. */
  ghost function FateOf(pre: seq<Event>, e: Event, a: Table): Fate {
    match e
    case End => Refuses
    case Use(k) => if k < a.limit then Passes else Refuses
    case Close(k, bare) =>
      if bare.Some? && !IsClosed(pre, bare.value) then Refuses
      else if k >= a.limit + |a.spare| then Strays
      else if IsClosed(pre, k) then Refuses
      else if k < a.limit then Passes
      else if a.spare[k - a.limit] == DEFD then Refuses
      else if a.spare[k - a.limit] == REFD then Strays
      else Passes
  }

  ghost predicate AllPass(ev: seq<Event>, a: Table) {
    forall i :: 0 <= i < |ev| ==> FateOf(ev[..i], ev[i], a) == Passes
  }

  /** The first event that does not pass has this fate. */
  ghost predicate StopsAt(ev: seq<Event>, i: nat, a: Table, f: Fate) {
    i < |ev| && AllPass(ev[..i], a) && FateOf(ev[..i], ev[i], a) == f
  }

  ghost predicate Stops(ev: seq<Event>, a: Table, f: Fate) { exists i: nat :: StopsAt(ev, i, a, f) }

  lemma StopsMore(ev: seq<Event>, more: seq<Event>, a: Table, f: Fate)
    requires Stops(ev, a, f)
    ensures Stops(ev + more, a, f)
  {
    var i: nat :| StopsAt(ev, i, a, f);
    assert (ev + more)[..i] == ev[..i];
    assert StopsAt(ev + more, i, a, f);
  }

  lemma OneMore(ev: seq<Event>, e: Event, a: Table)
    requires AllPass(ev, a)
    ensures var f := FateOf(ev, e, a); if f == Passes then AllPass(ev + [e], a) else Stops(ev + [e], a, f)
  {
    var all := ev + [e];
    assert forall i :: 0 <= i <= |ev| ==> all[..i] == ev[..i];
    assert all[..|ev|] == ev;
    assert StopsAt(all, |ev|, a, FateOf(ev, e, a));
  }

  lemma PassesBefore(ev: seq<Event>, i: nat, j: nat, a: Table)
    requires i < j <= |ev| && AllPass(ev[..j], a)
    ensures FateOf(ev[..i], ev[i], a) == Passes
  {
    assert ev[..j][..i] == ev[..i] && ev[..j][i] == ev[i];
  }

  /** A list of events has one fate. */
  lemma OneFate(ev: seq<Event>, a: Table, f: Fate)
    requires Stops(ev, a, f) && f != Passes
    ensures !AllPass(ev, a) && forall g :: g != Passes && Stops(ev, a, g) ==> g == f
  {
    var i: nat :| StopsAt(ev, i, a, f);
    forall g, j: nat | g != Passes && StopsAt(ev, j, a, g) ensures g == f {
      hide AllPass, FateOf;
      if i < j {
        PassesBefore(ev, i, j, a);
      } else if j < i {
        PassesBefore(ev, j, i, a);
      }
    }
  }

  /** The reader's flags are those of the table, after the events of ev. */
  ghost predicate Agree(st: Memory, ev: seq<Event>, a: Table) {
    && |st.relocf| == |st.relocp| == a.limit && |st.spare| == |a.spare|
    && (forall k :: 0 <= k < a.limit ==> (st.relocf[k] == DEFD <==> IsClosed(ev, k)))
    && forall k :: 0 <= k < |a.spare| ==> st.spare[k] == if IsClosed(ev, a.limit + k) then DEFD else a.spare[k]
  }

  /** A read ends as its events say. */
  ghost predicate Fated(toks: seq<Token>, pre: seq<Event>, a: Table, ret: int, r: Read) {
    var ev := pre + Events(toks);
    match r
    case Done(st, rest, ret') =>
      && AllPass(ev, a) && Agree(st, ev, a)
      && Span(toks).Some? && rest == toks[Span(toks).value..]
      && ret' == if Bare(toks).Some? && !IsClosed(pre, Bare(toks).value) then ret else 0
    case Corrupted => Stops(ev, a, Refuses)
    case Wild => Stops(ev, a, Strays)
  }

  lemma {:induction false} BreadFate(toks: seq<Token>, st: Memory, pp: Slot, ret: int, pre: seq<Event>, a: Table)
    requires Well(st) && (!pp.Root? ==> pp.a < st.next) && AllPass(pre, a) && Agree(st, pre, a)
    ensures Fated(toks, pre, a, ret, Bread(toks, st, pp, ret))
    decreases |toks|, 1
  {
    hide Bread, Fated, Well, AllPass, Agree;
    if toks == [] {
      EndFate(st, pp, ret, pre, a);
    } else if toks[0].REF? {
      RefFate(toks, st, pp, ret, pre, a);
    } else if toks[0].DEF? {
      SlotFilled(toks[1..], st, pp, 1);
      BreadFate(toks[1..], st, pp, 1, pre, a);
      DefFate(toks, st, pp, ret, pre, a);
    } else if toks[0].CONS? {
      CellFate(toks, st, pp, ret, pre, a);
    } else {
      AtomFate(toks, st, pp, ret, pre, a);
    }
  }

  lemma EndFate(st: Memory, pp: Slot, ret: int, pre: seq<Event>, a: Table)
    requires AllPass(pre, a)
    ensures Fated([], pre, a, ret, Bread([], st, pp, ret))
  {
    hide AllPass, Stops, Agree;
    OneMore(pre, End, a);
  }

  lemma AtomFate(toks: seq<Token>, st: Memory, pp: Slot, ret: int, pre: seq<Event>, a: Table)
    requires AllPass(pre, a) && Agree(st, pre, a)
    requires toks != [] && !toks[0].CONS? && !toks[0].DEF? && !toks[0].REF?
    ensures Fated(toks, pre, a, ret, Bread(toks, st, pp, ret))
  {
    hide AllPass, Bread;
    assert pre + Events(toks) == pre;
    AtomLeaves(toks, st, pp, ret);
  }

  lemma AtomLeaves(toks: seq<Token>, st: Memory, pp: Slot, ret: int)
    requires toks != [] && !toks[0].CONS? && !toks[0].DEF? && !toks[0].REF?
    ensures var r := Bread(toks, st, pp, ret);
            && r.Done? && r.rest == toks[1..] && r.ret == 0
            && r.st.relocp == st.relocp && r.st.relocf == st.relocf && r.st.spare == st.spare
  {
    hide Lock;
  }

  lemma UseCloses(pre: seq<Event>, k: nat)
    ensures forall j :: IsClosed(pre + [Use(k)], j) <==> IsClosed(pre, j)
  {
    forall j | IsClosed(pre, j) ensures IsClosed(pre + [Use(k)], j) {
      var i :| 0 <= i < |pre| && pre[i].Close? && pre[i].k == j;
      assert (pre + [Use(k)])[i] == pre[i];
    }
    forall j | IsClosed(pre + [Use(k)], j) ensures IsClosed(pre, j) {
      var i :| 0 <= i < |pre + [Use(k)]| && (pre + [Use(k)])[i].Close? && (pre + [Use(k)])[i].k == j;
      assert pre[i].Close?;
    }
  }

  lemma CloseCloses(pre: seq<Event>, k: nat, bare: Option<nat>)
    ensures forall j :: IsClosed(pre + [Close(k, bare)], j) <==> j == k || IsClosed(pre, j)
  {
    var ev := pre + [Close(k, bare)];
    assert ev[|pre|] == Close(k, bare);
    forall j | IsClosed(pre, j) ensures IsClosed(ev, j) {
      var i :| 0 <= i < |pre| && pre[i].Close? && pre[i].k == j;
      assert ev[i] == pre[i];
    }
    forall j | IsClosed(ev, j) ensures j == k || IsClosed(pre, j) {
      var i :| 0 <= i < |ev| && ev[i].Close? && ev[i].k == j;
      if i < |pre| {
        assert pre[i].Close?;
      }
    }
  }

  lemma RefFate(toks: seq<Token>, st: Memory, pp: Slot, ret: int, pre: seq<Event>, a: Table)
    requires AllPass(pre, a) && Agree(st, pre, a) && toks != [] && toks[0].REF?
    ensures Fated(toks, pre, a, ret, Bread(toks, st, pp, ret))
  {
    hide AllPass, Stops, IsClosed;
    var k := toks[0].k;
    assert Events(toks) == [Use(k)];
    OneMore(pre, Use(k), a);
    UseCloses(pre, k);
  }

  lemma DefFate(toks: seq<Token>, st: Memory, pp: Slot, ret: int, pre: seq<Event>, a: Table)
    requires toks != [] && toks[0].DEF?
    requires var body := Bread(toks[1..], st, pp, 1);
             && Fated(toks[1..], pre, a, 1, body)
             && (body.Done? && body.ret == 0 ==> pp in body.st.mem && !body.st.mem[pp].Link?)
    ensures Fated(toks, pre, a, ret, Bread(toks, st, pp, ret))
  {
    hide AllPass, Stops, IsClosed, Complete, Agree, Span;
    var body := Bread(toks[1..], st, pp, 1);
    var ev := pre + Events(toks[1..]);
    SpanUnfold(toks);
    if !body.Done? {
      assert Bread(toks, st, pp, ret) == body;
      assert pre + Events(toks) == ev + Events(toks)[|Events(toks[1..])|..];
      StopsMore(ev, Events(toks)[|Events(toks[1..])|..], a, if body.Wild? then Strays else Refuses);
    } else {
      var e := Close(toks[0].k, Bare(toks[1..]));
      assert pre + Events(toks) == ev + [e];
      OneMore(ev, e, a);
      if Bare(toks[1..]).Some? {
        assert Events(toks[1..]) == [Use(toks[1..][0].k)];
        UseCloses(pre, toks[1..][0].k);
      }
      if e.bare.None? || IsClosed(ev, e.bare.value) {
        CloseFate(body.st, toks[0].k, body.st.mem[pp], body.rest, ev, e.bare, a);
      }
      SliceTwice(toks, 1, Span(toks[1..]).value);
    }
  }

  /** The flags decide as the events do. */
  lemma CloseFate(st: Memory, k: nat, w: Word, rest: seq<Token>, ev: seq<Event>, bare: Option<nat>, a: Table)
    requires Agree(st, ev, a) && !w.Link? && (bare.Some? ==> IsClosed(ev, bare.value))
    ensures |st.relocf| == |st.relocp|
    ensures var f := FateOf(ev, Close(k, bare), a);
            if k < |st.relocf| then
              if st.relocf[k] == DEFD then f == Refuses
              else f == Passes && Agree(Complete(st, k, w), ev + [Close(k, bare)], a)
            else
              match CompleteSpare(st, k, rest)
              case Done(st', rest', ret') =>
                f == Passes && rest' == rest && ret' == 0 && Agree(st', ev + [Close(k, bare)], a)
              case Corrupted => f == Refuses
              case Wild => f == Strays
  {
    hide IsClosed, Patch;
    CloseCloses(ev, k, bare);
  }

  lemma {:induction false} CellFate(toks: seq<Token>, st: Memory, pp: Slot, ret: int, pre: seq<Event>, a: Table)
    requires Well(st) && (!pp.Root? ==> pp.a < st.next) && AllPass(pre, a) && Agree(st, pre, a)
    requires toks != [] && toks[0].CONS?
    ensures Fated(toks, pre, a, ret, Bread(toks, st, pp, ret))
    decreases |toks|, 0
  {
    hide Bread, AllPass, Stops, IsClosed, Agree, Well, Span, Events, LinksKept;
    var rest, b := toks[1..], st.next;
    var st1 := NewCons(st, pp);
    CellKeeps(st, pp);
    CellAgrees(st, pp, pre, a);
    BreadCell(toks, st, pp, ret);
    SpanUnfold(toks);
    EventsUnfold(toks);
    SlotFilled(rest, st1, Car(b), 1);
    BreadFate(rest, st1, Car(b), 1, pre, a);
    var left := Bread(rest, st1, Car(b), 1);
    var ev := pre + Events(rest);
    if !left.Done? {
      assert pre + Events(toks) == ev + Events(toks)[|Events(rest)|..];
      StopsMore(ev, Events(toks)[|Events(rest)|..], a, if left.Wild? then Strays else Refuses);
    } else {
      var m := Span(rest).value;
      SliceTwice(toks, 1, m);
      BreadFate(left.rest, left.st, Cdr(b), 0, ev, a);
      assert pre + Events(toks) == ev + Events(left.rest);
      var r := Bread(left.rest, left.st, Cdr(b), 0);
      if r.Done? {
        SliceTwice(toks, 1 + m, Span(left.rest).value);
      }
    }
  }

  lemma CellAgrees(st: Memory, pp: Slot, pre: seq<Event>, a: Table)
    requires Agree(st, pre, a)
    ensures Agree(NewCons(st, pp), pre, a)
  {
    hide IsClosed;
  }

  lemma SpanUnfold(toks: seq<Token>)
    ensures toks == [] ==> Span(toks) == None
    ensures toks != [] && toks[0].DEF? ==>
      Span(toks) == if Span(toks[1..]).Some? then Some(1 + Span(toks[1..]).value) else None
    ensures toks != [] && toks[0].CONS? ==>
      Span(toks) ==
        if Span(toks[1..]).None? then None
        else
          var m := Span(toks[1..]).value;
          if Span(toks[1 + m..]).None? then None else Some(1 + m + Span(toks[1 + m..]).value)
    ensures toks != [] && !toks[0].DEF? && !toks[0].CONS? ==> Span(toks) == Some(1)
  {
    if toks != [] && toks[0].CONS? {
      SpanUnfoldCell(toks);
    }
  }

  lemma EventsUnfold(toks: seq<Token>)
    ensures toks != [] && toks[0].REF? ==> Events(toks) == [Use(toks[0].k)]
    ensures toks != [] && toks[0].DEF? ==>
      Events(toks) == Events(toks[1..]) + if Span(toks[1..]).Some? then [Close(toks[0].k, Bare(toks[1..]))] else []
    ensures toks != [] && toks[0].CONS? ==>
      Events(toks) ==
        Events(toks[1..]) + if Span(toks[1..]).Some? then Events(toks[1 + Span(toks[1..]).value..]) else []
  {
    hide Span, Bare;
    if toks != [] && toks[0].CONS? {
      EventsCell(toks, Span(toks[1..]));
    }
  }

  lemma EventsCell(toks: seq<Token>, m: Option<nat>)
    requires toks != [] && toks[0].CONS? && m == Span(toks[1..])
    ensures Events(toks) == Events(toks[1..]) + if m.Some? then Events(toks[1 + m.value..]) else []
  {
    hide Span, Bare;
  }

  lemma SpanUnfoldCell(toks: seq<Token>)
    requires toks != [] && toks[0].CONS?
    ensures Span(toks[1..]).None? ==> Span(toks) == None
    ensures Span(toks[1..]).Some? ==>
      var m := Span(toks[1..]).value;
      Span(toks) == if Span(toks[1 + m..]).None? then None else Some(1 + m + Span(toks[1 + m..]).value)
  {
    hide Span;
    if Span(toks[1..]).None? {
      SpanNone(toks);
    } else {
      var m := Span(toks[1..]).value;
      if Span(toks[1 + m..]).None? {
        SpanHalf(toks, m);
      } else {
        SpanStep(toks, m, Span(toks[1 + m..]).value);
      }
    }
  }

  lemma SpanNone(toks: seq<Token>)
    requires toks != [] && toks[0].CONS? && Span(toks[1..]).None?
    ensures Span(toks) == None
  {
  }

  lemma SpanHalf(toks: seq<Token>, m: nat)
    requires toks != [] && toks[0].CONS? && 1 + m <= |toks| && Span(toks[1..]) == Some(m) && Span(toks[1 + m..]).None?
    ensures Span(toks) == None
  {
  }

  // ------------------------------------------------------ whole reads

  /** The table a read of n relocations starts with. */
  function Prepared(st: Memory, n: nat): Table { Table(n, Begin(st, n).spare) }

  lemma BeginFate(f: Stream, st: Memory)
    ensures Fated(f.toks, [], Prepared(st, f.relocn), 1, Bread(f.toks, Begin(st, f.relocn), Root, 1))
  {
    var a := Prepared(st, f.relocn);
    BreadFate(f.toks, Begin(st, f.relocn), Root, 1, [], a);
  }

  /** A read goes astray, outside the arrays or through a pointer left in them, exactly
      when that is what its first event to fail leads to. */
  lemma CrashIff(f: Stream, st: Memory)
    ensures ReadStream(f, st).Crash? <==>
      f.relocn <= MAX_RELOCS && Stops(Events(f.toks), Prepared(st, f.relocn), Strays)
  {
    hide Bread, Events, Stops, AllPass, Agree;
    BeginFate(f, st);
    assert [] + Events(f.toks) == Events(f.toks);
    OneOutcome(f, st);
  }

  /** A read succeeds exactly when every event passes and every relocation is closed. */
  lemma AcceptIff(f: Stream, st: Memory)
    ensures ReadStream(f, st).Answer? <==>
      && f.relocn <= MAX_RELOCS && AllPass(Events(f.toks), Prepared(st, f.relocn))
      && forall k: nat :: k < f.relocn ==> IsClosed(Events(f.toks), k)
  {
    hide Bread, Events, Stops, AllPass, IsClosed;
    BeginFate(f, st);
    assert [] + Events(f.toks) == Events(f.toks);
    OneOutcome(f, st);
  }

  lemma OneOutcome(f: Stream, st: Memory)
    ensures var ev, a := Events(f.toks), Prepared(st, f.relocn);
      && !(AllPass(ev, a) && Stops(ev, a, Refuses)) && !(AllPass(ev, a) && Stops(ev, a, Strays))
      && !(Stops(ev, a, Refuses) && Stops(ev, a, Strays))
  {
    var ev, a := Events(f.toks), Prepared(st, f.relocn);
    hide AllPass, Stops;
    if Stops(ev, a, Refuses) {
      OneFate(ev, a, Refuses);
    }
    if Stops(ev, a, Strays) {
      OneFate(ev, a, Strays);
    }
  }

  lemma {:induction false} ClosesAreDefs(toks: seq<Token>)
    ensures forall e :: e in Events(toks) && e.Close? ==> DEF(e.k) in toks
    decreases |toks|
  {
    if toks != [] && (toks[0].DEF? || toks[0].CONS?) {
      ClosesAreDefs(toks[1..]);
      if toks[0].CONS? && Span(toks[1..]).Some? {
        ClosesAreDefs(toks[1 + Span(toks[1..]).value..]);
      }
    }
  }

  lemma NoneStrays(ev: seq<Event>, a: Table)
    requires forall e :: e in ev && e.Close? ==> e.k < a.limit
    ensures !Stops(ev, a, Strays)
  {
    forall i: nat ensures !StopsAt(ev, i, a, Strays) {
      if i < |ev| {
        assert ev[i] in ev;
      }
    }
  }

  /** Any token list: when every definition is of a relocation in use, nothing goes astray. */
  lemma ReadInBounds(f: Stream, st: Memory)
    requires forall k: nat :: DEF(k) in f.toks ==> k < f.relocn
    ensures !ReadStream(f, st).Crash?
  {
    hide Events, ReadStream, Stops;
    CrashIff(f, st);
    ClosesAreDefs(f.toks);
    NoneStrays(Events(f.toks), Prepared(st, f.relocn));
  }

  /** Every reference of the object is used. */
  lemma {:induction false} RefsAreUsed(toks: seq<Token>, i: nat)
    requires Span(toks).Some? && i < Span(toks).value && toks[i].REF?
    ensures Use(toks[i].k) in Events(toks)
    decreases |toks|
  {
    hide Span, Events;
    SpanUnfold(toks);
    SpanAtom(toks);
    EventsUnfold(toks);
    if i > 0 {
      if toks[0].DEF? {
        RefsAreUsed(toks[1..], i - 1);
      } else {
        var m := Span(toks[1..]).value;
        if i <= m {
          RefsAreUsed(toks[1..], i - 1);
        } else {
          RefsAreUsed(toks[1 + m..], i - 1 - m);
        }
      }
    }
  }

  lemma SpanAtom(toks: seq<Token>)
    ensures Span(toks).Some? ==> toks != [] && (!toks[0].DEF? && !toks[0].CONS? ==> Span(toks).value == 1)
  {
  }

  lemma AcceptedRefs(f: Stream, st: Memory, i: nat)
    requires ReadStream(f, st).Answer? && Span(f.toks).Some? && i < Span(f.toks).value && f.toks[i].REF?
    ensures f.toks[i].k < f.relocn
  {
    hide Events, Span, ReadStream;
    AcceptIff(f, st);
    RefsAreUsed(f.toks, i);
    var ev := Events(f.toks);
    var j :| 0 <= j < |ev| && ev[j] == Use(f.toks[i].k);
  }
}
