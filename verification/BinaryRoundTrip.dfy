/** Reading back what was written rebuilds the graph. */
module BinaryRoundTrip {
  import opened Basics
  import opened BinaryGraph
  import opened BinaryReloc
  import opened BinaryWriter
  import opened BinaryReader
  import opened BinaryFates

  /** The reader's bookkeeping seen from the written graph: the copy of each node,
      the node each filled slot stands for, the slots waiting on each relocation,
      and the references that do not come from slots (the symbol table's). */
  datatype View = View(phi: map<Ref, nat>, filled: map<Slot, Ref>, chains: seq<seq<Slot>>, base: map<nat, int>)

  /** The chain from h runs through exactly these slots. */
  ghost predicate IsChain(mem: map<Slot, Word>, h: Word, ss: seq<Slot>)
    decreases |ss|
  {
    if ss == [] then h == Null
    else h == Link(ss[0]) && ss[0] in mem && ss[0] !in ss[1..] && IsChain(mem, mem[ss[0]], ss[1..])
  }

  ghost function Holders(mem: map<Slot, Word>, a: nat): set<Slot> { set s | s in mem && mem[s] == At(a) }

  /** The copies so far are distinct objects of the right kind. */
  ghost predicate Copied(g: Graph, st: Memory, phi: map<Ref, nat>) {
    && phi.Keys <= g.Keys
    && (forall m, n :: m in phi && n in phi && phi[m] == phi[n] ==> m == n)
    && (forall n :: n in phi ==> phi[n] in st.kind && st.kind[phi[n]] == if g[n].Cons? then KCons else KAtom(g[n]))
    && (forall n :: n in phi && g[n].Cons? ==> Car(phi[n]) in st.mem && Cdr(phi[n]) in st.mem)
    && (forall n :: n in phi && g[n].Symbol? ==> g[n].name in st.symtab && st.symtab[g[n].name] == phi[n])
  }

  /** Addresses are allocated below next, counted, and symbols are in the table. */
  ghost predicate Allocated(st: Memory) {
    && st.kind.Keys == st.count.Keys
    && (forall a :: a in st.kind ==> a < st.next)
    && (forall s :: s in st.symtab ==> st.symtab[s] in st.kind && st.kind[st.symtab[s]] == KAtom(Symbol(s)))
    && (forall s :: s in st.mem && !s.Root? ==> s.a < st.next && s.a in st.kind && st.kind[s.a].KCons?)
  }

  ghost predicate Pending(t: seq<Ref>, st: Memory, v: View, s: Slot)
    requires |v.chains| == |t|
  {
    s in v.filled && v.filled[s] in t && s in v.chains[Index(t, v.filled[s])]
  }

  /** A filled slot holds NIL, the copy of its node, or its place in a chain. */
  ghost predicate SlotGood(g: Graph, t: seq<Ref>, st: Memory, v: View, s: Slot)
    requires |v.chains| == |t|
  {
    s in st.mem &&
    if s !in v.filled then st.mem[s] == Null
    else if v.filled[s] == 0 then st.mem[s] == Null
    else v.filled[s] in v.phi && (st.mem[s] == At(v.phi[v.filled[s]]) || Pending(t, st, v, s))
  }

  ghost predicate RelocGood(t: seq<Ref>, st: Memory, v: View, k: nat)
    requires k < |t| == |v.chains| == |st.relocp| == |st.relocf|
  {
    match st.relocf[k]
    case EMPTY => st.relocp[k] == Null && v.chains[k] == []
    case REFD =>
      && t[k] in v.phi && IsChain(st.mem, st.relocp[k], v.chains[k])
      && forall s :: s in v.chains[k] ==> s in v.filled && v.filled[s] == t[k]
    case DEFD => t[k] in v.phi && st.relocp[k] == At(v.phi[t[k]]) && v.chains[k] == []
  }

  ghost predicate Targets(g: Graph, v: View) {
    forall n :: n in v.phi && n in g && g[n].Cons? ==>
      && (Car(v.phi[n]) in v.filled ==> v.filled[Car(v.phi[n])] == g[n].car)
      && (Cdr(v.phi[n]) in v.filled ==> v.filled[Cdr(v.phi[n])] == g[n].cdr)
  }

  ghost predicate Counted(st: Memory, v: View) {
    v.base.Keys == st.count.Keys &&
    forall a :: a in st.count ==> st.count[a] == v.base[a] + |Holders(st.mem, a)|
  }

  ghost predicate Inv(g: Graph, t: seq<Ref>, st: Memory, v: View) {
    && Closed(g) && Interned(g) && 0 !in t
    && (forall i, j :: 0 <= i < j < |t| ==> t[i] != t[j])
    && |t| == |v.chains| == |st.relocp| == |st.relocf|
    && Copied(g, st, v.phi) && Allocated(st)
    && v.filled.Keys <= st.mem.Keys
    && (forall s :: s in st.mem ==> SlotGood(g, t, st, v, s))
    && (forall k :: 0 <= k < |t| ==> RelocGood(t, st, v, k))
    && Targets(g, v)
    && Counted(st, v)
  }

  // ------------------------------------------------ small steps on slots

  lemma {:induction false} ChainFrame(m: map<Slot, Word>, n: map<Slot, Word>, h: Word, ss: seq<Slot>)
    requires IsChain(m, h, ss)
    requires forall s :: s in ss ==> s in m && s in n && n[s] == m[s]
    ensures IsChain(n, h, ss)
    decreases |ss|
  {
    if ss != [] {
      ChainFrame(m, n, m[ss[0]], ss[1..]);
    }
  }

  /** One slot goes from another word to w. */
  lemma HoldersStore(m: map<Slot, Word>, pp: Slot, w: Word, a: nat)
    requires pp in m && m[pp] != At(a)
    ensures |Holders(m[pp := w], a)| == |Holders(m, a)| + if w == At(a) then 1 else 0
  {
    if w == At(a) {
      assert Holders(m[pp := w], a) == Holders(m, a) + {pp};
    } else {
      assert Holders(m[pp := w], a) == Holders(m, a);
    }
  }

  /** The node that the graph puts in slot pp. */
  ghost predicate Fits(g: Graph, phi: map<Ref, nat>, pp: Slot, p: Ref) {
    forall n :: n in phi && n in g && g[n].Cons? ==>
      && (pp == Car(phi[n]) ==> p == g[n].car)
      && (pp == Cdr(phi[n]) ==> p == g[n].cdr)
  }

  /** Slot pp, not filled yet, receives w and stands for p from now on. */
  ghost predicate Fills(st: Memory, v: View, pp: Slot, p: Ref, w: Word, st': Memory, v': View) {
    && pp in st.mem && pp !in v.filled
    && st'.mem == st.mem[pp := w] && st'.kind == st.kind && st'.symtab == st.symtab && st'.next == st.next
    && v'.phi == v.phi && v'.base == v.base && v'.filled == v.filled[pp := p]
    && |v'.chains| == |v.chains|
    && forall k :: 0 <= k < |v.chains| ==> forall s :: s in v.chains[k] ==> s in v'.chains[k]
  }

  lemma FillKeepsObjects(g: Graph, st: Memory, v: View, pp: Slot, p: Ref, w: Word, st': Memory, v': View)
    requires Fills(st, v, pp, p, w, st', v') && Copied(g, st, v.phi) && Allocated(st)
    requires Targets(g, v) && Fits(g, v.phi, pp, p) && st'.count.Keys == st.count.Keys
    ensures Copied(g, st', v'.phi) && Allocated(st') && Targets(g, v')
  {
  }

  lemma FillKeepsSlots(g: Graph, t: seq<Ref>, st: Memory, v: View, pp: Slot, p: Ref, w: Word, st': Memory, v': View)
    requires Fills(st, v, pp, p, w, st', v') && |v.chains| == |t|
    requires forall s :: s in st.mem ==> SlotGood(g, t, st, v, s)
    requires SlotGood(g, t, st', v', pp)
    ensures forall s :: s in st'.mem ==> SlotGood(g, t, st', v', s)
  {
    forall s | s in st'.mem ensures SlotGood(g, t, st', v', s) {
      if s != pp {
        assert SlotGood(g, t, st, v, s);
      }
    }
  }

  /** A relocation whose chain and entry did not change stays good. */
  lemma FillKeepsReloc(t: seq<Ref>, st: Memory, v: View, pp: Slot, p: Ref, w: Word, st': Memory, v': View, k: nat)
    requires Fills(st, v, pp, p, w, st', v')
    requires k < |t| == |v.chains| == |st.relocp| == |st.relocf| == |st'.relocp| == |st'.relocf|
    requires RelocGood(t, st, v, k)
    requires st'.relocp[k] == st.relocp[k] && st'.relocf[k] == st.relocf[k] && v'.chains[k] == v.chains[k]
    ensures RelocGood(t, st', v', k)
  {
    if st.relocf[k] == REFD {
      ChainInMemory(st.mem, st.relocp[k], v.chains[k]);
      ChainFrame(st.mem, st'.mem, st.relocp[k], v.chains[k]);
    }
  }

  lemma {:induction false} ChainInMemory(m: map<Slot, Word>, h: Word, ss: seq<Slot>)
    requires IsChain(m, h, ss)
    ensures forall s :: s in ss ==> s in m && !m[s].At?
    decreases |ss|
  {
    if ss != [] {
      ChainInMemory(m, m[ss[0]], ss[1..]);
      assert forall s :: s in ss ==> s == ss[0] || s in ss[1..];
      assert m[ss[0]] == if ss[1..] == [] then Null else Link(ss[1..][0]);
    }
  }

  lemma FillKeepsCounts(st: Memory, v: View, pp: Slot, p: Ref, w: Word, st': Memory, v': View)
    requires Fills(st, v, pp, p, w, st', v') && Counted(st, v)
    requires st.mem[pp] == Null && st'.count == Lock(st.count, w) && (w.At? ==> w.a in st.count)
    ensures Counted(st', v')
  {
    forall a | a in st'.count ensures st'.count[a] == v'.base[a] + |Holders(st'.mem, a)| {
      HoldersStore(st.mem, pp, w, a);
    }
  }

  // ------------------------------------------------- what a token does

  /** NIL */
  lemma StoreNull(g: Graph, t: seq<Ref>, st: Memory, v: View, pp: Slot)
    requires Inv(g, t, st, v) && pp in st.mem && pp !in v.filled && Fits(g, v.phi, pp, 0)
    ensures Inv(g, t, Store(st, pp, Null), v.(filled := v.filled[pp := 0]))
  {
    hide Copied, Allocated, Targets, Counted;
    var st', v' := Store(st, pp, Null), v.(filled := v.filled[pp := 0]);
    assert SlotGood(g, t, st, v, pp);
    FillKeepsObjects(g, st, v, pp, 0, Null, st', v');
    FillKeepsSlots(g, t, st, v, pp, 0, Null, st', v');
    forall k | 0 <= k < |t| ensures RelocGood(t, st', v', k) {
      FillKeepsReloc(t, st, v, pp, 0, Null, st', v', k);
    }
    FillKeepsCounts(st, v, pp, 0, Null, st', v');
  }

  /** A copy that exists. */
  lemma StoreCopy(g: Graph, t: seq<Ref>, st: Memory, v: View, pp: Slot, p: Ref)
    requires Inv(g, t, st, v) && pp in st.mem && pp !in v.filled && p in v.phi && Fits(g, v.phi, pp, p)
    ensures Inv(g, t, Store(st, pp, At(v.phi[p])).(count := Lock(st.count, At(v.phi[p]))),
                v.(filled := v.filled[pp := p]))
  {
    hide Copied, Allocated, Targets, Counted;
    InvOne(g, t, st, v, p);
    var w := At(v.phi[p]);
    var st', v' := Store(st, pp, w).(count := Lock(st.count, w)), v.(filled := v.filled[pp := p]);
    assert SlotGood(g, t, st, v, pp);
    FillKeepsObjects(g, st, v, pp, p, w, st', v');
    FillKeepsSlots(g, t, st, v, pp, p, w, st', v');
    forall i | 0 <= i < |t| ensures RelocGood(t, st', v', i) {
      FillKeepsReloc(t, st, v, pp, p, w, st', v', i);
    }
    FillKeepsCounts(st, v, pp, p, w, st', v');
  }

  /** REF to an object that is still being read. */
  lemma StorePending(g: Graph, t: seq<Ref>, st: Memory, v: View, pp: Slot, k: nat)
    requires Inv(g, t, st, v) && pp in st.mem && pp !in v.filled && k < |t| && st.relocf[k] != DEFD
    requires t[k] in v.phi && Fits(g, v.phi, pp, t[k])
    ensures Inv(g, t,
      Store(st, pp, st.relocp[k]).(relocp := st.relocp[k := Link(pp)], relocf := st.relocf[k := REFD]),
      v.(filled := v.filled[pp := t[k]], chains := v.chains[k := [pp] + v.chains[k]]))
  {
    hide Copied, Allocated, Targets, Counted;
    var w := st.relocp[k];
    var st' := Store(st, pp, w).(relocp := st.relocp[k := Link(pp)], relocf := st.relocf[k := REFD]);
    var v' := v.(filled := v.filled[pp := t[k]], chains := v.chains[k := [pp] + v.chains[k]]);
    assert RelocGood(t, st, v, k) && SlotGood(g, t, st, v, pp);
    assert !w.At?;
    PendingRelocs(g, t, st, v, pp, k, st', v');
    FillKeepsObjects(g, st, v, pp, t[k], w, st', v');
    SameIndexOf(t, k);
    FillKeepsSlots(g, t, st, v, pp, t[k], w, st', v');
    FillKeepsCounts(st, v, pp, t[k], w, st', v');
  }

  lemma PendingRelocs(g: Graph, t: seq<Ref>, st: Memory, v: View, pp: Slot, k: nat, st': Memory, v': View)
    requires k < |t| == |v.chains| == |st.relocp| == |st.relocf| == |st'.relocp| == |st'.relocf|
    requires pp in st.mem && pp !in v.filled && st.relocf[k] != DEFD && t[k] in v.phi
    requires forall i :: 0 <= i < |t| ==> RelocGood(t, st, v, i)
    requires st' == Store(st, pp, st.relocp[k]).(relocp := st.relocp[k := Link(pp)], relocf := st.relocf[k := REFD])
    requires v' == v.(filled := v.filled[pp := t[k]], chains := v.chains[k := [pp] + v.chains[k]])
    ensures forall i :: 0 <= i < |t| ==> RelocGood(t, st', v', i)
  {
    forall i | 0 <= i < |t| ensures RelocGood(t, st', v', i) {
      if i == k {
        ChainGrows(t, st, v, pp, st', v', k);
      } else {
        FillKeepsReloc(t, st, v, pp, t[k], st.relocp[k], st', v', i);
      }
    }
  }

  lemma ChainGrows(t: seq<Ref>, st: Memory, v: View, pp: Slot, st': Memory, v': View, k: nat)
    requires k < |t| == |v.chains| == |st.relocp| == |st.relocf| == |st'.relocp| == |st'.relocf|
    requires RelocGood(t, st, v, k) && st.relocf[k] != DEFD && t[k] in v.phi && |v'.chains| == |t|
    requires pp !in v.filled && v'.filled == v.filled[pp := t[k]] && v'.phi == v.phi
    requires st'.mem == st.mem[pp := st.relocp[k]] && v'.chains[k] == [pp] + v.chains[k]
    requires st'.relocp[k] == Link(pp) && st'.relocf[k] == REFD
    ensures RelocGood(t, st', v', k)
  {
    assert IsChain(st.mem, st.relocp[k], v.chains[k]);
    ChainInMemory(st.mem, st.relocp[k], v.chains[k]);
    ChainFrame(st.mem, st'.mem, st.relocp[k], v.chains[k]);
    assert v'.chains[k][1..] == v.chains[k];
  }

  lemma SameIndexOf(t: seq<Ref>, k: nat)
    requires k < |t| && forall i, j :: 0 <= i < j < |t| ==> t[i] != t[j]
    ensures Index(t, t[k]) == k
  {
  }

  // ------------------------------------------------------- new objects

  /** Node p gets its copy at address a; fields of the copy start empty. */
  ghost predicate Adds(g: Graph, st: Memory, v: View, p: Ref, a: nat, st': Memory, v': View) {
    && p in g && p !in v.phi && v' == v.(phi := v.phi[p := a], base := v'.base)
    && st' == st.(mem := st'.mem, count := st'.count, kind := st'.kind, symtab := st'.symtab, next := st'.next)
    && (forall s :: s in st.mem ==> s in st'.mem && st'.mem[s] == st.mem[s])
    && (forall s :: s in st'.mem && s !in st.mem ==> st'.mem[s] == Null && s !in v.filled)
  }

  lemma AddKeepsSlots(g: Graph, t: seq<Ref>, st: Memory, v: View, p: Ref, a: nat, st': Memory, v': View)
    requires Inv(g, t, st, v) && Adds(g, st, v, p, a, st', v')
    ensures forall s :: s in st'.mem ==> SlotGood(g, t, st', v', s)
    ensures forall k :: 0 <= k < |t| ==> RelocGood(t, st', v', k)
  {
    forall s | s in st'.mem ensures SlotGood(g, t, st', v', s) {
      if s in st.mem {
        assert SlotGood(g, t, st, v, s);
      }
    }
    forall k | 0 <= k < |t| ensures RelocGood(t, st', v', k) {
      assert RelocGood(t, st, v, k);
      if st.relocf[k] == REFD {
        ChainInMemory(st.mem, st.relocp[k], v.chains[k]);
        ChainFrame(st.mem, st'.mem, st.relocp[k], v.chains[k]);
      }
    }
  }

  /** Slots that appear empty hold nothing. */
  lemma AddKeepsHolders(m: map<Slot, Word>, n: map<Slot, Word>, a: nat)
    requires forall s :: s in m ==> s in n && n[s] == m[s]
    requires forall s :: s in n && s !in m ==> n[s] == Null
    ensures Holders(n, a) == Holders(m, a)
  {
  }

  /** No slot holds an address the allocator has not handed out. */
  lemma NothingHeldYet(g: Graph, t: seq<Ref>, st: Memory, v: View)
    requires Inv(g, t, st, v)
    ensures Holders(st.mem, st.next) == {}
  {
    forall s | s in st.mem ensures st.mem[s] != At(st.next) {
      hide Targets, Counted, RelocGood, IsChain;
      assert SlotGood(g, t, st, v, s);
      if Pending(t, st, v, s) {
        var k := Index(t, v.filled[s]);
        assert RelocGood(t, st, v, k);
        WaitsForDef(t, st, v, k, s);
      }
    }
  }

  /** A slot in a chain holds no copy. */
  lemma WaitsForDef(t: seq<Ref>, st: Memory, v: View, k: nat, s: Slot)
    requires k < |t| == |v.chains| == |st.relocp| == |st.relocf| && RelocGood(t, st, v, k) && s in v.chains[k]
    ensures s in st.mem && !st.mem[s].At?
  {
    ChainInMemory(st.mem, st.relocp[k], v.chains[k]);
  }

  function CellFor(st: Memory): Memory {
    var a := st.next;
    st.(mem := st.mem[Car(a) := Null][Cdr(a) := Null], count := st.count[a := 0],
        kind := st.kind[a := KCons], next := a + 1)
  }

  function AtomFor(st: Memory, n: Node, refs: int): Memory {
    var a := st.next;
    st.(count := st.count[a := refs], kind := st.kind[a := KAtom(n)], next := a + 1,
        symtab := if n.Symbol? then st.symtab[n.name := a] else st.symtab)
  }

  lemma CellObjects(g: Graph, st: Memory, v: View, p: Ref, v': View)
    requires Copied(g, st, v.phi) && Allocated(st) && Targets(g, v) && v.filled.Keys <= st.mem.Keys
    requires p in g && p !in v.phi && g[p].Cons?
    ensures Copied(g, CellFor(st), v.phi[p := st.next]) && Allocated(CellFor(st))
    ensures v'.phi == v.phi[p := st.next] && v'.filled == v.filled ==> Targets(g, v')
    ensures Car(st.next) !in st.mem && Cdr(st.next) !in st.mem
  {
    hide Copied;
    OneCopyMore(g, st, v.phi, p, CellFor(st));
  }

  lemma AtomObjects(g: Graph, st: Memory, v: View, p: Ref, refs: int, v': View)
    requires Copied(g, st, v.phi) && Allocated(st) && Targets(g, v)
    requires p in g && p !in v.phi && !g[p].Cons? && (g[p].Symbol? ==> g[p].name !in st.symtab)
    ensures Copied(g, AtomFor(st, g[p], refs), v.phi[p := st.next]) && Allocated(AtomFor(st, g[p], refs))
    ensures v'.phi == v.phi[p := st.next] && v'.filled == v.filled ==> Targets(g, v')
  {
    hide Copied, Allocated, Targets;
    AllBelow(st);
    OneCopyMore(g, st, v.phi, p, AtomFor(st, g[p], refs));
    AtomAllocated(st, g[p], refs);
    if v'.phi == v.phi[p := st.next] && v'.filled == v.filled {
      AtomTargets(g, v, p, st.next, v');
    }
  }

  lemma AllBelow(st: Memory)
    requires Allocated(st)
    ensures forall a :: a in st.kind ==> a < st.next
  {
  }

  lemma AtomAllocated(st: Memory, n: Node, refs: int)
    requires Allocated(st) && (n.Symbol? ==> n.name !in st.symtab)
    ensures Allocated(AtomFor(st, n, refs))
  {
  }

  lemma AtomTargets(g: Graph, v: View, p: Ref, a: nat, v': View)
    requires Targets(g, v) && p !in v.phi && p in g && !g[p].Cons?
    requires v'.phi == v.phi[p := a] && v'.filled == v.filled
    ensures Targets(g, v')
  {
  }

  /** One more copy, at a new address. */
  lemma OneCopyMore(g: Graph, st: Memory, phi: map<Ref, nat>, p: Ref, st': Memory)
    requires Copied(g, st, phi) && p in g && p !in phi && forall a :: a in st.kind ==> a < st.next
    requires st'.kind == st.kind[st.next := if g[p].Cons? then KCons else KAtom(g[p])]
    requires forall s :: s in st.mem ==> s in st'.mem
    requires g[p].Cons? ==> Car(st.next) in st'.mem && Cdr(st.next) in st'.mem
    requires forall s :: s in st.symtab && (g[p].Symbol? ==> s != g[p].name) ==>
      s in st'.symtab && st'.symtab[s] == st.symtab[s]
    requires g[p].Symbol? ==> g[p].name !in st.symtab && g[p].name in st'.symtab && st'.symtab[g[p].name] == st.next
    ensures Copied(g, st', phi[p := st.next])
  {
  }

  lemma AddCounts(st: Memory, v: View, st': Memory, v': View, refs: int)
    requires Counted(st, v) && st.next !in st.count && Holders(st.mem, st.next) == {}
    requires st'.count == st.count[st.next := refs] && v'.base == v.base[st.next := refs]
    requires forall s :: s in st.mem ==> s in st'.mem && st'.mem[s] == st.mem[s]
    requires forall s :: s in st'.mem && s !in st.mem ==> st'.mem[s] == Null
    ensures Counted(st', v')
  {
    forall b | b in st'.count ensures st'.count[b] == v'.base[b] + |Holders(st'.mem, b)| {
      AddKeepsHolders(st.mem, st'.mem, b);
    }
  }

  lemma AddCell(g: Graph, t: seq<Ref>, st: Memory, v: View, p: Ref)
    requires Inv(g, t, st, v) && p in g && p !in v.phi && g[p].Cons?
    ensures Inv(g, t, CellFor(st), v.(phi := v.phi[p := st.next], base := v.base[st.next := 0]))
  {
    hide Copied, Targets, Counted, SlotGood, RelocGood;
    var v' := v.(phi := v.phi[p := st.next], base := v.base[st.next := 0]);
    CellObjects(g, st, v, p, v');
    NothingHeldYet(g, t, st, v);
    AddCounts(st, v, CellFor(st), v', 0);
    AddKeepsSlots(g, t, st, v, p, st.next, CellFor(st), v');
  }

  lemma AddAtom(g: Graph, t: seq<Ref>, st: Memory, v: View, p: Ref, refs: int)
    requires Inv(g, t, st, v) && p in g && p !in v.phi && !g[p].Cons?
    requires g[p].Symbol? ==> g[p].name !in st.symtab
    ensures Inv(g, t, AtomFor(st, g[p], refs), v.(phi := v.phi[p := st.next], base := v.base[st.next := refs]))
  {
    hide Copied, Targets, Counted, SlotGood, RelocGood;
    var v' := v.(phi := v.phi[p := st.next], base := v.base[st.next := refs]);
    AtomObjects(g, st, v, p, refs, v');
    NothingHeldYet(g, t, st, v);
    AddCounts(st, v, AtomFor(st, g[p], refs), v', refs);
    AddKeepsSlots(g, t, st, v, p, st.next, AtomFor(st, g[p], refs), v');
  }

  /** A symbol the table knows already. */
  lemma KnowSymbol(g: Graph, t: seq<Ref>, st: Memory, v: View, p: Ref)
    requires Inv(g, t, st, v) && p in g && p !in v.phi && g[p].Symbol? && g[p].name in st.symtab
    ensures Inv(g, t, st, v.(phi := v.phi[p := st.symtab[g[p].name]]))
  {
    hide Copied, Targets, Counted, SlotGood, RelocGood;
    SymbolObjects(g, st, v, p);
    CountsIgnorePhi(st, v, v.(phi := v.phi[p := st.symtab[g[p].name]]));
    AddKeepsSlots(g, t, st, v, p, st.symtab[g[p].name], st, v.(phi := v.phi[p := st.symtab[g[p].name]]));
  }

  lemma CountsIgnorePhi(st: Memory, v: View, v': View)
    requires Counted(st, v) && v'.base == v.base
    ensures Counted(st, v')
  {
  }

  lemma SymbolObjects(g: Graph, st: Memory, v: View, p: Ref)
    requires Interned(g) && Copied(g, st, v.phi) && Allocated(st) && Targets(g, v)
    requires p in g && p !in v.phi && g[p].Symbol? && g[p].name in st.symtab
    ensures Copied(g, st, v.phi[p := st.symtab[g[p].name]])
    ensures Targets(g, v.(phi := v.phi[p := st.symtab[g[p].name]]))
  {
    forall m | m in v.phi ensures v.phi[m] != st.symtab[g[p].name] {
      assert g[m] != g[p];
    }
  }

  // ------------------------------------------------------- a definition

  /** Patching a chain of waiting slots: every one of them, and nothing else, now
      holds the copy, and the count of the copy grew by as many. */
  lemma {:induction false} PatchChain(mem: map<Slot, Word>, count: map<nat, int>, h: Word, ss: seq<Slot>, a: nat)
    requires IsChain(mem, h, ss) && a in count
    ensures var r := Patch(mem, count, h, At(a));
            && r.0.Keys == mem.Keys && r.1.Keys == count.Keys
            && (forall s :: s in mem ==> r.0[s] == if s in ss then At(a) else mem[s])
            && (forall b :: b in count ==> r.1[b] - |Holders(r.0, b)| == count[b] - |Holders(mem, b)|)
    decreases |ss|
  {
    if ss != [] {
      var s0, mem', count' := ss[0], mem[ss[0] := At(a)], Lock(count, At(a));
      ChainInMemory(mem, h, ss);
      forall b | b in count ensures count'[b] - |Holders(mem', b)| == count[b] - |Holders(mem, b)| {
        HoldersStore(mem, s0, At(a), b);
      }
      assert forall s :: s in ss <==> s == s0 || s in ss[1..];
      ChainFrame(mem, mem', mem[s0], ss[1..]);
      PatchChain(mem', count', mem[s0], ss[1..], a);
    }
  }

  lemma CompleteEffect(t: seq<Ref>, st: Memory, v: View, k: nat)
    requires k < |t| == |v.chains| == |st.relocp| == |st.relocf|
    requires RelocGood(t, st, v, k) && st.relocf[k] != DEFD && t[k] in v.phi
    requires v.phi[t[k]] in st.count && Counted(st, v)
    ensures var a := v.phi[t[k]];
            var st' := Complete(st, k, At(a));
            && st' == st.(mem := st'.mem, count := st'.count,
                          relocp := st.relocp[k := At(a)], relocf := st.relocf[k := DEFD])
            && st'.mem.Keys == st.mem.Keys && st'.count.Keys == st.count.Keys
            && (forall s :: s in st.mem ==> st'.mem[s] == if s in v.chains[k] then At(a) else st.mem[s])
            && (forall s :: s in v.chains[k] ==> s in st.mem && !st.mem[s].At? && s in v.filled && v.filled[s] == t[k])
            && Counted(st', v)
  {
    var a := v.phi[t[k]];
    assert IsChain(st.mem, st.relocp[k], v.chains[k]);
    PatchChain(st.mem, st.count, st.relocp[k], v.chains[k], a);
    ChainInMemory(st.mem, st.relocp[k], v.chains[k]);
    var r := Patch(st.mem, st.count, st.relocp[k], At(a));
    assert Complete(st, k, At(a)).mem == r.0 && Complete(st, k, At(a)).count == r.1;
  }

  lemma SameObjects(g: Graph, st: Memory, v: View, st': Memory, v': View)
    requires Copied(g, st, v.phi) && Allocated(st) && Targets(g, v)
    requires v'.phi == v.phi && v'.filled == v.filled
    requires st'.mem.Keys == st.mem.Keys && st'.count.Keys == st.count.Keys
    requires st'.kind == st.kind && st'.symtab == st.symtab && st'.next == st.next
    ensures Copied(g, st', v'.phi) && Allocated(st') && Targets(g, v')
  {
  }

  /** DEF: the object in construction is complete. */
  lemma CompleteKeeps(g: Graph, t: seq<Ref>, st: Memory, v: View, k: nat)
    requires Inv(g, t, st, v) && k < |t| && st.relocf[k] != DEFD && t[k] in v.phi
    ensures var st' := Complete(st, k, At(v.phi[t[k]]));
            && Inv(g, t, st', v.(chains := v.chains[k := []]))
            && (forall s :: s in st.mem && st.mem[s].At? ==> st'.mem[s] == st.mem[s])
            && st'.mem.Keys == st.mem.Keys && st'.relocf == st.relocf[k := DEFD]
  {
    hide Copied, Allocated, Targets, Counted;
    InvOne(g, t, st, v, t[k]);
    hide SlotGood;
    var st', v' := Complete(st, k, At(v.phi[t[k]])), v.(chains := v.chains[k := []]);
    assert RelocGood(t, st, v, k);
    CompleteEffect(t, st, v, k);
    CountsIgnorePhi(st', v, v');
    SameObjects(g, st, v, st', v');
    CompleteSlots(g, t, st, v, k, st', v');
    CompleteRelocs(g, t, st, v, k, st', v');
  }

  lemma CompleteSlots(g: Graph, t: seq<Ref>, st: Memory, v: View, k: nat, st': Memory, v': View)
    requires Inv(g, t, st, v) && k < |t| && t[k] in v.phi && v' == v.(chains := v.chains[k := []])
    requires st'.mem.Keys == st.mem.Keys
    requires forall s :: s in st.mem ==> st'.mem[s] == if s in v.chains[k] then At(v.phi[t[k]]) else st.mem[s]
    requires forall s :: s in v.chains[k] ==> s in v.filled && v.filled[s] == t[k]
    ensures forall s :: s in st'.mem ==> SlotGood(g, t, st', v', s)
  {
    SameIndexOf(t, k);
    forall s | s in st'.mem ensures SlotGood(g, t, st', v', s) {
      assert SlotGood(g, t, st, v, s);
    }
  }

  lemma CompleteRelocs(g: Graph, t: seq<Ref>, st: Memory, v: View, k: nat, st': Memory, v': View)
    requires Inv(g, t, st, v) && k < |t| && t[k] in v.phi && v' == v.(chains := v.chains[k := []])
    requires st'.relocp == st.relocp[k := At(v.phi[t[k]])] && st'.relocf == st.relocf[k := DEFD]
    requires st'.mem.Keys == st.mem.Keys
    requires forall s :: s in st.mem ==> st'.mem[s] == if s in v.chains[k] then At(v.phi[t[k]]) else st.mem[s]
    requires forall s :: s in v.chains[k] ==> s in v.filled && v.filled[s] == t[k]
    ensures forall i :: 0 <= i < |t| ==> RelocGood(t, st', v', i)
  {
    forall i | 0 <= i < |t| ensures RelocGood(t, st', v', i) {
      assert RelocGood(t, st, v, i);
      if i != k && st.relocf[i] == REFD {
        ChainInMemory(st.mem, st.relocp[i], v.chains[i]);
        assert t[i] != t[k];
        ChainFrame(st.mem, st'.mem, st.relocp[i], v.chains[i]);
      }
    }
  }

  // ------------------------------------------------------- whole reads

  /** From (st, v) to (st', v') the reader copied more nodes and, among the slots it
      found empty, filled at most those of A; the copies of the nodes of open may
      still have empty fields. */
  ghost predicate ExtendsSlots(g: Graph, st: Memory, v: View, st': Memory, v': View, A: set<Slot>, open: set<Ref>)
    requires v'.phi.Keys <= g.Keys
  {
    && (forall n :: n in v.phi ==> n in v'.phi && v'.phi[n] == v.phi[n])
    && (forall s :: s in v.filled ==> s in v'.filled && v'.filled[s] == v.filled[s])
    && (forall s :: s in st.mem ==> s in st'.mem)
    && (forall s :: s in st.mem && s in v.filled && st.mem[s].At? ==> st'.mem[s] == st.mem[s])
    && (forall s :: s in st.mem && s !in v.filled && s !in A ==> s !in v'.filled)
    && (forall s :: s in st'.mem && s !in st.mem ==>
          s in v'.filled || (!s.Root? && exists n :: n in open && n in v'.phi && v'.phi[n] == s.a))
    && (forall n :: n in v'.phi && n !in v.phi && n !in open && g[n].Cons? ==>
         Car(v'.phi[n]) in v'.filled && Cdr(v'.phi[n]) in v'.filled)
    && (forall a :: a in v.base ==> a in v'.base && v'.base[a] == v.base[a])
    && (forall n :: n in v'.phi && n !in v.phi && !g[n].Symbol? ==> v'.phi[n] in v'.base && v'.base[v'.phi[n]] == 0)
  }

  /** Every node copied in between is defined, except those of open. */
  ghost predicate ExtendsFlags(t: seq<Ref>, st: Memory, v: View, st': Memory, v': View, open: set<Ref>) {
    && |st.relocf| == |st'.relocf| == |t|
    && (forall k :: 0 <= k < |t| && (t[k] in v.phi || t[k] in open) ==>
          (st'.relocf[k] == DEFD <==> st.relocf[k] == DEFD))
    && (forall k :: 0 <= k < |t| && t[k] in v'.phi && t[k] !in v.phi && t[k] !in open ==> st'.relocf[k] == DEFD)
  }

  /** Objects keep their kind, symbols their object; what is new lies above all that
      was there, and starts with the one reference the symbol table keeps of a symbol. */
  ghost predicate ExtendsObjects(g: Graph, st: Memory, v: View, st': Memory, v': View)
    requires v'.phi.Keys <= g.Keys
  {
    && st.next <= st'.next
    && (forall a :: a in st.kind ==> a in st'.kind && st'.kind[a] == st.kind[a])
    && (forall s :: s in st.symtab ==> s in st'.symtab && st'.symtab[s] == st.symtab[s])
    && (forall s :: s in st'.symtab && s !in st.symtab ==> st'.symtab[s] >= st.next)
    && (forall a :: a in v'.base && a !in v.base ==>
         a in st'.kind && a >= st.next && v'.base[a] == TableRefs(st'.kind[a]))
    && (forall n :: n in v'.phi && n !in v.phi && !g[n].Symbol? ==> v'.phi[n] >= st.next)
  }

  function TableRefs(k: Kind): int { if k.KAtom? && k.n.Symbol? then 1 else 0 }

  ghost predicate Extends(g: Graph, t: seq<Ref>, st: Memory, v: View, st': Memory, v': View, A: set<Slot>,
                          open: set<Ref>)
    requires v'.phi.Keys <= g.Keys
  {
    && ExtendsSlots(g, st, v, st', v', A, open)
    && ExtendsFlags(t, st, v, st', v', open)
    && ExtendsObjects(g, st, v, st', v')
  }

  lemma ExtendsTwice(g: Graph, t: seq<Ref>, s0: Memory, v0: View, s1: Memory, v1: View, s2: Memory, v2: View,
                     A: set<Slot>, B: set<Slot>, open: set<Ref>)
    requires v1.phi.Keys <= g.Keys && v2.phi.Keys <= g.Keys && open <= v1.phi.Keys
    requires v1.filled.Keys <= s1.mem.Keys
    requires forall n :: n in v1.phi && n !in v0.phi && !g[n].Symbol? ==> v1.phi[n] in v1.base
    requires v1.base.Keys == s1.kind.Keys
    requires Extends(g, t, s0, v0, s1, v1, A, open) && Extends(g, t, s1, v1, s2, v2, B, {})
    ensures Extends(g, t, s0, v0, s2, v2, A + B, open)
  {
    hide ExtendsSlots, ExtendsFlags, ExtendsObjects;
    SlotsTwice(g, s0, v0, s1, v1, s2, v2, A, B, open);
    FlagsTwice(g, t, s0, v0, s1, v1, s2, v2, A, B, open);
    ObjectsTwice(g, s0, v0, s1, v1, s2, v2, A, B, open);
  }

  lemma SlotsTwice(g: Graph, s0: Memory, v0: View, s1: Memory, v1: View, s2: Memory, v2: View,
                   A: set<Slot>, B: set<Slot>, open: set<Ref>)
    requires v1.phi.Keys <= g.Keys && v2.phi.Keys <= g.Keys && open <= v1.phi.Keys
    requires v1.filled.Keys <= s1.mem.Keys
    requires forall n :: n in v1.phi && n !in v0.phi && !g[n].Symbol? ==> v1.phi[n] in v1.base
    requires ExtendsSlots(g, s0, v0, s1, v1, A, open) && ExtendsSlots(g, s1, v1, s2, v2, B, {})
    ensures ExtendsSlots(g, s0, v0, s2, v2, A + B, open)
  {
  }

  lemma FlagsTwice(g: Graph, t: seq<Ref>, s0: Memory, v0: View, s1: Memory, v1: View, s2: Memory, v2: View,
                   A: set<Slot>, B: set<Slot>, open: set<Ref>)
    requires v1.phi.Keys <= g.Keys && v2.phi.Keys <= g.Keys && open <= v1.phi.Keys
    requires ExtendsSlots(g, s0, v0, s1, v1, A, open) && ExtendsSlots(g, s1, v1, s2, v2, B, {})
    requires ExtendsFlags(t, s0, v0, s1, v1, open) && ExtendsFlags(t, s1, v1, s2, v2, {})
    ensures ExtendsFlags(t, s0, v0, s2, v2, open)
  {
  }

  lemma ObjectsTwice(g: Graph, s0: Memory, v0: View, s1: Memory, v1: View, s2: Memory, v2: View,
                     A: set<Slot>, B: set<Slot>, open: set<Ref>)
    requires v1.phi.Keys <= g.Keys && v2.phi.Keys <= g.Keys && v1.base.Keys == s1.kind.Keys
    requires ExtendsSlots(g, s0, v0, s1, v1, A, open) && ExtendsSlots(g, s1, v1, s2, v2, B, {})
    requires ExtendsObjects(g, s0, v0, s1, v1) && ExtendsObjects(g, s1, v1, s2, v2)
    ensures ExtendsObjects(g, s0, v0, s2, v2)
  {
  }

  /** What Extends says of one slot and one node. */
  lemma ExtendsOne(g: Graph, t: seq<Ref>, st: Memory, v: View, st': Memory, v': View, A: set<Slot>, open: set<Ref>,
                   s: Slot, n: Ref)
    requires v'.phi.Keys <= g.Keys && Extends(g, t, st, v, st', v', A, open)
    requires s in st.mem && n in v.phi
    ensures s in st'.mem && n in v'.phi && v'.phi[n] == v.phi[n]
    ensures s in v.filled ==> s in v'.filled && v'.filled[s] == v.filled[s]
    ensures s in v.filled && st.mem[s].At? ==> st'.mem[s] == st.mem[s]
    ensures s !in v.filled && s !in A ==> s !in v'.filled
  {
  }

  /** What Inv says of one node and its relocation. */
  lemma InvOne(g: Graph, t: seq<Ref>, st: Memory, v: View, p: Ref)
    requires Inv(g, t, st, v) && p in v.phi
    ensures p in g && v.phi.Keys <= g.Keys && v.phi[p] in st.kind && v.phi[p] in st.count && v.phi[p] < st.next
    ensures v.filled.Keys <= st.mem.Keys
    ensures g[p].Cons? ==> IsRef(g, g[p].car) && IsRef(g, g[p].cdr)
    ensures g[p].Cons? ==> Fits(g, v.phi, Car(v.phi[p]), g[p].car) && Fits(g, v.phi, Cdr(v.phi[p]), g[p].cdr)
    ensures p in t ==> var k := Index(t, p);
      && |st.relocf| == |st.relocp| == |v.chains| == |t|
      && (st.relocf[k] == DEFD ==> st.relocp[k] == At(v.phi[p]))
  {
    if p in t {
      assert RelocGood(t, st, v, Index(t, p));
    }
  }

  lemma FillExtends(g: Graph, t: seq<Ref>, st: Memory, v: View, pp: Slot, p: Ref, st': Memory, v': View)
    requires v.phi.Keys <= g.Keys && |st.relocf| == |st'.relocf| == |t| && v.filled.Keys <= st.mem.Keys
    requires pp in st.mem && pp !in v.filled && st'.mem.Keys == st.mem.Keys
    requires forall s :: s in st.mem && s != pp ==> st'.mem[s] == st.mem[s]
    requires v'.phi == v.phi && v'.base == v.base && v'.filled == v.filled[pp := p]
    requires forall k :: 0 <= k < |t| ==> (st'.relocf[k] == DEFD <==> st.relocf[k] == DEFD)
    requires st'.kind == st.kind && st'.symtab == st.symtab && st'.next == st.next
    ensures Extends(g, t, st, v, st', v', {pp}, {})
  {
  }

  /** Fills pp right after node p got its copy. */
  lemma AddExtends(g: Graph, t: seq<Ref>, st: Memory, v: View, pp: Slot, p: Ref, a: nat, st': Memory, v': View)
    requires v.phi.Keys <= g.Keys && p in g && p !in v.phi && |st.relocf| == |t| && v.filled.Keys <= st.mem.Keys
    requires pp in st.mem && pp !in v.filled && st'.relocf == st.relocf
    requires forall s :: s in st.mem ==> s in st'.mem && (s != pp ==> st'.mem[s] == st.mem[s])
    requires forall s :: s in st'.mem && s !in st.mem ==> !s.Root? && s.a == a
    requires v'.phi == v.phi[p := a] && v'.filled == v.filled[pp := p]
    requires forall b :: b in v.base ==> b in v'.base && v'.base[b] == v.base[b]
    requires g[p].Symbol? || (a in v'.base && v'.base[a] == 0)
    requires ExtendsObjects(g, st, v, st', v')
    ensures Extends(g, t, st, v, st', v', {pp}, {p})
  {
    hide ExtendsObjects;
  }

  lemma InvBasics(g: Graph, t: seq<Ref>, st: Memory, v: View)
    requires Inv(g, t, st, v)
    ensures Closed(g) && v.phi.Keys <= g.Keys && |st.relocf| == |t| && v.filled.Keys <= st.mem.Keys
    ensures v.base.Keys == st.kind.Keys
    ensures forall n :: n in v.phi ==> v.phi[n] in v.base
    ensures forall a :: a in st.kind ==> a < st.next
    ensures forall s :: s in st.mem && !s.Root? ==> s.a < st.next
  {
  }

  lemma FitsStill(g: Graph, phi: map<Ref, nat>, pp: Slot, p: Ref, a: nat)
    requires Fits(g, phi, pp, p) && p in g && (g[p].Cons? && !pp.Root? ==> pp.a != a)
    ensures Fits(g, phi[p := a], pp, p)
  {
  }

  /** The symbol an atom token names, when the table knows it. */
  lemma ReadKnown(g: Graph, t: seq<Ref>, p: Ref, st: Memory, v: View, pp: Slot) returns (v': View)
    requires Inv(g, t, st, v) && p in g && p !in v.phi && g[p].Symbol? && g[p].name in st.symtab
    requires pp in st.mem && pp !in v.filled && Fits(g, v.phi, pp, p)
    ensures var st' := Named(st, pp, g[p].name);
      && Inv(g, t, st', v') && v'.phi.Keys == v.phi.Keys + {p} && v'.phi.Keys <= g.Keys
      && Extends(g, t, st, v, st', v', {pp}, {p}) && pp in v'.filled && v'.filled[pp] == p
      && pp in st'.mem && st'.mem[pp] == At(v'.phi[p])
  {
    hide Inv, Extends, Fits;
    var a := st.symtab[g[p].name];
    var v1 := v.(phi := v.phi[p := a]);
    InvBasics(g, t, st, v);
    FitsStill(g, v.phi, pp, p, a);
    KnowSymbol(g, t, st, v, p);
    StoreCopy(g, t, st, v1, pp, p);
    v' := v1.(filled := v.filled[pp := p]);
    AddExtends(g, t, st, v, pp, p, a, Named(st, pp, g[p].name), v');
  }

  lemma AtomInTwoSteps(st: Memory, pp: Slot, n: Node)
    requires !n.Cons? && (n.Symbol? ==> n.name !in st.symtab)
    ensures var st1 := AtomFor(st, n, if n.Symbol? then 1 else 0);
      (if n.Symbol? then Named(st, pp, n.name) else NewAtom(st, pp, n))
        == Store(st1, pp, At(st.next)).(count := Lock(st1.count, At(st.next)))
      && st1.mem == st.mem && st1.relocf == st.relocf && Store(st1, pp, At(st.next)).mem == st.mem[pp := At(st.next)]
      && st1.kind == st.kind[st.next := KAtom(n)] && st1.next == st.next + 1
      && st1.symtab == if n.Symbol? then st.symtab[n.name := st.next] else st.symtab
  {
    if n.Symbol? {
      assert st.count[st.next := 1][st.next := 2] == st.count[st.next := 2];
    } else {
      assert st.count[st.next := 0][st.next := 1] == st.count[st.next := 1];
    }
  }

  /** Any other atom gets a new object. */
  lemma ReadNew(g: Graph, t: seq<Ref>, p: Ref, st: Memory, v: View, pp: Slot) returns (v': View)
    requires Inv(g, t, st, v) && p in g && p !in v.phi && !g[p].Cons?
    requires g[p].Symbol? ==> g[p].name !in st.symtab
    requires pp in st.mem && pp !in v.filled && Fits(g, v.phi, pp, p)
    ensures var st' := if g[p].Symbol? then Named(st, pp, g[p].name) else NewAtom(st, pp, g[p]);
      && Inv(g, t, st', v') && v'.phi.Keys == v.phi.Keys + {p} && v'.phi.Keys <= g.Keys
      && Extends(g, t, st, v, st', v', {pp}, {p}) && pp in v'.filled && v'.filled[pp] == p
      && pp in st'.mem && st'.mem[pp] == At(v'.phi[p])
  {
    hide Inv, Extends, ExtendsObjects, Fits, AtomFor, Named, NewAtom, Lock;
    var a, refs := st.next, if g[p].Symbol? then 1 else 0;
    var st1, v1 := AtomFor(st, g[p], refs), v.(phi := v.phi[p := a], base := v.base[a := refs]);
    InvBasics(g, t, st, v);
    FitsStill(g, v.phi, pp, p, a);
    AddAtom(g, t, st, v, p, refs);
    AtomInTwoSteps(st, pp, g[p]);
    StoreCopy(g, t, st1, v1, pp, p);
    v' := v1.(filled := v.filled[pp := p]);
    var st' := if g[p].Symbol? then Named(st, pp, g[p].name) else NewAtom(st, pp, g[p]);
    ObjectAdded(g, st, v, p, KAtom(g[p]), st', v');
    AddExtends(g, t, st, v, pp, p, a, st', v');
  }

  /** One object allocated, for node p. */
  lemma ObjectAdded(g: Graph, st: Memory, v: View, p: Ref, k: Kind, st': Memory, v': View)
    requires v'.phi.Keys <= g.Keys && v.base.Keys == st.kind.Keys && (forall b :: b in st.kind ==> b < st.next)
    requires v'.phi == v.phi[p := st.next] && v'.base == v.base[st.next := TableRefs(k)]
    requires st'.kind == st.kind[st.next := k] && st'.next == st.next + 1
    requires forall s :: s in st.symtab ==> s in st'.symtab && st'.symtab[s] == st.symtab[s]
    requires forall s :: s in st'.symtab && s !in st.symtab ==> st'.symtab[s] == st.next
    ensures ExtendsObjects(g, st, v, st', v')
  {
  }

  lemma ConsInTwoSteps(st: Memory, pp: Slot)
    requires pp in st.mem && (!pp.Root? ==> pp.a < st.next)
    ensures var a, st1 := st.next, CellFor(st);
      && NewCons(st, pp) == Store(st1, pp, At(a)).(count := Lock(st1.count, At(a)))
      && pp in st1.mem && NewCons(st, pp).relocf == st.relocf
      && NewCons(st, pp).kind == st.kind[a := KCons] && NewCons(st, pp).next == a + 1
      && NewCons(st, pp).symtab == st.symtab
      && (forall s :: s in st.mem ==> s in NewCons(st, pp).mem)
      && (forall s :: s in st.mem && s != pp && (s.Root? || s.a != a) ==> NewCons(st, pp).mem[s] == st.mem[s])
      && (forall s :: s in NewCons(st, pp).mem && s !in st.mem ==> !s.Root? && s.a == a)
  {
    var a := st.next;
    assert st.count[a := 0][a := 1] == st.count[a := 1];
  }

  /** The new cell of a cons, stored in pp, with both fields still empty. */
  lemma OpenCell(g: Graph, t: seq<Ref>, p: Ref, st: Memory, v: View, pp: Slot) returns (v': View)
    requires Inv(g, t, st, v) && p in g && p !in v.phi && g[p].Cons?
    requires pp in st.mem && pp !in v.filled && Fits(g, v.phi, pp, p)
    ensures Inv(g, t, NewCons(st, pp), v') && v'.phi == v.phi[p := st.next] && v'.phi.Keys <= g.Keys
    ensures Extends(g, t, st, v, NewCons(st, pp), v', {pp}, {p}) && pp in v'.filled && v'.filled[pp] == p
    ensures Car(st.next) !in v'.filled && Cdr(st.next) !in v'.filled
    ensures !pp.Root? ==> pp.a < st.next
  {
    hide Inv, Extends, Fits, CellFor, NewCons, Lock, Store;
    var a := st.next;
    var st1, v1 := CellFor(st), v.(phi := v.phi[p := a], base := v.base[a := 0]);
    InvBasics(g, t, st, v);
    ConsInTwoSteps(st, pp);
    FitsStill(g, v.phi, pp, p, a);
    AddCell(g, t, st, v, p);
    StoreCopy(g, t, st1, v1, pp, p);
    v' := v1.(filled := v.filled[pp := p]);
    ObjectAdded(g, st, v, p, KCons, NewCons(st, pp), v');
    AddExtends(g, t, st, v, pp, p, a, NewCons(st, pp), v');
  }

  /** The copy of an atom, stored in pp. */
  lemma ReadAtom(g: Graph, t: seq<Ref>, p: Ref, st: Memory, v: View, pp: Slot, ret: int, rest: seq<Token>)
    returns (st': Memory, v': View)
    requires Inv(g, t, st, v) && p in g && p !in v.phi && !g[p].Cons?
    requires pp in st.mem && pp !in v.filled && Fits(g, v.phi, pp, p)
    ensures Bread([AtomToken(g[p])] + rest, st, pp, ret) == Done(st', rest, 0)
    ensures Inv(g, t, st', v') && v'.phi.Keys == v.phi.Keys + {p} && v'.phi.Keys <= g.Keys
    ensures Extends(g, t, st, v, st', v', {pp}, {p}) && pp in v'.filled && v'.filled[pp] == p
    ensures pp in st'.mem && st'.mem[pp] == At(v'.phi[p])
  {
    hide Inv, Extends, Fits;
    assert ([AtomToken(g[p])] + rest)[1..] == rest;
    if g[p].Symbol? && g[p].name in st.symtab {
      v' := ReadKnown(g, t, p, st, v, pp);
      st' := Named(st, pp, g[p].name);
    } else {
      v' := ReadNew(g, t, p, st, v, pp);
      st' := if g[p].Symbol? then Named(st, pp, g[p].name) else NewAtom(st, pp, g[p]);
    }
  }

  /** A reference to a node whose copy exists. */
  lemma ReadRef(g: Graph, t: seq<Ref>, p: Ref, st: Memory, v: View, pp: Slot, ret: int, rest: seq<Token>)
    returns (st': Memory, v': View, ret': int)
    requires Inv(g, t, st, v) && p in v.phi && p in t
    requires pp in st.mem && pp !in v.filled && Fits(g, v.phi, pp, p)
    ensures Bread([REF(Index(t, p))] + rest, st, pp, ret) == Done(st', rest, ret')
    ensures Inv(g, t, st', v') && v'.phi == v.phi && v'.phi.Keys <= g.Keys
    ensures Extends(g, t, st, v, st', v', {pp}, {}) && pp in v'.filled && v'.filled[pp] == p
    ensures ret' == 0 || ret' == ret
  {
    hide Inv, Extends, Fits;
    var k := Index(t, p);
    assert ([REF(k)] + rest)[1..] == rest;
    InvBasics(g, t, st, v);
    InvOne(g, t, st, v, p);
    if st.relocf[k] == DEFD {
      StoreCopy(g, t, st, v, pp, p);
      st' := Store(st, pp, st.relocp[k]).(count := Lock(st.count, st.relocp[k]));
      v', ret' := v.(filled := v.filled[pp := p]), 0;
    } else {
      StorePending(g, t, st, v, pp, k);
      st' := Store(st, pp, st.relocp[k]).(relocp := st.relocp[k := Link(pp)], relocf := st.relocf[k := REFD]);
      v', ret' := v.(filled := v.filled[pp := p], chains := v.chains[k := [pp] + v.chains[k]]), ret;
    }
    FillExtends(g, t, st, v, pp, p, st', v');
  }

  /** Node p is not open any more once its fields are filled. */
  lemma FieldsFilled(g: Graph, t: seq<Ref>, st: Memory, v: View, st': Memory, v': View, pp: Slot, p: Ref)
    requires Inv(g, t, st', v') && p in v'.phi && v'.phi.Keys <= g.Keys
    requires ExtendsSlots(g, st, v, st', v', {pp}, {p})
    requires g[p].Cons? ==> Car(v'.phi[p]) in v'.filled && Cdr(v'.phi[p]) in v'.filled
    ensures ExtendsSlots(g, st, v, st', v', {pp}, {})
  {
    hide Inv;
    forall s | s in st'.mem && !s.Root? && s.a == v'.phi[p] ensures s in v'.filled {
      OwnerIsCons(g, t, st', v', p, s);
    }
  }

  lemma OwnerIsCons(g: Graph, t: seq<Ref>, st: Memory, v: View, p: Ref, s: Slot)
    requires Inv(g, t, st, v) && p in v.phi && s in st.mem && !s.Root? && s.a == v.phi[p]
    ensures p in g && g[p].Cons? && (s == Car(v.phi[p]) || s == Cdr(v.phi[p]))
  {
  }

  /** Only slots that hold no copy changed. */
  lemma SlotsPatched(g: Graph, st: Memory, v: View, st1: Memory, v1: View, st': Memory, v': View, A: set<Slot>)
    requires v1.phi.Keys <= g.Keys && v'.phi == v1.phi && v'.filled == v1.filled && v'.base == v1.base
    requires ExtendsSlots(g, st, v, st1, v1, A, {}) && st'.mem.Keys == st1.mem.Keys
    requires forall s :: s in st1.mem && st1.mem[s].At? ==> st'.mem[s] == st1.mem[s]
    ensures ExtendsSlots(g, st, v, st', v', A, {})
  {
  }

  /** Closing a definition: the chain is patched and the relocation is defined. */
  lemma CloseDef(g: Graph, t: seq<Ref>, p: Ref, st: Memory, v: View, st1: Memory, v1: View, pp: Slot)
    requires Inv(g, t, st, v) && Inv(g, t, st1, v1) && p in t && p !in v.phi && p in v1.phi
    requires v1.phi.Keys <= g.Keys && Extends(g, t, st, v, st1, v1, {pp}, {p})
    requires pp in v1.filled && v1.filled[pp] == p && pp in st1.mem && st1.mem[pp] == At(v1.phi[p])
    requires g[p].Cons? ==> Car(v1.phi[p]) in v1.filled && Cdr(v1.phi[p]) in v1.filled
    ensures var k := Index(t, p);
      && |st1.relocf| == |st1.relocp| == |v1.chains| == |t|
      && st1.relocf[k] != DEFD
      && var st', v' := Complete(st1, k, st1.mem[pp]), v1.(chains := v1.chains[k := []]);
      && Inv(g, t, st', v') && Extends(g, t, st, v, st', v', {pp}, {})
  {
    hide Inv, ExtendsSlots, ExtendsObjects, RelocGood, Complete;
    var k := Index(t, p);
    NotDefined(g, t, st, v, k);
    InvRelocs(g, t, st1, v1, k);
    var st', v' := Complete(st1, k, st1.mem[pp]), v1.(chains := v1.chains[k := []]);
    CompleteFrame(st1, k, st1.mem[pp]);
    CompleteKeeps(g, t, st1, v1, k);
    FieldsFilled(g, t, st, v, st1, v1, pp, p);
    SlotsPatched(g, st, v, st1, v1, st', v', {pp});
    ObjectsPatched(g, st, v, st1, v1, st', v');
    forall i | 0 <= i < |t| && t[i] == p ensures i == k {
      IndexUnique(g, t, st, v, i);
    }
  }

  lemma NotDefined(g: Graph, t: seq<Ref>, st: Memory, v: View, k: nat)
    requires Inv(g, t, st, v) && k < |t| && t[k] !in v.phi
    ensures |st.relocf| == |t| && st.relocf[k] != DEFD
  {
    InvRelocs(g, t, st, v, k);
  }

  lemma ObjectsPatched(g: Graph, st: Memory, v: View, st1: Memory, v1: View, st': Memory, v': View)
    requires v1.phi.Keys <= g.Keys && v'.phi == v1.phi && v'.base == v1.base
    requires ExtendsObjects(g, st, v, st1, v1)
    requires st'.kind == st1.kind && st'.symtab == st1.symtab && st'.next == st1.next
    ensures ExtendsObjects(g, st, v, st', v')
  {
  }

  lemma CompleteFrame(st: Memory, k: nat, w: Word)
    requires k < |st.relocp| && k < |st.relocf| && !w.Link?
    ensures var st' := Complete(st, k, w);
      st'.kind == st.kind && st'.symtab == st.symtab && st'.next == st.next
  {
  }

  lemma InvRelocs(g: Graph, t: seq<Ref>, st: Memory, v: View, k: nat)
    requires Inv(g, t, st, v) && k < |t|
    ensures |st.relocf| == |st.relocp| == |v.chains| == |t| && RelocGood(t, st, v, k)
  {
  }

  lemma IndexUnique(g: Graph, t: seq<Ref>, st: Memory, v: View, k: nat)
    requires Inv(g, t, st, v) && k < |t|
    ensures Index(t, t[k]) == k
  {
    SameIndexOf(t, k);
  }

  /** Everything written for p is read back into slot pp. */
  lemma {:induction false} ReadBack(g: Graph, t: seq<Ref>, p: Ref, V: set<Ref>, st: Memory, v: View, pp: Slot, ret: int,
                                    rest: seq<Token>)
    returns (st': Memory, v': View, ret': int)
    requires Closed(g) && Inv(g, t, st, v) && v.phi.Keys == V <= g.Keys && IsRef(g, p)
    requires pp in st.mem && pp !in v.filled && Fits(g, v.phi, pp, p)
    requires forall n :: n in Dfs(g, p, V).1 ==> n in t
    ensures Bread(Tokens(g, t, p, V) + rest, st, pp, ret) == Done(st', rest, ret')
    ensures Inv(g, t, st', v') && v'.phi.Keys == Dfs(g, p, V).0
    ensures Extends(g, t, st, v, st', v', {pp}, {}) && pp in v'.filled && v'.filled[pp] == p
    ensures ret' == 0 || (p in V && ret' == ret)
    decreases g.Keys - V, 2
  {
    hide Inv, Extends, Fits, Bread, Complete;
    if p == 0 {
      st', v', ret' := Store(st, pp, Null), v.(filled := v.filled[pp := 0]), 0;
      ReadNil(g, t, st, v, pp, ret, rest);
    } else if p in V {
      st', v', ret' := ReadRef(g, t, p, st, v, pp, ret, rest);
    } else if p !in t {
      st', v' := ReadBody(g, t, p, V, st, v, pp, ret, rest);
      ret' := 0;
      NotShared(g, t, p, st, v, pp, st', v');
    } else {
      var k := Index(t, p);
      var st1, v1 := ReadBody(g, t, p, V, st, v, pp, 1, rest);
      InvRelocs(g, t, st1, v1, k);
      CloseDef(g, t, p, st, v, st1, v1, pp);
      BreadBody(k, Body(g, t, p, V) + rest, st, pp, ret, st1, rest);
      assert [DEF(k)] + Body(g, t, p, V) + rest == [DEF(k)] + (Body(g, t, p, V) + rest);
      st', v', ret' := Complete(st1, k, st1.mem[pp]), v1.(chains := v1.chains[k := []]), 0;
    }
  }

  lemma ReadNil(g: Graph, t: seq<Ref>, st: Memory, v: View, pp: Slot, ret: int, rest: seq<Token>)
    requires Inv(g, t, st, v) && v.phi.Keys <= g.Keys && pp in st.mem && pp !in v.filled && Fits(g, v.phi, pp, 0)
    ensures var st', v' := Store(st, pp, Null), v.(filled := v.filled[pp := 0]);
      && Bread([NIL] + rest, st, pp, ret) == Done(st', rest, 0)
      && Inv(g, t, st', v') && Extends(g, t, st, v, st', v', {pp}, {})
  {
    hide Inv, Extends, Fits;
    assert ([NIL] + rest)[1..] == rest;
    InvBasics(g, t, st, v);
    StoreNull(g, t, st, v, pp);
    FillExtends(g, t, st, v, pp, 0, Store(st, pp, Null), v.(filled := v.filled[pp := 0]));
  }

  /** DEF, once the object behind it has been read. */
  lemma BreadBody(k: nat, toks: seq<Token>, st: Memory, pp: Slot, ret: int, st1: Memory, rest: seq<Token>)
    requires Bread(toks, st, pp, 1) == Done(st1, rest, 0) && k < |st1.relocf| == |st1.relocp| && st1.relocf[k] != DEFD
    requires pp in st1.mem && !st1.mem[pp].Link?
    ensures Bread([DEF(k)] + toks, st, pp, ret) == Done(Complete(st1, k, st1.mem[pp]), rest, 0)
  {
    assert ([DEF(k)] + toks)[1..] == toks;
  }

  lemma NotShared(g: Graph, t: seq<Ref>, p: Ref, st: Memory, v: View, pp: Slot, st': Memory, v': View)
    requires v'.phi.Keys <= g.Keys && Extends(g, t, st, v, st', v', {pp}, {p}) && p !in t && p in v'.phi && p in g
    requires g[p].Cons? ==> Car(v'.phi[p]) in v'.filled && Cdr(v'.phi[p]) in v'.filled
    requires Inv(g, t, st', v')
    ensures Extends(g, t, st, v, st', v', {pp}, {})
  {
    hide Inv, ExtendsSlots;
    FieldsFilled(g, t, st, v, st', v', pp, p);
  }

  lemma {:induction false} ReadBody(g: Graph, t: seq<Ref>, p: Ref, V: set<Ref>, st: Memory, v: View, pp: Slot, ret: int,
                                    rest: seq<Token>)
    returns (st': Memory, v': View)
    requires Closed(g) && Inv(g, t, st, v) && v.phi.Keys == V <= g.Keys && p in g && p !in V
    requires pp in st.mem && pp !in v.filled && Fits(g, v.phi, pp, p)
    requires forall n :: n in Dfs(g, p, V).1 ==> n in t
    ensures Bread(Body(g, t, p, V) + rest, st, pp, ret) == Done(st', rest, 0)
    ensures Inv(g, t, st', v') && v'.phi.Keys == Dfs(g, p, V).0
    ensures Extends(g, t, st, v, st', v', {pp}, {p}) && pp in v'.filled && v'.filled[pp] == p
    ensures pp in st'.mem && st'.mem[pp] == At(v'.phi[p])
    ensures g[p].Cons? ==> Car(v'.phi[p]) in v'.filled && Cdr(v'.phi[p]) in v'.filled
    decreases g.Keys - V, 1
  {
    hide Inv, Extends, Fits, Bread;
    if !g[p].Cons? {
      st', v' := ReadAtom(g, t, p, st, v, pp, ret, rest);
    } else {
      var a := st.next;
      var left := Tokens(g, t, g[p].car, V + {p});
      var mid := Dfs(g, g[p].car, V + {p}).0;
      var right := Tokens(g, t, g[p].cdr, mid);
      assert [CONS] + left + right + rest == [CONS] + (left + (right + rest));
      BreadCons(left + (right + rest), st, pp, ret);
      var v1 := OpenCell(g, t, p, st, v, pp);
      var st1 := NewCons(st, pp);
      st', v' := ReadFields(g, t, p, V, st1, v1, pp, rest);
      Chain2(g, t, st, v, st1, v1, st', v', {pp}, {Car(a)} + {Cdr(a)}, p);
      ExtendsLess(g, t, st, v, st', v', pp, a, p);
    }
  }

  lemma BreadCons(toks: seq<Token>, st: Memory, pp: Slot, ret: int)
    ensures var left := Bread(toks, NewCons(st, pp), Car(st.next), 1);
      Bread([CONS] + toks, st, pp, ret) ==
        if !left.Done? then left else Bread(left.rest, left.st, Cdr(st.next), 0)
  {
    assert ([CONS] + toks)[1..] == toks;
  }

  /** The car, then the cdr, of an open cell. */
  lemma {:induction false} ReadFields(g: Graph, t: seq<Ref>, p: Ref, V: set<Ref>, st: Memory, v: View, pp: Slot,
                                      rest: seq<Token>)
    returns (st': Memory, v': View)
    requires Closed(g) && Inv(g, t, st, v) && v.phi.Keys == V + {p} <= g.Keys && p in g && p !in V && g[p].Cons?
    requires Car(v.phi[p]) in st.mem && Cdr(v.phi[p]) in st.mem && pp in st.mem
    requires Car(v.phi[p]) !in v.filled && Cdr(v.phi[p]) !in v.filled
    requires pp in v.filled && v.filled[pp] == p && st.mem[pp] == At(v.phi[p])
    requires forall n :: n in Dfs(g, p, V).1 ==> n in t
    ensures var left, mid := Tokens(g, t, g[p].car, V + {p}), Dfs(g, g[p].car, V + {p}).0;
      var right := Tokens(g, t, g[p].cdr, mid);
      var r := Bread(left + (right + rest), st, Car(v.phi[p]), 1);
      r.Done? && Bread(r.rest, r.st, Cdr(v.phi[p]), 0) == Done(st', rest, 0)
    ensures Inv(g, t, st', v') && v'.phi.Keys == Dfs(g, p, V).0
    ensures Extends(g, t, st, v, st', v', {Car(v.phi[p])} + {Cdr(v.phi[p])}, {})
    ensures pp in v'.filled && v'.filled[pp] == p && pp in st'.mem && v'.phi[p] == v.phi[p]
    ensures st'.mem[pp] == At(v.phi[p])
    ensures Car(v.phi[p]) in v'.filled && Cdr(v.phi[p]) in v'.filled
    decreases g.Keys - V, 0
  {
    hide Inv, Extends, Fits;
    var a := v.phi[p];
    var mid := Dfs(g, g[p].car, V + {p}).0;
    InvOne(g, t, st, v, p);
    var st2, v2, ret2 := ReadBack(g, t, g[p].car, V + {p}, st, v, Car(a), 1, Tokens(g, t, g[p].cdr, mid) + rest);
    ExtendsOne(g, t, st, v, st2, v2, {Car(a)}, {}, Cdr(a), p);
    ExtendsOne(g, t, st, v, st2, v2, {Car(a)}, {}, pp, p);
    InvOne(g, t, st2, v2, p);
    var ret3;
    st', v', ret3 := ReadBack(g, t, g[p].cdr, mid, st2, v2, Cdr(a), 0, rest);
    ExtendsOne(g, t, st2, v2, st', v', {Cdr(a)}, {}, pp, p);
    CarStays(g, t, st2, v2, st', v', {Cdr(a)}, Car(a));
    Chain0(g, t, st, v, st2, v2, st', v', {Car(a)}, {Cdr(a)});
  }

  lemma CarStays(g: Graph, t: seq<Ref>, st: Memory, v: View, st': Memory, v': View, A: set<Slot>, s: Slot)
    requires v'.phi.Keys <= g.Keys && Extends(g, t, st, v, st', v', A, {}) && s in v.filled
    ensures s in v'.filled
  {
  }

  lemma Chain0(g: Graph, t: seq<Ref>, s0: Memory, v0: View, s1: Memory, v1: View, s2: Memory, v2: View,
               A: set<Slot>, B: set<Slot>)
    requires Inv(g, t, s1, v1) && v1.phi.Keys <= g.Keys && v2.phi.Keys <= g.Keys
    requires Extends(g, t, s0, v0, s1, v1, A, {}) && Extends(g, t, s1, v1, s2, v2, B, {})
    ensures Extends(g, t, s0, v0, s2, v2, A + B, {})
  {
    hide Inv, Extends, ExtendsSlots, ExtendsFlags, ExtendsObjects;
    InvBasics(g, t, s1, v1);
    ExtendsTwice(g, t, s0, v0, s1, v1, s2, v2, A, B, {});
  }

  lemma Chain2(g: Graph, t: seq<Ref>, s0: Memory, v0: View, s1: Memory, v1: View, s2: Memory, v2: View,
               A: set<Slot>, B: set<Slot>, p: Ref)
    requires Inv(g, t, s1, v1) && p in v1.phi && v1.phi.Keys <= g.Keys && v2.phi.Keys <= g.Keys
    requires Extends(g, t, s0, v0, s1, v1, A, {p}) && Extends(g, t, s1, v1, s2, v2, B, {})
    ensures Extends(g, t, s0, v0, s2, v2, A + B, {p})
  {
    hide Inv, Extends, ExtendsSlots, ExtendsFlags, ExtendsObjects;
    InvBasics(g, t, s1, v1);
    ExtendsTwice(g, t, s0, v0, s1, v1, s2, v2, A, B, {p});
  }

  /** The fields of a new cell are not slots of the old memory. */
  lemma ExtendsLess(g: Graph, t: seq<Ref>, st: Memory, v: View, st': Memory, v': View, pp: Slot, a: nat, p: Ref)
    requires v'.phi.Keys <= g.Keys && Extends(g, t, st, v, st', v', {pp} + ({Car(a)} + {Cdr(a)}), {p})
    requires Inv(g, t, st, v) && a == st.next
    ensures Extends(g, t, st, v, st', v', {pp}, {p})
  {
    InvBasics(g, t, st, v);
    hide Inv;
  }

  // ------------------------------------------------------- main theorem

  /** The reader's memory before bread: symbols and other objects, no slot yet. */
  ghost predicate Fresh(st: Memory) {
    && st.kind.Keys == st.count.Keys
    && (forall a :: a in st.kind ==> a < st.next)
    && (forall s :: s in st.symtab ==> st.symtab[s] in st.kind && st.kind[st.symtab[s]] == KAtom(Symbol(s)))
  }

  ghost function Image(phi: map<Ref, nat>, p: Ref): Word
    requires p == 0 || p in phi
  {
    if p == 0 then Null else At(phi[p])
  }

  /** The memory holds, in slot Root, a graph isomorphic to what g holds at p: phi is
      one to one on the nodes reachable from p, keeps their kind and their payload,
      and carries car to car and cdr to cdr. No slot is left in a chain, the new
      slots are the answer and the fields of the new conses, and the count of every
      copy that is not a symbol is the number of slots that hold it. */
  ghost predicate Isomorphic(g: Graph, p: Ref, st: Memory, phi: map<Ref, nat>)
    requires Closed(g) && IsRef(g, p)
  {
    && phi.Keys == Reach(g, p)
    && (forall m, n :: m in phi && n in phi && phi[m] == phi[n] ==> m == n)
    && (forall n :: n in phi ==> phi[n] in st.kind && st.kind[phi[n]] == if g[n].Cons? then KCons else KAtom(g[n]))
    && Root in st.mem && (p == 0 || p in phi) && st.mem[Root] == Image(phi, p)
    && (forall n :: n in phi && g[n].Cons? ==>
         && Car(phi[n]) in st.mem && Cdr(phi[n]) in st.mem
         && (g[n].car == 0 || g[n].car in phi) && (g[n].cdr == 0 || g[n].cdr in phi)
         && st.mem[Car(phi[n])] == Image(phi, g[n].car)
         && st.mem[Cdr(phi[n])] == Image(phi, g[n].cdr))
    && (forall s :: s in st.mem ==> !st.mem[s].Link?)
    && (forall n :: n in phi && !g[n].Symbol? ==>
         phi[n] in st.count && st.count[phi[n]] == |Holders(st.mem, phi[n])|)
  }

  /** Every copy is a new object, but for the symbols that were known. What was there
      before keeps its kind, and its count grows by the slots of the copy that hold
      it; a new object is counted once for each such slot, and a new symbol once more
      for the symbol table. */
  ghost predicate Separate(g: Graph, st0: Memory, st: Memory, phi: map<Ref, nat>)
    requires phi.Keys <= g.Keys
  {
    && (forall n :: n in phi && !g[n].Symbol? ==> phi[n] >= st0.next)
    && (forall n :: n in phi && g[n].Symbol? ==>
         if g[n].name in st0.symtab then phi[n] == st0.symtab[g[n].name] else phi[n] >= st0.next)
    && (forall s :: s in st0.symtab ==> s in st.symtab && st.symtab[s] == st0.symtab[s])
    && (forall a :: a in st0.kind ==> a in st0.count && a in st.kind && st.kind[a] == st0.kind[a])
    && (forall a :: a in st.kind ==>
         && a in st.count
         && st.count[a] - |Holders(st.mem, a)| == if a in st0.count then st0.count[a] else TableRefs(st.kind[a]))
  }

  lemma CopiesSeparate(g: Graph, t: seq<Ref>, st0: Memory, v0: View, st: Memory, v: View)
    requires Fresh(st0) && Inv(g, t, st, v) && v.phi.Keys <= g.Keys
    requires v0.phi == map[] && v0.base == st0.count
    requires Extends(g, t, Begin(st0, |t|), v0, st, v, {Root}, {})
    ensures Separate(g, st0, st, v.phi)
  {
    hide Inv, Copied, Counted, ExtendsSlots, ExtendsFlags, ExtendsObjects, Begin;
    InvParts(g, t, st, v);
    BeginParts(st0, |t|);
    var b := Begin(st0, |t|);
    CopiesNew(g, b, v0, st, v);
    CountsExact(g, b, v0, st, v);
  }

  lemma InvParts(g: Graph, t: seq<Ref>, st: Memory, v: View)
    requires Inv(g, t, st, v)
    ensures Copied(g, st, v.phi) && Counted(st, v) && v.base.Keys == st.kind.Keys == st.count.Keys
  {
    hide Copied, SlotGood, RelocGood, Targets, Holders;
  }

  lemma BeginParts(st: Memory, n: nat)
    ensures var b := Begin(st, n);
      b.kind == st.kind && b.count == st.count && b.next == st.next && b.symtab == st.symtab
  {
  }

  lemma CopiesNew(g: Graph, st0: Memory, v0: View, st: Memory, v: View)
    requires v.phi.Keys <= g.Keys && v0.phi == map[] && Copied(g, st, v.phi) && ExtendsObjects(g, st0, v0, st, v)
    ensures forall n :: n in v.phi && !g[n].Symbol? ==> v.phi[n] >= st0.next
    ensures forall n :: n in v.phi && g[n].Symbol? ==>
      if g[n].name in st0.symtab then v.phi[n] == st0.symtab[g[n].name] else v.phi[n] >= st0.next
    ensures forall s :: s in st0.symtab ==> s in st.symtab && st.symtab[s] == st0.symtab[s]
    ensures forall a :: a in st0.kind ==> a in st.kind && st.kind[a] == st0.kind[a]
  {
  }

  lemma CountsExact(g: Graph, st0: Memory, v0: View, st: Memory, v: View)
    requires v.phi.Keys <= g.Keys && v0.base == st0.count && Counted(st, v) && v.base.Keys == st.kind.Keys
    requires ExtendsSlots(g, st0, v0, st, v, {Root}, {}) && ExtendsObjects(g, st0, v0, st, v)
    ensures forall a :: a in st.kind ==>
      && a in st.count
      && st.count[a] - |Holders(st.mem, a)| == if a in st0.count then st0.count[a] else TableRefs(st.kind[a])
  {
    hide Holders;
  }

  lemma BeginInv(g: Graph, t: seq<Ref>, st: Memory)
    requires Closed(g) && Interned(g) && Fresh(st) && 0 !in t
    requires forall i, j :: 0 <= i < j < |t| ==> t[i] != t[j]
    ensures Inv(g, t, Begin(st, |t|), View(map[], map[], seq(|t|, _ => []), st.count))
  {
    var st0 := Begin(st, |t|);
    forall a | a in st0.count ensures st0.count[a] == st.count[a] + |Holders(st0.mem, a)| {
      assert Holders(st0.mem, a) == {};
    }
  }

  /** At the end of the read every slot is filled and every relocation defined. */
  lemma EndIsomorphic(g: Graph, t: seq<Ref>, p: Ref, st0: Memory, v0: View, st: Memory, v: View)
    requires Closed(g) && Inv(g, t, st, v) && IsRef(g, p) && v.phi.Keys == Reach(g, p)
    requires forall n :: n in t ==> n in Reach(g, p)
    requires v0.phi == map[] && v0.filled == map[] && st0.mem == map[Root := Null]
    requires Extends(g, t, st0, v0, st, v, {Root}, {}) && Root in v.filled && v.filled[Root] == p
    ensures forall k :: 0 <= k < |t| ==> st.relocf[k] == DEFD
    ensures Isomorphic(g, p, st, v.phi)
  {
    hide Inv, Extends, Holders;
    AllDefined(g, t, p, st0, v0, st, v);
    AllFilled(g, t, st0, v0, st, v);
    ReachIsLeast(g, p);
    AllHold(g, t, st, v);
    Copies(g, t, st, v);
  }

  lemma AllFilled(g: Graph, t: seq<Ref>, st0: Memory, v0: View, st: Memory, v: View)
    requires v0.phi == map[] && v.phi.Keys <= g.Keys && Extends(g, t, st0, v0, st, v, {Root}, {})
    ensures forall n :: n in v.phi && g[n].Cons? ==> Car(v.phi[n]) in v.filled && Cdr(v.phi[n]) in v.filled
    ensures forall n :: n in v.phi && !g[n].Symbol? ==> v.phi[n] in v.base && v.base[v.phi[n]] == 0
  {
  }

  lemma AllDefined(g: Graph, t: seq<Ref>, p: Ref, st0: Memory, v0: View, st: Memory, v: View)
    requires Inv(g, t, st, v) && v0.phi == map[] && v.phi.Keys <= g.Keys
    requires Extends(g, t, st0, v0, st, v, {Root}, {})
    requires forall n :: n in t ==> n in v.phi
    ensures |v.chains| == |t| == |st.relocf|
    ensures forall k :: 0 <= k < |t| ==> st.relocf[k] == DEFD && v.chains[k] == []
  {
    assert |v.chains| == |t|;
    hide Inv, ExtendsSlots;
    forall k | 0 <= k < |t| ensures st.relocf[k] == DEFD && v.chains[k] == [] {
      InvRelocs(g, t, st, v, k);
      assert t[k] in t;
    }
  }

  lemma Copies(g: Graph, t: seq<Ref>, st: Memory, v: View)
    requires Inv(g, t, st, v)
    requires forall n :: n in v.phi && !g[n].Symbol? ==> v.phi[n] in v.base && v.base[v.phi[n]] == 0
    ensures forall m, n :: m in v.phi && n in v.phi && v.phi[m] == v.phi[n] ==> m == n
    ensures forall n :: n in v.phi ==> n in g && v.phi[n] in st.kind
    ensures forall n :: n in v.phi ==> st.kind[v.phi[n]] == if g[n].Cons? then KCons else KAtom(g[n])
    ensures forall n :: n in v.phi && g[n].Cons? ==> Car(v.phi[n]) in st.mem && Cdr(v.phi[n]) in st.mem
    ensures forall n :: n in v.phi && !g[n].Symbol? ==>
      v.phi[n] in st.count && st.count[v.phi[n]] == |Holders(st.mem, v.phi[n])|
    ensures Targets(g, v)
  {
    hide SlotGood, RelocGood;
  }

  lemma AllHold(g: Graph, t: seq<Ref>, st: Memory, v: View)
    requires Inv(g, t, st, v) && |v.chains| == |t| && forall k :: 0 <= k < |t| ==> v.chains[k] == []
    ensures forall s :: s in v.filled ==>
      s in st.mem && (v.filled[s] == 0 || v.filled[s] in v.phi) && st.mem[s] == Image(v.phi, v.filled[s])
    ensures forall s :: s in st.mem && s !in v.filled ==> st.mem[s] == Null
  {
    forall s | s in st.mem && s in v.filled
      ensures (v.filled[s] == 0 || v.filled[s] in v.phi) && st.mem[s] == Image(v.phi, v.filled[s])
    {
      assert SlotGood(g, t, st, v, s);
    }
    forall s | s in st.mem && s !in v.filled ensures st.mem[s] == Null {
      assert SlotGood(g, t, st, v, s);
    }
  }

  lemma RootFits(g: Graph, p: Ref)
    ensures Fits(g, map[], Root, p)
  {
  }

  /** Without an excess of relocations the read succeeds. */
  lemma ReadWritten(g: Graph, p: Ref, t: seq<Ref>, st: Memory) returns (st': Memory, v': View, ret: int)
    requires Closed(g) && Interned(g) && IsRef(g, p) && Fresh(st)
    requires Lists(t, Dfs(g, p, {}).1)
    ensures Bread(Tokens(g, t, p, {}), Begin(st, |t|), Root, 1) == Done(st', [], ret)
    ensures |st'.relocf| == |t| && forall k :: 0 <= k < |t| ==> st'.relocf[k] == DEFD
    ensures Isomorphic(g, p, st', v'.phi) && v'.phi.Keys <= g.Keys && Separate(g, st, st', v'.phi)
  {
    assert 0 !in t;
    assert forall n :: n in t ==> n in Reach(g, p);
    hide Inv, Extends, ExtendsSlots, ExtendsFlags, Isomorphic, Separate, Fits, Bread, Tokens;
    var v := View(map[], map[], seq(|t|, _ => []), st.count);
    BeginInv(g, t, st);
    RootFits(g, p);
    assert Tokens(g, t, p, {}) + [] == Tokens(g, t, p, {});
    st', v', ret := ReadBack(g, t, p, {}, Begin(st, |t|), v, Root, 1, []);
    EndIsomorphic(g, t, p, Begin(st, |t|), v, st', v');
    InvBasics(g, t, st', v');
    CopiesSeparate(g, t, st, v, st', v');
  }

  // -------------------------------------------------- what is on file

  lemma {:induction false} IndicesBelow(g: Graph, t: seq<Ref>, p: Ref, V: set<Ref>)
    requires Closed(g) && IsRef(g, p) && V <= g.Keys && forall n :: n in Dfs(g, p, V).1 ==> n in t
    ensures forall tok :: tok in Tokens(g, t, p, V) && (tok.REF? || tok.DEF?) ==> tok.k < |t|
    decreases g.Keys - V
  {
    if p != 0 && p !in V && g[p].Cons? {
      IndicesBelow(g, t, g[p].car, V + {p});
      IndicesBelow(g, t, g[p].cdr, Dfs(g, g[p].car, V + {p}).0);
    }
  }

  /** Every shared object of the graph is referred to on file. */
  lemma {:induction false} RefWritten(g: Graph, t: seq<Ref>, p: Ref, V: set<Ref>, n: Ref)
    requires Closed(g) && IsRef(g, p) && V <= g.Keys && forall m :: m in Dfs(g, p, V).1 ==> m in t
    requires n in Dfs(g, p, V).1
    ensures REF(Index(t, n)) in Tokens(g, t, p, V)
    decreases g.Keys - V
  {
    if p !in V {
      var left := Dfs(g, g[p].car, V + {p});
      if n in left.1 {
        RefWritten(g, t, g[p].car, V + {p}, n);
      } else {
        RefWritten(g, t, g[p].cdr, left.0, n);
      }
    }
  }

  /** The tokens of an object are the tokens of one object. */
  lemma {:induction false} TokensSpan(g: Graph, t: seq<Ref>, p: Ref, V: set<Ref>, rest: seq<Token>)
    requires Closed(g) && IsRef(g, p) && V <= g.Keys && forall n :: n in Dfs(g, p, V).1 ==> n in t
    ensures Span(Tokens(g, t, p, V) + rest) == Some(|Tokens(g, t, p, V)|)
    decreases g.Keys - V, 1
  {
    hide Body;
    if p != 0 && p !in V {
      var body := Body(g, t, p, V);
      BodySpan(g, t, p, V, rest);
      if p in t {
        assert ([DEF(Index(t, p))] + body + rest)[1..] == body + rest;
      }
    }
  }

  lemma {:induction false} BodySpan(g: Graph, t: seq<Ref>, p: Ref, V: set<Ref>, rest: seq<Token>)
    requires Closed(g) && p in g && p !in V && V <= g.Keys && forall n :: n in Dfs(g, p, V).1 ==> n in t
    ensures Span(Body(g, t, p, V) + rest) == Some(|Body(g, t, p, V)|)
    decreases g.Keys - V, 0
  {
    hide Tokens, Span;
    if g[p].Cons? {
      var mid := Dfs(g, g[p].car, V + {p}).0;
      var left, right := Tokens(g, t, g[p].car, V + {p}), Tokens(g, t, g[p].cdr, mid);
      var toks := [CONS] + left + right + rest;
      TokensSpan(g, t, g[p].car, V + {p}, right + rest);
      TokensSpan(g, t, g[p].cdr, mid, rest);
      assert toks[1..] == left + (right + rest) && toks[1 + |left|..] == right + rest;
      SpanStep(toks, |left|, |right|);
    } else {
      SpanOne([AtomToken(g[p])] + rest);
    }
  }

  lemma SpanOne(toks: seq<Token>)
    requires toks != [] && !toks[0].CONS? && !toks[0].DEF?
    ensures Span(toks) == Some(1)
  {
  }

  lemma {:induction false} CutSpan(toks: seq<Token>)
    ensures Span(CutAll(toks)) == Span(toks)
    decreases |toks|
  {
    hide Span, CutAll;
    SpanUnfold(toks);
    SpanUnfold(CutAll(toks));
    if toks != [] {
      CutTail(toks, 1);
      CutSpan(toks[1..]);
      if toks[0].CONS? && Span(toks[1..]).Some? {
        var m := Span(toks[1..]).value;
        CutTail(toks, 1 + m);
        CutSpan(toks[1 + m..]);
      }
    }
  }

  lemma CutTail(toks: seq<Token>, m: nat)
    requires m <= |toks|
    ensures CutAll(toks)[m..] == CutAll(toks[m..])
  {
  }

  /** Fewer than 2^24 relocations: nothing is cut off. */
  lemma FileExact(g: Graph, t: seq<Ref>, p: Ref)
    requires Closed(g) && IsRef(g, p) && |t| < CARD24 && forall n :: n in Dfs(g, p, {}).1 ==> n in t
    ensures File(|t|, Tokens(g, t, p, {})) == Stream(|t|, Tokens(g, t, p, {}))
  {
    var toks := Tokens(g, t, p, {});
    IndicesBelow(g, t, p, {});
    forall i | 0 <= i < |toks| ensures CutAll(toks)[i] == toks[i] {
      assert toks[i] in toks;
    }
  }

  /** From 2^24 relocations on the header lies, and some reference lies outside the
      table the reader makes. */
  lemma FileUnreadable(g: Graph, t: seq<Ref>, p: Ref, st: Memory)
    requires Closed(g) && IsRef(g, p) && |t| >= CARD24 && Lists(t, Dfs(g, p, {}).1)
    ensures !ReadStream(File(|t|, Tokens(g, t, p, {})), st).Answer?
  {
    hide ReadStream, Tokens, Span, File;
    var toks := Tokens(g, t, p, {});
    var f := File(|t|, toks);
    FileIs(|t|, toks);
    var k := CARD24 - 1;
    SameIndexOf(t, k);
    RefWritten(g, t, p, {}, t[k]);
    var i :| 0 <= i < |toks| && toks[i] == REF(k);
    assert toks + [] == toks;
    TokensSpan(g, t, p, {}, []);
    CutSpan(toks);
    if ReadStream(f, st).Answer? {
      AcceptedRefs(f, st, i);
    }
  }

  lemma FileIs(n: nat, toks: seq<Token>)
    ensures File(n, toks).relocn == n % CARD24 && File(n, toks).toks == CutAll(toks)
  {
  }

  /** Reading what bwrite wrote for p succeeds exactly when the number of shared
      objects is within the limit bread enforces, and then rebuilds the graph. */
  lemma RoundTrip(g: Graph, p: Ref, t: seq<Ref>, st: Memory)
    requires Closed(g) && Interned(g) && IsRef(g, p) && Fresh(st)
    requires Lists(t, Dfs(g, p, {}).1)
    ensures var r := ReadStream(File(|t|, Tokens(g, t, p, {})), st);
      && (r.Answer? <==> |t| <= MAX_RELOCS)
      && (r.Answer? ==> exists phi: map<Ref, nat> ::
            phi.Keys <= g.Keys && Isomorphic(g, p, r.st, phi) && Separate(g, st, r.st, phi))
  {
    hide Isomorphic, Separate, Bread, Tokens, Begin, Fresh, File;
    if |t| >= CARD24 {
      FileUnreadable(g, t, p, st);
    } else {
      FileExact(g, t, p);
      if |t| <= MAX_RELOCS {
        var st', v', ret := ReadWritten(g, p, t, st);
      }
    }
  }

  /** Writing p and reading the file: the reader accepts it exactly when there are at most
      10,000,000 shared objects, and then holds the same graph. */
  method WriteThenRead(w: Writer, p: Ref, r: Reader) returns (status: Status, ghost t: seq<Ref>)
    requires Closed(w.g) && Interned(w.g) && IsRef(w.g, p) && Fresh(r.st)
    requires w.marked == {} && w.multiple == {} && w.reloc.Valid()
    modifies w, w.reloc, w.reloc.relocp, w.reloc.relocf, r
    ensures w.marked == {} && w.multiple == {} && w.reloc.Valid() && Lists(t, Dfs(w.g, p, {}).1)
    ensures status == Fine <==> |t| <= MAX_RELOCS
    ensures status == Fine ==> exists phi: map<BinaryGraph.Ref, nat> ::
      phi.Keys <= w.g.Keys && Isomorphic(w.g, p, r.st, phi) && Separate(w.g, old(r.st), r.st, phi)
  {
    hide Isomorphic, Separate, ReadStream, File, Fresh;
    var f;
    f, t := w.Bwrite(p);
    RoundTrip(w.g, p, t, r.st);
    status := r.BreadFile(f);
  }
}
