/** The mark-and-recount garbage collector (src/allocate.c:238-433). */
module Collector {
  import opened LispHeap

  ghost predicate AllIn(refs: seq<Ref>, W: set<Ref>) { forall r :: r in refs ==> r == 0 || r in W }

  /** A walk from refs when V was visited before ends with W visited: it closes what
      it adds, and adds nothing that a closed set holding refs could leave out. */
  ghost predicate Walked(obj: Objects, V: set<Ref>, W: set<Ref>, refs: seq<Ref>) {
    && V <= W && AllIn(refs, W)
    && PointsInto(obj, W - V, W)
    && forall S: set<Ref> :: PointsInto(obj, S, S) && AllIn(refs, S) ==> W <= V + S
  }

  /** The set of objects reachable from the roots. */
  ghost predicate IsReach(obj: Objects, roots: seq<Ref>, L: set<Ref>) { Walked(obj, {}, L, roots) }

  /** L is closed and holds the roots, is the least such set, and is the only one. */
  lemma ReachIsLeast(obj: Objects, roots: seq<Ref>, L: set<Ref>)
    requires IsReach(obj, roots, L)
    ensures PointsInto(obj, L, L) && AllIn(roots, L)
    ensures forall S: set<Ref> :: PointsInto(obj, S, S) && AllIn(roots, S) ==> L <= S
    ensures forall M :: IsReach(obj, roots, M) ==> M == L
  {
    assert L - {} == L;
    forall M | IsReach(obj, roots, M) ensures M == L {
      assert M - {} == M && PointsInto(obj, M, M);
      assert L <= {} + M && M <= {} + L;
    }
  }

  lemma WalkSeen(obj: Objects, V: set<Ref>, p: Ref)
    requires p == 0 || p in V
    ensures Walked(obj, V, V, [p])
  {
  }

  lemma WalkEnter(obj: Objects, V: set<Ref>, W: set<Ref>, p: Ref)
    requires p != 0 && p in obj && p !in V && Walked(obj, V + {p}, W, Kids(obj[p]))
    ensures Walked(obj, V, W, [p])
  {
    assert AllIn(Kids(obj[p]), W);
    forall S: set<Ref> | PointsInto(obj, S, S) && AllIn([p], S) ensures W <= V + S {
      assert [p][0] in S;
      assert AllIn(Kids(obj[p]), S);
      assert V + {p} + S == V + S;
    }
  }

  lemma WalkSeq(obj: Objects, U: set<Ref>, V: set<Ref>, W: set<Ref>, r1: seq<Ref>, r2: seq<Ref>)
    requires Walked(obj, U, V, r1) && Walked(obj, V, W, r2)
    ensures Walked(obj, U, W, r1 + r2)
  {
    forall S: set<Ref> | PointsInto(obj, S, S) && AllIn(r1 + r2, S) ensures W <= U + S {
      assert forall r :: r in r1 || r in r2 ==> r in r1 + r2;
      assert V <= U + S && W <= V + S;
    }
  }

  // ------------------------------------------------------------ counting

  ghost function Used(count: map<Ref, nat>): set<Ref> { set c | c in count && count[c] > 0 }

  /** Marking refs turns count into count': the walk visits what it visits, and each
      count grows by the references followed, from refs and from new objects. */
  ghost predicate Marked(obj: Objects, count: map<Ref, nat>, count': map<Ref, nat>, refs: seq<Ref>) {
    && count'.Keys == count.Keys
    && Walked(obj, Used(count), Used(count'), refs)
    && forall a :: a in count && a != 0 ==>
         count'[a] == count[a] + Occurs(refs, a) + InRefs(obj, Used(count') - Used(count), a)
  }

  lemma MarkNil(obj: Objects, count: map<Ref, nat>)
    ensures Marked(obj, count, count, []) && Marked(obj, count, count, [0])
  {
    WalkSeen(obj, Used(count), 0);
    assert Used(count) - Used(count) == {};
    forall a ensures InRefs(obj, {}, a) == 0 { InRefsEmpty(obj, a); }
  }

  lemma MarkSeen(obj: Objects, count: map<Ref, nat>, p: Ref)
    requires p in count && count[p] > 0
    ensures Marked(obj, count, count[p := count[p] + 1], [p])
  {
    var count' := count[p := count[p] + 1];
    assert Used(count') == Used(count);
    assert Used(count') - Used(count) == {};
    WalkSeen(obj, Used(count), p);
    forall a ensures InRefs(obj, {}, a) == 0 { InRefsEmpty(obj, a); }
  }

  lemma MarkEnter(obj: Objects, count: map<Ref, nat>, count': map<Ref, nat>, p: Ref)
    requires p != 0 && p in count && p in obj && count[p] == 0 && Marked(obj, count[p := 1], count', Kids(obj[p]))
    ensures Marked(obj, count, count', [p])
  {
    var V, W := Used(count), Used(count');
    assert Used(count[p := 1]) == V + {p};
    WalkEnter(obj, V, W, p);
    assert W - V == (W - (V + {p})) + {p};
    forall a | a in count && a != 0
      ensures count'[a] == count[a] + Occurs([p], a) + InRefs(obj, W - V, a)
    {
      InRefsGrow(obj, W - (V + {p}), p, a);
    }
  }

  lemma MarkSeq(obj: Objects, c0: map<Ref, nat>, c1: map<Ref, nat>, c2: map<Ref, nat>, r1: seq<Ref>, r2: seq<Ref>)
    requires Marked(obj, c0, c1, r1) && Marked(obj, c1, c2, r2)
    ensures Marked(obj, c0, c2, r1 + r2)
  {
    var U, V, W := Used(c0), Used(c1), Used(c2);
    WalkSeq(obj, U, V, W, r1, r2);
    assert W - U == (V - U) + (W - V);
    forall a | a in c0 && a != 0 ensures c2[a] == c0[a] + Occurs(r1 + r2, a) + InRefs(obj, W - U, a) {
      InRefsAdd(obj, V - U, W - V, a);
      assert multiset(r1 + r2) == multiset(r1) + multiset(r2);
    }
  }

  /** Marking the roots from zero makes every count exact. */
  lemma MarkExact(obj: Objects, count: map<Ref, nat>, count': map<Ref, nat>, roots: seq<Ref>)
    requires Used(count) == {} && Marked(obj, count, count', roots)
    ensures IsReach(obj, roots, Used(count'))
    ensures forall a :: a in count && a != 0 ==>
      count'[a] == Occurs(roots, a) + InRefs(obj, Used(count'), a)
  {
    assert Used(count') - {} == Used(count');
    forall a | a in count ensures count[a] == 0 {
      assert a !in Used(count);
    }
  }

  /** Objects outside the reachable set can change at will. */
  lemma ReachFrame(obj: Objects, obj': Objects, roots: seq<Ref>, L: set<Ref>)
    requires IsReach(obj, roots, L)
    requires forall c :: c in L ==> (c in obj <==> c in obj') && (c in obj ==> obj[c] == obj'[c])
    ensures IsReach(obj', roots, L)
  {
    ReachIsLeast(obj, roots, L);
    assert L - {} == L;
    forall S: set<Ref> | PointsInto(obj', S, S) && AllIn(roots, S) ensures L <= {} + S {
      assert PointsInto(obj, S * L, S * L);
      assert L <= S * L;
    }
  }

  /** What a collection establishes: the cells with a count are the reachable ones,
      and each count is the number of references from roots and reachable cells. */
  ghost predicate Exact(obj: Objects, count: map<Ref, nat>, roots: seq<Ref>) {
    && IsReach(obj, roots, Used(count))
    && forall a :: a in count && a != 0 ==> count[a] == Occurs(roots, a) + InRefs(obj, Used(count), a)
  }

  ghost predicate FreeIsRest(count: map<Ref, nat>, free: seq<Ref>) {
    && (forall i, j :: 0 <= i < j < |free| ==> free[i] != free[j])
    && forall c :: c in free <==> c in count && count[c] == 0
  }

  /** References lead to cells, and from cells in use to cells in use. What a free
      cell still holds from its last use is left open. */
  ghost predicate Sound(obj: Objects, count: map<Ref, nat>) {
    PointsInto(obj, obj.Keys, obj.Keys) && PointsInto(obj, Used(count), Used(count))
  }

  /** The names are distinct symbols in use with at least one value each, and the
      protected list is in use. */
  ghost predicate Rooted(obj: Objects, count: map<Ref, nat>, names: seq<Ref>, prot: Ref) {
    && (forall s :: s in names ==> s in Used(count) && s in obj && obj[s].Symbol? && obj[s].values != [])
    && (forall j, k :: 0 <= j < k < |names| ==> names[j] != names[k])
    && (prot == 0 || prot in Used(count))
  }

  ghost function Without(roots: seq<Ref>, i: nat): seq<Ref>
    requires i < |roots|
  {
    roots[..i] + roots[i + 1..]
  }

  lemma WithoutOccurs(roots: seq<Ref>, i: nat)
    requires i < |roots|
    ensures forall a :: Occurs(roots, a) == Occurs(Without(roots, i), a) + if a == roots[i] then 1 else 0
    ensures forall r :: r in roots <==> r in Without(roots, i) || r == roots[i]
    ensures Occurs(Without(roots, i), roots[i]) == 0 ==> roots[i] !in Without(roots, i)
  {
    assert roots == roots[..i] + ([roots[i]] + roots[i + 1..]);
    assert multiset(roots) == multiset(Without(roots, i)) + multiset{roots[i]};
    assert forall r :: r in roots <==> r in multiset(roots);
    assert forall r :: r in Without(roots, i) <==> r in multiset(Without(roots, i));
  }

  /** Dropping a root that only the root list refers to, and that refers to nothing. */
  lemma DropRoot(obj: Objects, count: map<Ref, nat>, roots: seq<Ref>, i: nat)
    requires Exact(obj, count, roots) && i < |roots| && roots[i] != 0 && roots[i] in count && count[roots[i]] == 1
    requires roots[i] in obj && forall k :: k in Kids(obj[roots[i]]) ==> k == 0
    ensures Exact(obj, count[roots[i] := 0], Without(roots, i))
  {
    var q, rest, L := roots[i], Without(roots, i), Used(count);
    var L' := L - {q};
    assert Used(count[q := 0]) == L';
    WithoutOccurs(roots, i);
    assert Occurs(rest, q) == 0 && InRefs(obj, L, q) == 0;
    DropReach(obj, L, roots, i);
    forall a | a in count && a != 0 ensures count[q := 0][a] == Occurs(rest, a) + InRefs(obj, L', a) {
      assert L == L' + {q};
      InRefsGrow(obj, L', q, a);
      NoKid(Kids(obj[q]), a);
    }
  }

  lemma DropReach(obj: Objects, L: set<Ref>, roots: seq<Ref>, i: nat)
    requires IsReach(obj, roots, L) && i < |roots| && roots[i] in obj && forall k :: k in Kids(obj[roots[i]]) ==> k == 0
    requires InRefs(obj, L, roots[i]) == 0 && roots[i] !in Without(roots, i)
    ensures IsReach(obj, Without(roots, i), L - {roots[i]})
  {
    var q, rest := roots[i], Without(roots, i);
    var L' := L - {q};
    WithoutOccurs(roots, i);
    ReachIsLeast(obj, roots, L);
    assert L' - {} == L';
    forall c, k | c in L' && c in obj && k in Kids(obj[c]) ensures k == 0 || k in L' {
      if k == q {
        Referred(obj, L, c, q);
      }
    }
    forall S: set<Ref> | PointsInto(obj, S, S) && AllIn(rest, S) ensures L' <= {} + S {
      assert PointsInto(obj, S + {q}, S + {q});
      assert AllIn(roots, S + {q});
      assert L <= S + {q};
    }
  }

  lemma NoKid(ks: seq<Ref>, a: Ref)
    requires a != 0 && forall k :: k in ks ==> k == 0
    ensures Occurs(ks, a) == 0
  {
    assert forall k :: k in multiset(ks) ==> k in ks;
  }

  // ------------------------------------------------------- the collector

  class Heap {
    const cells: seq<Ref>           // every cell of every chunk, in sweep order
    var obj: Objects
    var count: map<Ref, nat>
    var garbage: set<Ref>           // cells with flag C_GARBAGE
    var freelist: seq<Ref>

    ghost predicate Shape()
      reads this
    {
      && 0 !in cells && obj.Keys == count.Keys == (set c | c in cells)
      && forall i, j :: 0 <= i < j < |cells| ==> cells[i] != cells[j]
    }

    /** What a collection asks of the heap. */
    ghost predicate Ready(names: seq<Ref>, prot: Ref)
      reads this
    {
      Shape() && Sound(obj, count) && Rooted(obj, count, names, prot)
    }

    /** mark: follows every link; a cell is entered when its count leaves zero. */
    method Mark(p0: Ref)
      requires Shape() && (p0 == 0 || p0 in obj) && PointsInto(obj, obj.Keys, obj.Keys)
      modifies this`count
      ensures Shape() && Marked(obj, old(count), count, [p0])
      decreases obj.Keys - Used(count), 1
    {
      hide Marked;
      var p := p0;
      while p != 0
        invariant Shape() && (p == 0 || p in obj) && Used(old(count)) <= Used(count)
        invariant Used(old(count)) == Used(count) ==> p == p0
        invariant forall c :: Marked(obj, count, c, [p]) ==> Marked(obj, old(count), c, [p0])
        decreases obj.Keys - Used(count)
      {
        ghost var c0 := count;
        if count[p] != 0 {
          count := count[p := count[p] + 1];
          MarkSeen(obj, c0, p);
          return;
        }
        count := count[p := count[p] + 1];
        assert Used(count) == Used(c0) + {p};
        ghost var c1 := count;
        if !obj[p].Cons? {
          MarkEach(Kids(obj[p]));
          MarkEnter(obj, c0, count, p);
          return;
        }
        Mark(obj[p].car);
        MarkedGrows(obj, c1, count, [obj[p].car]);
        forall c | Marked(obj, count, c, [obj[p].cdr]) ensures Marked(obj, old(count), c, [p0]) {
          MarkSeq(obj, c1, count, c, [obj[p].car], [obj[p].cdr]);
          assert [obj[p].car] + [obj[p].cdr] == Kids(obj[p]);
          MarkEnter(obj, c0, c, p);
        }
        p := obj[p].cdr;
      }
      MarkNil(obj, count);
    }

    /** self_action with action mark */
    method MarkEach(ks: seq<Ref>)
      requires Shape() && PointsInto(obj, obj.Keys, obj.Keys)
      requires forall k :: k in ks ==> k == 0 || k in obj
      modifies this`count
      ensures Shape() && Marked(obj, old(count), count, ks)
      decreases obj.Keys - Used(count), 2, |ks|
    {
      hide Marked;
      MarkNil(obj, count);
      var i := 0;
      while i < |ks|
        invariant 0 <= i <= |ks| && Shape() && Used(old(count)) <= Used(count)
        invariant Marked(obj, old(count), count, ks[..i])
      {
        ghost var c := count;
        Mark(ks[i]);
        MarkSeq(obj, old(count), c, count, ks[..i], [ks[i]]);
        MarkedGrows(obj, c, count, [ks[i]]);
        assert ks[..i + 1] == ks[..i] + [ks[i]];
        i := i + 1;
      }
      assert ks[..i] == ks;
    }

    /** unflag: clears C_GARBAGE along every link. */
    method Unflag(p0: Ref)
      requires Shape() && (p0 == 0 || p0 in obj) && PointsInto(obj, obj.Keys, obj.Keys) && garbage <= obj.Keys
      modifies this`garbage
      ensures garbage <= old(garbage) && Walked(obj, obj.Keys - old(garbage), obj.Keys - garbage, [p0])
      decreases garbage, 1
    {
      hide Walked;
      var p := p0;
      while p != 0 && p in garbage
        invariant (p == 0 || p in obj) && garbage <= old(garbage) && (garbage == old(garbage) ==> p == p0)
        invariant forall W :: Walked(obj, obj.Keys - garbage, W, [p]) ==> Walked(obj, obj.Keys - old(garbage), W, [p0])
        decreases garbage
      {
        ghost var V := obj.Keys - garbage;
        garbage := garbage - {p};
        assert obj.Keys - garbage == V + {p};
        if !obj[p].Cons? {
          UnflagEach(Kids(obj[p]));
          WalkEnter(obj, V, obj.Keys - garbage, p);
          return;
        }
        Unflag(obj[p].car);
        ghost var U := obj.Keys - garbage;
        forall W | Walked(obj, U, W, [obj[p].cdr]) ensures Walked(obj, obj.Keys - old(garbage), W, [p0]) {
          WalkSeq(obj, V + {p}, U, W, [obj[p].car], [obj[p].cdr]);
          assert [obj[p].car] + [obj[p].cdr] == Kids(obj[p]);
          WalkEnter(obj, V, W, p);
        }
        p := obj[p].cdr;
      }
      WalkSeen(obj, obj.Keys - garbage, p);
    }

    method UnflagEach(ks: seq<Ref>)
      requires Shape() && PointsInto(obj, obj.Keys, obj.Keys) && garbage <= obj.Keys
      requires forall k :: k in ks ==> k == 0 || k in obj
      modifies this`garbage
      ensures garbage <= old(garbage) && Walked(obj, obj.Keys - old(garbage), obj.Keys - garbage, ks)
      decreases garbage, 2, |ks|
    {
      WalkNone(obj, obj.Keys - garbage);
      hide Walked;
      var i := 0;
      while i < |ks|
        invariant 0 <= i <= |ks| && garbage <= old(garbage)
        invariant Walked(obj, obj.Keys - old(garbage), obj.Keys - garbage, ks[..i])
      {
        ghost var V := obj.Keys - garbage;
        Unflag(ks[i]);
        WalkSeq(obj, obj.Keys - old(garbage), V, obj.Keys - garbage, ks[..i], [ks[i]]);
        assert ks[..i + 1] == ks[..i] + [ks[i]];
        i := i + 1;
      }
      assert ks[..i] == ks;
    }

    /** Forgets every stacked value of the named symbols but the outermost. */
    method PopAll(names: seq<Ref>)
      requires Shape() && forall s :: s in names ==> s in obj && obj[s].Symbol? && obj[s].values != []
      modifies this`obj
      ensures Shape() && obj == Popped(old(obj), names)
    {
      var i := 0;
      PoppedNone(obj);
      hide Popped;
      while i < |names|
        invariant 0 <= i <= |names| && Shape() && obj == Popped(old(obj), names[..i])
      {
        assert names[..i + 1] == names[..i] + [names[i]];
        PoppedOne(old(obj), names[..i], names[i]);
        var vs := obj[names[i]].values;
        obj := obj[names[i] := Symbol([vs[|vs| - 1]])];
        i := i + 1;
      }
      assert names[..i] == names;
    }

    /** Destroys the flagged external objects; a zombie refers to nothing. */
    method Zombify()
      requires Shape()
      modifies this`obj
      ensures Shape() && obj == map c | c in old(obj) :: Buried(old(obj), count, garbage, c)
    {
      assert forall k :: 0 <= k < |cells| ==> cells[k] in obj;
      var i := 0;
      while i < |cells|
        invariant 0 <= i <= |cells| && Shape()
        invariant forall k :: 0 <= k < i ==> obj[cells[k]] == Buried(old(obj), count, garbage, cells[k])
        invariant forall k :: i <= k < |cells| ==> obj[cells[k]] == old(obj)[cells[k]]
      {
        var c := cells[i];
        if count[c] > 0 && c in garbage && (obj[c].Extern? || obj[c].Symbol?) {
          obj := obj[c := Extern([])];
        }
        i := i + 1;
      }
      AllBuried(cells, old(obj), obj, count, garbage);
    }

    /** Rebuilds the free list from the cells whose count is zero. */
    method Sweep()
      requires Shape()
      modifies this`freelist
      ensures FreeIsRest(count, freelist)
    {
      freelist := [];
      var i := 0;
      while i < |cells|
        invariant 0 <= i <= |cells|
        invariant forall j, k :: 0 <= j < k < |freelist| ==> freelist[j] != freelist[k]
        invariant forall c :: c in freelist <==> c in cells[..i] && count[c] == 0
      {
        assert cells[..i + 1] == cells[..i] + [cells[i]];
        assert cells[i] !in cells[..i];
        if count[cells[i]] == 0 {
          freelist := [cells[i]] + freelist;
        }
        i := i + 1;
      }
      assert cells[..i] == cells;
    }

    /** Flags every object in use and raises its count. */
    method FlagAll()
      requires Shape()
      modifies this`count, this`garbage
      ensures Shape() && garbage == Used(count) == Used(old(count))
    {
      count := map c | c in count :: if count[c] > 0 then count[c] + 0x40000000 else 0;
      garbage := set c | c in count && count[c] > 0;
    }

    /** Unwinds the symbols, then takes the flag off what is named or protected. */
    method FindGarbage(names: seq<Ref>, prot: Ref)
      requires Ready(names, prot)
      modifies this`obj, this`count, this`garbage
      ensures Shape() && obj == Popped(old(obj), names) && Used(count) == Used(old(count)) && garbage <= Used(count)
      ensures IsReach(obj, names + [prot], Used(count) - garbage) && PointsInto(obj, obj.Keys, obj.Keys)
    {
      ghost var U := Used(count);
      assert forall r :: r in names + [prot] ==> r in names || r == prot;
      FlagAll();
      PopAll(names);
      PoppedPoints(old(obj), names, U, U);
      PoppedPoints(old(obj), names, obj.Keys, obj.Keys);
      assert U <= obj.Keys;
      hide Walked, Popped;
      UnflagEach(names + [prot]);
      assert obj.Keys - garbage - (obj.Keys - U) == U - garbage;
      assert AllIn(names + [prot], U) && PointsInto(obj, U, U);
      WalkIsReach(obj, obj.Keys - U, obj.Keys - garbage, names + [prot], U);
    }

    /** Counts again from zero, starting at the roots. */
    method Recount(roots: seq<Ref>, ghost L: set<Ref>)
      requires Shape() && PointsInto(obj, obj.Keys, obj.Keys) && forall r :: r in roots ==> r == 0 || r in obj
      requires IsReach(obj, roots, L)
      modifies this`count, this`garbage
      ensures Shape() && garbage == {} && Used(count) == L && Exact(obj, count, roots)
    {
      count, garbage := map c | c in count :: 0, {};
      ghost var zero := count;
      assert Used(zero) == {};
      hide Marked, Exact, IsReach;
      MarkEach(roots);
      ExactAgain(obj, zero, count, roots);
      ExactReach(obj, count, roots);
      ReachOnce(obj, roots, L, Used(count));
    }

    method Bury(roots: seq<Ref>, ghost L: set<Ref>)
      requires Shape() && IsReach(obj, roots, L) && L == Used(count) - garbage && PointsInto(obj, obj.Keys, obj.Keys)
      modifies this`obj
      ensures Shape() && IsReach(obj, roots, L) && PointsInto(obj, obj.Keys, obj.Keys)
      ensures forall c :: c in L ==> c in obj && obj[c] == old(obj)[c]
    {
      ghost var obj1 := obj;
      Zombify();
      BuryFrame(obj1, count, garbage, roots, L);
      BuryPoints(obj1, count, garbage);
    }

    /** garbage(TRUE). Everything named or protected survives unchanged, apart from
        the stacked values of symbols; all other cells end up on the free list. */
    method Garbage(names: seq<Ref>, prot: Ref, keep: set<Ref>) returns (left: seq<Ref>)
      requires Ready(names, prot)
      modifies this
      ensures Ready(left, prot)
      ensures Exact(obj, count, left + [prot]) && FreeIsRest(count, freelist) && garbage == {}
      ensures forall c :: c in Used(count) ==> c in obj && obj[c] == Popped(old(obj), names)[c]
      ensures IsReach(obj, names + [prot], Used(count) + Dead(names, left))
      ensures forall s :: s in Dead(names, left) ==> s in obj && obj[s] == Symbol([0]) && s !in keep
      ensures forall s :: s in left ==>
        s in names && s in obj && s in count && (count[s] == 1 ==> s in keep || obj[s] != Symbol([0]))
    {
      hide Exact, IsReach, PointsInto, FreeIsRest, Sound, Rooted;
      ghost var obj0, count0 := obj, count;
      FindGarbage(names, prot);
      ghost var L := Used(count) - garbage;
      Bury(names + [prot], L);
      NamesPopped(obj0, count0, obj, names, prot, L);
      Recount(names + [prot], L);
      Sweep();
      left := KillNames(names, prot, keep);
      ReadyAgain(obj, count, left, prot);
    }

    /** kill_name, for the unbound symbols that nothing but the name table refers to. */
    method KillNames(names: seq<Ref>, prot: Ref, keep: set<Ref>) returns (left: seq<Ref>)
      requires Shape() && Exact(obj, count, names + [prot]) && FreeIsRest(count, freelist)
      requires forall s :: s in names ==> s in obj && obj[s].Symbol? && |obj[s].values| == 1
      requires forall j, k :: 0 <= j < k < |names| ==> names[j] != names[k]
      modifies this`count, this`freelist
      ensures Shape() && Exact(obj, count, left + [prot]) && FreeIsRest(count, freelist)
      ensures forall s :: s in left ==>
        s in names && s in obj && s in count && (count[s] == 1 ==> s in keep || obj[s] != Symbol([0]))
      ensures forall s :: s in Dead(names, left) ==> s in obj && obj[s] == Symbol([0]) && s !in keep
      ensures forall j, k :: 0 <= j < k < |left| ==> left[j] != left[k]
      ensures Used(old(count)) == Used(count) + Dead(names, left)
    {
      hide Exact, FreeIsRest;
      left := names;
      var i := 0;
      while i < |left|
        invariant 0 <= i <= |left| && Shape() && Exact(obj, count, left + [prot]) && FreeIsRest(count, freelist)
        invariant forall j, k :: 0 <= j < k < |left| ==> left[j] != left[k]
        invariant forall s :: s in left ==> s in names
        invariant Used(old(count)) == Used(count) + Dead(names, left)
        invariant forall s :: s in Dead(names, left) ==> s in obj && obj[s] == Symbol([0]) && s !in keep
        invariant forall k :: 0 <= k < i && count[left[k]] == 1 ==> left[k] in keep || obj[left[k]].values != [0]
        decreases |left| - i
      {
        var q := left[i];
        if count[q] == 1 && q !in keep && obj[q].values == [0] {
          ghost var was, old1 := left, count;
          KillName(left, i, prot);
          left := left[..i] + left[i + 1..];
          assert forall s :: s in was <==> s in left || s == q;
          assert Dead(names, left) == Dead(names, was) + {q};
          assert Used(old1) == Used(count) + {q};
        } else {
          i := i + 1;
        }
      }
    }

    method KillName(left: seq<Ref>, i: nat, prot: Ref)
      requires Shape() && Exact(obj, count, left + [prot]) && FreeIsRest(count, freelist)
      requires i < |left| && left[i] in obj && obj[left[i]] == Symbol([0]) && count[left[i]] == 1
      modifies this`count, this`freelist
      ensures Shape() && Exact(obj, count, left[..i] + left[i + 1..] + [prot]) && FreeIsRest(count, freelist)
      ensures count == old(count)[left[i] := 0]
    {
      hide Exact;
      DropRoot(obj, count, left + [prot], i);
      assert Without(left + [prot], i) == left[..i] + left[i + 1..] + [prot];
      count, freelist := count[left[i] := 0], [left[i]] + freelist;
    }
  }

  ghost function Dead(names: seq<Ref>, left: seq<Ref>): set<Ref> { set s | s in names && s !in left }

  lemma ExactReach(obj: Objects, count: map<Ref, nat>, roots: seq<Ref>)
    requires Exact(obj, count, roots)
    ensures IsReach(obj, roots, Used(count))
  {
  }

  /** After a collection the next one can start. */
  lemma ReadyAgain(obj: Objects, count: map<Ref, nat>, left: seq<Ref>, prot: Ref)
    requires Exact(obj, count, left + [prot]) && PointsInto(obj, obj.Keys, obj.Keys) && 0 !in left
    requires forall s :: s in left ==> s in obj && obj[s].Symbol? && obj[s].values != []
    requires forall j, k :: 0 <= j < k < |left| ==> left[j] != left[k]
    ensures Sound(obj, count) && Rooted(obj, count, left, prot)
  {
    ReachIsLeast(obj, left + [prot], Used(count));
    assert forall r :: r in left || r == prot ==> r in left + [prot];
  }

  lemma AllBuried(cells: seq<Ref>, obj0: Objects, obj: Objects, count: map<Ref, nat>, garbage: set<Ref>)
    requires obj.Keys == obj0.Keys == set c | c in cells
    requires forall k :: 0 <= k < |cells| ==> obj[cells[k]] == Buried(obj0, count, garbage, cells[k])
    ensures obj == map c | c in obj0 :: Buried(obj0, count, garbage, c)
  {
    hide Buried;
    assert forall c :: c in obj0 ==> c in cells;
  }

  lemma BuryPoints(obj: Objects, count: map<Ref, nat>, garbage: set<Ref>)
    requires PointsInto(obj, obj.Keys, obj.Keys)
    ensures PointsInto(map c | c in obj :: Buried(obj, count, garbage, c), obj.Keys, obj.Keys)
  {
  }

  /** The named symbols are reachable, with one value left each. */
  lemma NamesPopped(obj0: Objects, count0: map<Ref, nat>, obj: Objects, names: seq<Ref>, prot: Ref, L: set<Ref>)
    requires Rooted(obj0, count0, names, prot) && 0 !in obj0
    requires IsReach(obj, names + [prot], L) && L <= obj.Keys
    requires forall c :: c in L ==> c in obj0 && obj[c] == Popped(obj0, names)[c]
    ensures forall r :: r in names + [prot] ==> r == 0 || r in obj
    ensures forall s :: s in names ==> s != 0 && s in obj && obj[s].Symbol? && |obj[s].values| == 1
    ensures forall j, k :: 0 <= j < k < |names| ==> names[j] != names[k]
  {
    assert forall s :: s in names ==> s in names + [prot];
  }

  /** Bury what the walk did not reach: the reachable objects are untouched. */
  lemma BuryFrame(obj: Objects, count: map<Ref, nat>, garbage: set<Ref>, roots: seq<Ref>, L: set<Ref>)
    requires IsReach(obj, roots, L) && L !! garbage
    ensures IsReach(map c | c in obj :: Buried(obj, count, garbage, c), roots, L)
  {
    ReachFrame(obj, map c | c in obj :: Buried(obj, count, garbage, c), roots, L);
  }

  /** A walk that starts where nothing in use was visited reaches what is reachable. */
  lemma WalkIsReach(obj: Objects, V: set<Ref>, W: set<Ref>, roots: seq<Ref>, U: set<Ref>)
    requires Walked(obj, V, W, roots) && V !! U && PointsInto(obj, U, U) && AllIn(roots, U)
    ensures IsReach(obj, roots, W - V)
  {
    assert W <= V + U;
    var L := W - V;
    assert PointsInto(obj, L, L) && AllIn(roots, L);
    assert L - {} == L;
    forall S: set<Ref> | PointsInto(obj, S, S) && AllIn(roots, S) ensures L <= {} + S {
      assert W <= V + S;
    }
  }

  lemma ExactAgain(obj: Objects, count: map<Ref, nat>, count': map<Ref, nat>, roots: seq<Ref>)
    requires Used(count) == {} && Marked(obj, count, count', roots)
    ensures Exact(obj, count', roots)
  {
    MarkExact(obj, count, count', roots);
  }

  lemma ReachOnce(obj: Objects, roots: seq<Ref>, L: set<Ref>, M: set<Ref>)
    requires IsReach(obj, roots, L) && IsReach(obj, roots, M)
    ensures L == M
  {
    ReachIsLeast(obj, roots, L);
  }

  function Buried(obj: Objects, count: map<Ref, nat>, garbage: set<Ref>, c: Ref): Obj
    requires c in obj
  {
    if c in count && count[c] > 0 && c in garbage && (obj[c].Extern? || obj[c].Symbol?) then Extern([]) else obj[c]
  }

  function Popped(obj: Objects, names: seq<Ref>): Objects {
    map c | c in obj :: if c in names && obj[c].Symbol? && obj[c].values != []
      then Symbol([obj[c].values[|obj[c].values| - 1]]) else obj[c]
  }

  lemma PoppedNone(obj: Objects)
    ensures Popped(obj, []) == obj
  {
  }

  lemma PoppedOne(obj: Objects, names: seq<Ref>, n: Ref)
    requires n in obj && obj[n].Symbol? && obj[n].values != []
    ensures var o := Popped(obj, names)[n];
      && o.Symbol? && o.values != []
      && Popped(obj, names + [n]) == Popped(obj, names)[n := Symbol([o.values[|o.values| - 1]])]
  {
  }

  lemma PoppedPoints(obj: Objects, names: seq<Ref>, S: set<Ref>, U: set<Ref>)
    requires PointsInto(obj, S, U)
    ensures PointsInto(Popped(obj, names), S, U)
  {
    forall c, k | c in S && c in obj && k in Kids(Popped(obj, names)[c]) ensures k == 0 || k in U {
      assert k in Kids(obj[c]);
    }
  }

  lemma WalkNone(obj: Objects, V: set<Ref>)
    ensures Walked(obj, V, V, [])
  {
  }

  lemma MarkedGrows(obj: Objects, count: map<Ref, nat>, count': map<Ref, nat>, refs: seq<Ref>)
    requires Marked(obj, count, count', refs)
    ensures Used(count) <= Used(count') && count.Keys == count'.Keys
  {
  }
}
