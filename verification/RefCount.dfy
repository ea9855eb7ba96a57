/** Reference counting with cascading release (include/header.h:206-207,
    src/at.c:51-135, src/at.c:372-407). */
module RefCount {
  import opened Basics
  import opened LispHeap

  /** Outside references: local variables, the protected list, C structures. */
  type Handles = multiset<Ref>

  /** Each live object's count is the number of references to it, from handles and
      from live objects; handles and live objects refer to live objects only. */
  ghost predicate Balanced(obj: Objects, count: map<Ref, int>, live: set<Ref>, H: Handles) {
    && obj.Keys == count.Keys && live <= obj.Keys && 0 !in obj
    && (forall r :: r in H ==> r == 0 || r in live)
    && PointsInto(obj, live, live)
    && forall a :: a in live ==> count[a] == H[a] + InRefs(obj, live, a)
  }

  ghost predicate AllCounted(count: map<Ref, int>, live: set<Ref>) {
    forall a :: a in live ==> a in count && count[a] > 0
  }

  /** The free list holds every other cell once; cells being released are on neither side. */
  ghost predicate FreeList(obj: Objects, free: seq<Ref>, live: set<Ref>, dying: set<Ref>) {
    && live !! dying && dying <= obj.Keys
    && (forall i, j :: 0 <= i < j < |free| ==> free[i] != free[j])
    && forall c :: c in free <==> c in obj && c !in live && c !in dying
  }

  /** Taking one reference to a live object raises one count. */
  lemma TakeRef(obj: Objects, count: map<Ref, int>, live: set<Ref>, H: Handles, x: Ref)
    requires Balanced(obj, count, live, H) && x in live
    ensures Balanced(obj, count[x := count[x] + 1], live, H + multiset{x})
  {
  }

  /** References to NIL are not counted. */
  lemma NilRef(obj: Objects, count: map<Ref, int>, live: set<Ref>, H: Handles)
    requires Balanced(obj, count, live, H)
    ensures Balanced(obj, count, live, H - multiset{0}) && Balanced(obj, count, live, H + multiset{0})
  {
  }

  /** An object whose count is zero dies: nothing refers to it, and what it referred
      to is now held by the code that releases it. */
  lemma Bury(obj: Objects, count: map<Ref, int>, live: set<Ref>, H: Handles, q: Ref)
    requires Balanced(obj, count, live, H) && q in live && count[q] == 0
    ensures q !in H && Balanced(obj, count, live - {q}, H + multiset(Kids(obj[q])))
  {
    var rest, ks := live - {q}, Kids(obj[q]);
    assert live == rest + {q};
    forall a | a in rest ensures count[a] == (H + multiset(ks))[a] + InRefs(obj, rest, a) {
      InRefsGrow(obj, rest, q, a);
    }
    assert H[q] == 0 && InRefs(obj, live, q) == 0;
    forall c, k | c in live && c in obj && k in Kids(obj[c]) ensures k == 0 || k in rest {
      if k == q {
        Referred(obj, live, c, q);
      }
    }
    assert forall k :: k in multiset(ks) ==> k in ks;
  }

  /** A new object enters with one handle; what it refers to was held by handles. */
  lemma Enter(obj: Objects, count: map<Ref, int>, live: set<Ref>, H: Handles, q: Ref, o: Obj)
    requires Balanced(obj, count, live, H + multiset(Kids(o))) && q !in live && q != 0 && q in obj && q !in H
    requires q !in Kids(o)
    ensures Balanced(obj[q := o], count[q := 1], live + {q}, H + multiset{q})
  {
    hide InRefs, Kids;
    assert forall k :: k in Kids(o) ==> k in multiset(Kids(o));
    forall a | a in live + {q}
      ensures count[q := 1][a] == (H + multiset{q})[a] + InRefs(obj[q := o], live + {q}, a)
    {
      EnteredRefs(obj, live, q, o, a);
      if a == q {
        NotHeld(obj, live, q);
        NoOccurrence(Kids(o), q);
      }
    }
    EnteredPoints(obj, live, q, o);
  }

  lemma EnteredRefs(obj: Objects, live: set<Ref>, q: Ref, o: Obj, a: Ref)
    requires q !in live
    ensures InRefs(obj[q := o], live + {q}, a) == InRefs(obj, live, a) + Occurs(Kids(o), a)
  {
    InRefsGrow(obj[q := o], live, q, a);
    InRefsSame(obj, obj[q := o], live, a);
  }

  lemma EnteredPoints(obj: Objects, live: set<Ref>, q: Ref, o: Obj)
    requires PointsInto(obj, live, live) && forall k :: k in Kids(o) ==> k == 0 || k in live
    ensures PointsInto(obj[q := o], live + {q}, live + {q})
  {
  }

  lemma NotHeld(obj: Objects, live: set<Ref>, q: Ref)
    requires PointsInto(obj, live, live) && q !in live && q != 0
    ensures InRefs(obj, live, q) == 0
  {
    assert Slots(obj, live, q) == {};
  }

  lemma NoOccurrence(ks: seq<Ref>, a: Ref)
    requires a !in ks
    ensures Occurs(ks, a) == 0
  {
    assert forall k :: k in multiset(ks) ==> k in ks;
  }

  /** One field of a live object changes from t to p. */
  lemma Replace(obj: Objects, count: map<Ref, int>, live: set<Ref>, H: Handles, q: Ref, o: Obj, t: Ref, p: Ref)
    requires Balanced(obj, count, live, H + multiset{p}) && q in live
    requires multiset(Kids(o)) + multiset{t} == multiset(Kids(obj[q])) + multiset{p}
    ensures Balanced(obj[q := o], count, live, H + multiset{t})
  {
    hide InRefs, PointsInto, Kids;
    assert forall k :: k in H ==> k in H + multiset{p};
    ReplacedKids(obj, live, q, o, t, p);
    forall a | a in live ensures count[a] == (H + multiset{t})[a] + InRefs(obj[q := o], live, a) {
      ReplacedRefs(obj, live, q, o, t, p, a);
    }
  }

  lemma ReplacedKids(obj: Objects, live: set<Ref>, q: Ref, o: Obj, t: Ref, p: Ref)
    requires PointsInto(obj, live, live) && q in live && q in obj && (p == 0 || p in live)
    requires multiset(Kids(o)) + multiset{t} == multiset(Kids(obj[q])) + multiset{p}
    ensures PointsInto(obj[q := o], live, live) && (t == 0 || t in live)
  {
    assert forall k :: k in Kids(o) ==> k in multiset(Kids(o)) + multiset{t};
    assert forall k :: k in multiset(Kids(obj[q])) ==> k in Kids(obj[q]);
    assert t in multiset(Kids(o)) + multiset{t};
  }

  lemma ReplacedRefs(obj: Objects, live: set<Ref>, q: Ref, o: Obj, t: Ref, p: Ref, a: Ref)
    requires q in live && q in obj
    requires multiset(Kids(o)) + multiset{t} == multiset(Kids(obj[q])) + multiset{p}
    ensures InRefs(obj[q := o], live, a) + multiset{t}[a] == InRefs(obj, live, a) + multiset{p}[a]
  {
    var rest := live - {q};
    assert live == rest + {q};
    InRefsGrow(obj, rest, q, a);
    InRefsGrow(obj[q := o], rest, q, a);
    InRefsSame(obj, obj[q := o], rest, a);
    assert (multiset(Kids(o)) + multiset{t})[a] == (multiset(Kids(obj[q])) + multiset{p})[a];
  }

  /** A cell being released leaves the live side, then joins the free list. */
  lemma FreeKill(obj: Objects, free: seq<Ref>, live: set<Ref>, dying: set<Ref>, q: Ref)
    requires FreeList(obj, free, live, dying) && q in live && q in obj
    ensures FreeList(obj, free, live - {q}, dying + {q}) && dying + {q} - {q} == dying
  {
  }

  lemma FreeReturn(obj: Objects, free: seq<Ref>, live: set<Ref>, dying: set<Ref>, q: Ref)
    requires FreeList(obj, free, live, dying) && q in dying && q in obj
    ensures FreeList(obj, [q] + free, live, dying - {q})
  {
    var f := [q] + free;
    assert forall i :: 0 < i < |f| ==> f[i] == free[i - 1];
    assert forall c :: c in f <==> c == q || c in free;
  }

  /** Giving one reference back lowers one count, which alone may reach zero. */
  lemma GiveBack(obj: Objects, count: map<Ref, int>, live: set<Ref>, H: Handles, x: Ref)
    requires Balanced(obj, count, live, H) && AllCounted(count, live) && x in H && x != 0
    ensures x in live && x in count && count[x] > 0 && Balanced(obj, count[x := count[x] - 1], live, H - multiset{x})
    ensures AllCounted(count[x := count[x] - 1], live - {x})
    ensures count[x] > 1 ==> AllCounted(count[x := count[x] - 1], live)
  {
  }

  lemma ConsHandles(H: Handles, car: Ref, cdr: Ref)
    ensures H + multiset([car, cdr]) - multiset{car} == H + multiset{cdr} && car in H + multiset([car, cdr])
  {
    assert multiset([car, cdr]) == multiset{car} + multiset{cdr};
  }

  lemma HandleBack(H: Handles, x: Ref)
    ensures x in H + multiset{x} && H + multiset{x} - multiset{x} == H
  {
  }

  class Heap {
    var obj: Objects
    var count: map<Ref, int>
    var free: seq<Ref>
    ghost var live: set<Ref>
    ghost var dying: set<Ref>

    /** The state between two operations, for these handles. */
    ghost predicate Ok(H: Handles)
      reads this
    {
      Balanced(obj, count, live, H) && AllCounted(count, live) && FreeList(obj, free, live, dying)
    }

    /** LOCK(x): takes one more handle. */
    method Lock(x: Ref, ghost H: Handles)
      requires Ok(H) && (x == 0 || x in live)
      modifies this`count
      ensures Ok(H + multiset{x})
    {
      hide Balanced, FreeList;
      if x == 0 {
        NilRef(obj, count, live, H);
      } else {
        LiveCells(obj, count, live, H);
        TakeRef(obj, count, live, H, x);
        count := count[x := count[x] + 1];
      }
    }

    /** UNLOCK(x): gives one handle back. */
    method Unlock(x: Ref, ghost H: Handles)
      requires Ok(H) && x in H
      modifies this`count, this`free, this`live, this`dying
      ensures Ok(H - multiset{x}) && live <= old(live) && dying == old(dying)
      ensures x == 0 ==> live == old(live) && count == old(count) && free == old(free)
      ensures x != 0 ==> x in old(count)
      ensures x != 0 && old(count)[x] > 1 ==>
        live == old(live) && count == old(count)[x := old(count)[x] - 1] && free == old(free)
      decreases live, 2
    {
      hide Balanced, AllCounted, FreeList;
      if x == 0 {
        NilRef(obj, count, live, H);
        return;
      }
      GiveBack(obj, count, live, H, x);
      count := count[x := count[x] - 1];
      if count[x] == 0 {
        Purge(x, H - multiset{x});
      }
    }

    /** purge(q): releases a cell whose count fell to zero, and all that only it held. */
    method Purge(q0: Ref, ghost H: Handles)
      requires Balanced(obj, count, live, H) && FreeList(obj, free, live, dying)
      requires q0 in live && q0 in count && count[q0] == 0 && AllCounted(count, live - {q0})
      modifies this`count, this`free, this`live, this`dying
      ensures Ok(H) && live <= old(live) - {q0} && dying == old(dying)
      decreases live, 1
    {
      hide Balanced, AllCounted, FreeList;
      var q := q0;
      while true
        invariant Balanced(obj, count, live, H) && FreeList(obj, free, live, dying) && dying == old(dying)
        invariant q in live && q in count && count[q] == 0 && AllCounted(count, live - {q})
        invariant live <= old(live) && (q == q0 || live <= old(live) - {q0})
        decreases live
      {
        LiveCells(obj, count, live, H);
        if !obj[q].Cons? {
          Bury(obj, count, live, H, q);
          FreeKill(obj, free, live, dying, q);
          live, dying := live - {q}, dying + {q};
          DisposeKids(Kids(obj[q]), H);
          FreeReturn(obj, free, live, dying, q);
          free, dying := [q] + free, dying - {q};
          return;
        }
        var cdr := PurgeCar(q, H);
        HandleBack(H, cdr);
        if cdr == 0 {
          NilRef(obj, count, live, H + multiset{cdr});
          return;
        }
        GiveBack(obj, count, live, H + multiset{cdr}, cdr);
        count := count[cdr := count[cdr] - 1];
        if count[cdr] != 0 {
          return;
        }
        q := cdr;
      }
    }

    /** One round of purge on a cons: gives its car back, frees it, and passes its cdr on. */
    method PurgeCar(q: Ref, ghost H: Handles) returns (cdr: Ref)
      requires Balanced(obj, count, live, H) && FreeList(obj, free, live, dying)
      requires q in live && q in obj && q in count && count[q] == 0 && AllCounted(count, live - {q}) && obj[q].Cons?
      modifies this`count, this`free, this`live, this`dying
      ensures Ok(H + multiset{cdr}) && cdr == obj[q].cdr && live <= old(live) - {q} && dying == old(dying)
      decreases live, 0
    {
      hide Balanced, AllCounted, FreeList;
      LiveCells(obj, count, live, H);
      Bury(obj, count, live, H, q);
      FreeKill(obj, free, live, dying, q);
      live, dying := live - {q}, dying + {q};
      cdr := obj[q].cdr;
      ConsHandles(H, obj[q].car, cdr);
      Unlock(obj[q].car, H + multiset(Kids(obj[q])));
      FreeReturn(obj, free, live, dying, q);
      free, dying := [q] + free, dying - {q};
    }

    /** self_dispose: releases everything an external object refers to. */
    method DisposeKids(ks: seq<Ref>, ghost H: Handles)
      requires Ok(H + multiset(ks))
      modifies this`count, this`free, this`live, this`dying
      ensures Ok(H) && live <= old(live) && dying == old(dying)
      decreases live, 3
    {
      hide Balanced, AllCounted, FreeList;
      var i := 0;
      assert ks[0..] == ks;
      while i < |ks|
        invariant 0 <= i <= |ks| && Ok(H + multiset(ks[i..])) && live <= old(live) && dying == old(dying)
      {
        assert ks[i..] == [ks[i]] + ks[i + 1..];
        assert H + multiset(ks[i..]) - multiset{ks[i]} == H + multiset(ks[i + 1..]);
        Unlock(ks[i], H + multiset(ks[i..]));
        i := i + 1;
      }
      assert H + multiset(ks[i..]) == H;
    }

    /** allocate: links the cells of a new chunk on the free list. */
    method Grow(chunk: seq<Ref>, ghost H: Handles)
      requires Ok(H) && Fresh(obj, chunk) && free == []
      modifies this`obj, this`count, this`free
      ensures Ok(H) && |free| == |chunk| && obj.Keys == old(obj).Keys + (set c | c in chunk)
      ensures forall c :: c in old(obj) ==> obj[c] == old(obj)[c]
    {
      hide Balanced, AllCounted, FreeList;
      var i := 0;
      while i < |chunk|
        invariant 0 <= i <= |chunk| && Ok(H) && |free| == i && Fresh(obj, chunk[i..])
        invariant obj.Keys == old(obj).Keys + (set c | c in chunk[..i])
        invariant forall c :: c in old(obj) ==> obj[c] == old(obj)[c]
      {
        assert chunk[i..][0] == chunk[i] && chunk[i..][1..] == chunk[i + 1..];
        assert chunk[..i + 1] == chunk[..i] + [chunk[i]];
        NewCell(obj, count, free, live, dying, H, chunk[i..]);
        obj, count, free := obj[chunk[i] := Atom], count[chunk[i] := 0], [chunk[i]] + free;
        i := i + 1;
      }
      assert chunk[..i] == chunk;
    }

    /** cons: the new cell takes over the caller's handles on car and cdr. The chunk
        is what malloc gives when the free list is empty, [] when it gives nothing. */
    method MakeCons(car: Ref, cdr: Ref, chunk: seq<Ref>, ghost H: Handles) returns (q: Ref)
      requires Ok(H + multiset([car, cdr])) && Fresh(obj, chunk)
      modifies this
      ensures q == 0 <==> old(free) == [] && chunk == []
      ensures dying == old(dying)
      ensures q == 0 ==> Ok(H + multiset([car, cdr])) && live == old(live)
      ensures q != 0 ==> Ok(H + multiset{q}) && live == old(live) + {q} && q !in old(live) && q in obj
      ensures q != 0 ==> obj[q] == Obj.Cons(car, cdr)
      ensures q != 0 ==> forall c :: c in old(live) ==> c in obj && c in old(obj) && obj[c] == old(obj)[c]
    {
      hide Balanced, AllCounted, FreeList;
      ghost var H1 := H + multiset([car, cdr]);
      LiveCells(obj, count, live, H1);
      if free == [] {
        Grow(chunk, H1);
        if free == [] {
          return 0;
        }
      }
      LiveCells(obj, count, live, H1);
      FreeHead(obj, count, free, live, dying, H1);
      q := free[0];
      KidsHeld(H, car, cdr);
      Enter(obj, count, live, H, q, Obj.Cons(car, cdr));
      OneMoreCounted(count, live, q);
      FreeTake(obj, free, live, dying, Obj.Cons(car, cdr));
      free := free[1..];
      obj, count, live := obj[q := Obj.Cons(car, cdr)], count[q := 1], live + {q};
    }

    /** new_cons: the caller keeps its handles. */
    method NewCons(car: Ref, cdr: Ref, chunk: seq<Ref>, ghost H: Handles) returns (q: Ref)
      requires Ok(H) && Fresh(obj, chunk) && (car == 0 || car in live) && (cdr == 0 || cdr in live)
      modifies this
      ensures q == 0 <==> old(free) == [] && chunk == []
      ensures dying == old(dying)
      ensures q != 0 ==> Ok(H + multiset{q}) && live == old(live) + {q} && q !in old(live) && q in obj
      ensures q != 0 ==> obj[q] == Obj.Cons(car, cdr)
      ensures q != 0 ==> forall c :: c in old(live) ==> c in obj && c in old(obj) && obj[c] == old(obj)[c]
    {
      hide Balanced, AllCounted, FreeList;
      Lock(car, H);
      Lock(cdr, H + multiset{car});
      assert H + multiset{car} + multiset{cdr} == H + multiset([car, cdr]);
      q := MakeCons(car, cdr, chunk, H);
    }

    /** rplaca: false is the error case, which leaves everything alone. */
    method Rplaca(q: Ref, p: Ref, ghost H: Handles) returns (ok: bool)
      requires Ok(H) && q in H && p in H
      modifies this
      ensures ok == (q != 0 && q in old(obj) && old(obj)[q].Cons?) && dying == old(dying)
      ensures ok ==> Ok(H + multiset{q}) && live <= old(live) && obj == old(obj)[q := Obj.Cons(p, old(obj)[q].cdr)]
      ensures !ok ==> Ok(H) && obj == old(obj)
    {
      hide Balanced, AllCounted, FreeList;
      HandleLive(obj, count, live, H, q);
      HandleLive(obj, count, live, H, p);
      if q == 0 || !obj[q].Cons? {
        return false;
      }
      var t := obj[q].car;
      Lock(p, H);
      Rewire(obj, count, free, live, dying, H, q, Obj.Cons(p, obj[q].cdr), t, p);
      obj := obj[q := Obj.Cons(p, obj[q].cdr)];
      HandleBack(H, t);
      Unlock(t, H + multiset{t});
      HandleLive(obj, count, live, H, q);
      Lock(q, H);
      return true;
    }

    method Rplacd(q: Ref, p: Ref, ghost H: Handles) returns (ok: bool)
      requires Ok(H) && q in H && p in H
      modifies this
      ensures ok == (q != 0 && q in old(obj) && old(obj)[q].Cons?) && dying == old(dying)
      ensures ok ==> Ok(H + multiset{q}) && live <= old(live) && obj == old(obj)[q := Obj.Cons(old(obj)[q].car, p)]
      ensures !ok ==> Ok(H) && obj == old(obj)
    {
      hide Balanced, AllCounted, FreeList;
      HandleLive(obj, count, live, H, q);
      HandleLive(obj, count, live, H, p);
      if q == 0 || !obj[q].Cons? {
        return false;
      }
      var t := obj[q].cdr;
      Lock(p, H);
      Rewire(obj, count, free, live, dying, H, q, Obj.Cons(obj[q].car, p), t, p);
      obj := obj[q := Obj.Cons(obj[q].car, p)];
      HandleBack(H, t);
      Unlock(t, H + multiset{t});
      HandleLive(obj, count, live, H, q);
      Lock(q, H);
      return true;
    }
  }

  /** Addresses malloc has just handed out. */
  ghost predicate Fresh(obj: Objects, chunk: seq<Ref>) {
    && 0 !in chunk && (forall c :: c in chunk ==> c !in obj)
    && forall i, j :: 0 <= i < j < |chunk| ==> chunk[i] != chunk[j]
  }

  lemma NewCell(obj: Objects, count: map<Ref, int>, free: seq<Ref>, live: set<Ref>, dying: set<Ref>, H: Handles,
                chunk: seq<Ref>)
    requires Balanced(obj, count, live, H) && AllCounted(count, live) && FreeList(obj, free, live, dying)
    requires chunk != [] && Fresh(obj, chunk)
    ensures Balanced(obj[chunk[0] := Atom], count[chunk[0] := 0], live, H) && AllCounted(count[chunk[0] := 0], live)
    ensures FreeList(obj[chunk[0] := Atom], [chunk[0]] + free, live, dying) && Fresh(obj[chunk[0] := Atom], chunk[1..])
  {
    var c0 := chunk[0];
    forall a | a in live ensures InRefs(obj[c0 := Atom], live, a) == InRefs(obj, live, a) {
      InRefsSame(obj, obj[c0 := Atom], live, a);
    }
    MoreFree(obj, free, live, dying, c0);
    assert forall i :: 0 <= i < |chunk[1..]| ==> chunk[1..][i] == chunk[i + 1];
  }

  lemma MoreFree(obj: Objects, free: seq<Ref>, live: set<Ref>, dying: set<Ref>, c0: Ref)
    requires FreeList(obj, free, live, dying) && live <= obj.Keys && c0 !in obj
    ensures FreeList(obj[c0 := Atom], [c0] + free, live, dying)
  {
    var f := [c0] + free;
    assert forall i :: 0 < i < |f| ==> f[i] == free[i - 1];
    assert forall i :: 0 <= i < |free| ==> free[i] in free;
    assert forall c :: c in f <==> c == c0 || c in free;
  }

  /** The first free cell is referred to by nothing. */
  lemma FreeHead(obj: Objects, count: map<Ref, int>, free: seq<Ref>, live: set<Ref>, dying: set<Ref>, H: Handles)
    requires Balanced(obj, count, live, H) && FreeList(obj, free, live, dying) && free != []
    ensures free[0] in obj && free[0] !in live && free[0] != 0 && free[0] !in H
  {
    assert free[0] in free;
  }

  lemma FreeTake(obj: Objects, free: seq<Ref>, live: set<Ref>, dying: set<Ref>, o: Obj)
    requires FreeList(obj, free, live, dying) && free != []
    ensures FreeList(obj[free[0] := o], free[1..], live + {free[0]}, dying)
  {
    assert free[0] in free && free == [free[0]] + free[1..];
    assert forall c :: c in free <==> c == free[0] || c in free[1..];
  }

  lemma KidsHeld(H: Handles, car: Ref, cdr: Ref)
    ensures forall k :: k in Kids(Obj.Cons(car, cdr)) ==> k in H + multiset([car, cdr])
    ensures forall k :: k in H ==> k in H + multiset([car, cdr])
    ensures multiset(Kids(Obj.Cons(car, cdr))) == multiset([car, cdr])
  {
    assert forall k :: k in Kids(Obj.Cons(car, cdr)) ==> k in multiset([car, cdr]);
  }

  lemma OneMoreCounted(count: map<Ref, int>, live: set<Ref>, q: Ref)
    requires AllCounted(count, live)
    ensures AllCounted(count[q := 1], live + {q})
  {
  }

  lemma HandleLive(obj: Objects, count: map<Ref, int>, live: set<Ref>, H: Handles, x: Ref)
    requires Balanced(obj, count, live, H) && x in H
    ensures x == 0 || (x in live && x in obj && x in count)
  {
  }

  /** A cons whose field changes from t to p: the caller gets the handle on t. */
  lemma Rewire(obj: Objects, count: map<Ref, int>, free: seq<Ref>, live: set<Ref>, dying: set<Ref>, H: Handles,
               q: Ref, o: Obj, t: Ref, p: Ref)
    requires Balanced(obj, count, live, H + multiset{p}) && FreeList(obj, free, live, dying)
    requires q in live && q in obj && obj[q].Cons? && o.Cons?
    requires (obj[q].car == t && o == Obj.Cons(p, obj[q].cdr)) || (obj[q].cdr == t && o == Obj.Cons(obj[q].car, p))
    ensures Balanced(obj[q := o], count, live, H + multiset{t}) && FreeList(obj[q := o], free, live, dying)
  {
    hide Balanced, FreeList;
    ConsSwap(obj[q], o, t, p);
    Replace(obj, count, live, H, q, o, t, p);
    FreeSame(obj, free, live, dying, q, o);
  }

  lemma ConsSwap(o: Obj, o': Obj, t: Ref, p: Ref)
    requires o.Cons? && o'.Cons?
    requires (o.car == t && o' == Obj.Cons(p, o.cdr)) || (o.cdr == t && o' == Obj.Cons(o.car, p))
    ensures multiset(Kids(o')) + multiset{t} == multiset(Kids(o)) + multiset{p}
  {
    assert multiset(Kids(o)) == multiset{o.car, o.cdr} && multiset(Kids(o')) == multiset{o'.car, o'.cdr};
  }

  lemma FreeSame(obj: Objects, free: seq<Ref>, live: set<Ref>, dying: set<Ref>, q: Ref, o: Obj)
    requires FreeList(obj, free, live, dying) && q in obj
    ensures FreeList(obj[q := o], free, live, dying)
  {
  }

  /** A chain of references between live objects. */
  ghost predicate Chain(obj: Objects, p: seq<Ref>) {
    && p != [] && (forall i :: 0 <= i < |p| ==> p[i] != 0)
    && forall i :: 0 <= i < |p| - 1 ==> p[i] in obj && p[i + 1] in Kids(obj[p[i]])
  }

  /** What a handle can reach is live and not on the free list: nothing dangles. */
  lemma {:induction false} HeldIsLive(obj: Objects, count: map<Ref, int>, free: seq<Ref>, live: set<Ref>, H: Handles,
                                      p: seq<Ref>)
    requires Balanced(obj, count, live, H) && FreeList(obj, free, live, {}) && Chain(obj, p) && p[0] in H
    ensures p[|p| - 1] in live && p[|p| - 1] !in free
    decreases |p|
  {
    if |p| > 1 {
      var q := p[..|p| - 1];
      assert forall i :: 0 <= i < |q| ==> q[i] == p[i];
      HeldIsLive(obj, count, free, live, H, q);
      assert p[|p| - 2 + 1] in Kids(obj[p[|p| - 2]]);
    }
  }

  ghost predicate Held(obj: Objects, H: Handles, x: Ref) {
    exists p :: Chain(obj, p) && p[0] in H && p[|p| - 1] == x
  }

  /** References that lead from a cell back to itself, through live cells that no
      handle reaches. */
  ghost predicate LostCycle(obj: Objects, live: set<Ref>, H: Handles, p: seq<Ref>) {
    && |p| > 1 && Chain(obj, p) && p[0] == p[|p| - 1]
    && forall c :: c in p ==> c in live && !Held(obj, H, c)
  }

  lemma Referrer(obj: Objects, live: set<Ref>, x: Ref) returns (c: Ref)
    requires InRefs(obj, live, x) > 0
    ensures c in live && c in obj && x in Kids(obj[c])
  {
    var s :| s in Slots(obj, live, x);
    c := s.0;
  }

  lemma ChainMore(obj: Objects, p: seq<Ref>, x: Ref)
    requires Chain(obj, p) && x != 0 && p[|p| - 1] in obj && x in Kids(obj[p[|p| - 1]])
    ensures Chain(obj, p + [x])
  {
  }

  lemma HeldMore(obj: Objects, H: Handles, c: Ref, x: Ref)
    requires Held(obj, H, c) && c in obj && x in Kids(obj[c]) && x != 0
    ensures Held(obj, H, x)
  {
    var p :| Chain(obj, p) && p[0] in H && p[|p| - 1] == c;
    ChainMore(obj, p, x);
    assert (p + [x])[0] in H;
  }

  /** A live cell that no handle reaches is referred to by another one. */
  lemma LostReferrer(obj: Objects, count: map<Ref, int>, live: set<Ref>, H: Handles, x: Ref) returns (c: Ref)
    requires Balanced(obj, count, live, H) && AllCounted(count, live) && x in live && !Held(obj, H, x)
    ensures c in live && c in obj && x in Kids(obj[c]) && !Held(obj, H, c)
  {
    if x in H {
      assert Chain(obj, [x]);
    }
    c := Referrer(obj, live, x);
    if Held(obj, H, c) {
      HeldMore(obj, H, c, x);
    }
  }

  lemma {:induction false} LostChain(obj: Objects, count: map<Ref, int>, live: set<Ref>, H: Handles,
                                     x: Ref, n: nat) returns (p: seq<Ref>)
    requires Balanced(obj, count, live, H) && AllCounted(count, live) && x in live && !Held(obj, H, x)
    ensures |p| == n + 1 && Chain(obj, p) && p[n] == x
    ensures forall c :: c in p ==> c in live && !Held(obj, H, c)
    decreases n
  {
    hide Balanced, Held;
    LiveCells(obj, count, live, H);
    if n == 0 {
      p := [x];
    } else {
      var c := LostReferrer(obj, count, live, H, x);
      p := LostChain(obj, count, live, H, c, n - 1);
      ChainMore(obj, p, x);
      p := p + [x];
    }
  }

  /** More places than cells: some cell comes twice. */
  lemma {:induction false} SomeTwice(p: seq<Ref>, S: set<Ref>) returns (i: nat, j: nat)
    requires |p| > |S| && forall c :: c in p ==> c in S
    ensures i < j < |p| && p[i] == p[j]
    decreases |p|
  {
    var n := |p| - 1;
    if p[n] in p[..n] {
      i :| 0 <= i < n && p[i] == p[n];
      j := n;
    } else {
      SubsetSize({p[n]}, S);
      i, j := SomeTwice(p[..n], S - {p[n]});
    }
  }

  /** Nothing is lost without a lost cycle: some live cell is out of reach of all
      handles exactly when a cycle of live cells is. */
  lemma LeakIff(obj: Objects, count: map<Ref, int>, live: set<Ref>, H: Handles)
    requires Balanced(obj, count, live, H) && AllCounted(count, live)
    ensures (exists x :: x in live && !Held(obj, H, x)) <==> (exists p :: LostCycle(obj, live, H, p))
  {
    hide Balanced, AllCounted, Held;
    if x :| x in live && !Held(obj, H, x) {
      var p := LostChain(obj, count, live, H, x, |live|);
      var i, j := SomeTwice(p, live);
      var q := p[i..j + 1];
      assert forall k :: 0 <= k < |q| ==> q[k] == p[i + k];
      assert LostCycle(obj, live, H, q);
    }
    if p :| LostCycle(obj, live, H, p) {
      assert p[0] in p;
    }
  }

  lemma {:induction false} StaysIn(obj: Objects, S: set<Ref>, p: seq<Ref>)
    requires Chain(obj, p) && PointsInto(obj, S, S) && p[0] in S
    ensures p[|p| - 1] in S
    decreases |p|
  {
    if |p| > 1 {
      assert forall i :: 0 <= i < |p| - 1 ==> p[1..][i] == p[i + 1];
      assert p[0 + 1] in Kids(obj[p[0]]);
      StaysIn(obj, S, p[1..]);
    }
  }

  /** Cells outside a closed set that has all handles are out of reach, whatever
      changes outside it. */
  lemma OutOfReach(obj0: Objects, obj: Objects, S: set<Ref>, H: Handles, x: Ref)
    requires PointsInto(obj0, S, S) && x !in S && forall r :: r in H ==> r == 0 || r in S
    requires forall c :: c in S ==> c in obj0 && c in obj && obj[c] == obj0[c]
    ensures !Held(obj, H, x)
  {
    assert PointsInto(obj, S, S);
    if Held(obj, H, x) {
      var p :| Chain(obj, p) && p[0] in H && p[|p| - 1] == x;
      StaysIn(obj, S, p);
    }
  }

  lemma SelfReference(obj: Objects, count: map<Ref, int>, live: set<Ref>, H: Handles, q: Ref)
    requires Balanced(obj, count, live, H) && q in live && q in obj && q in Kids(obj[q])
    ensures q in count && count[q] >= H[q] + 1
  {
    Referred(obj, live, q, q);
  }

  /** Such leaks happen: a cons made to refer to itself stays live for ever once its
      handles are given back, although the invariant holds. */
  method CycleIsKept(h: Heap, chunk: seq<Ref>, ghost H: Handles) returns (q: Ref)
    requires h.Ok(H) && Fresh(h.obj, chunk) && (h.free != [] || chunk != [])
    modifies h
    ensures h.Ok(H) && q in h.live && q in h.obj && h.obj[q] == Obj.Cons(q, 0)
    ensures !Held(h.obj, H, q) && LostCycle(h.obj, h.live, H, [q, q])
  {
    hide Balanced, AllCounted, FreeList, Held, Chain, PointsInto;
    ghost var obj0, count0, L := h.obj, h.count, h.live;
    q := h.NewCons(0, 0, chunk, H);
    HandleLive(h.obj, h.count, h.live, H + multiset{q}, q);
    var ok := h.Rplaca(q, q, H + multiset{q});
    HandleLive(h.obj, h.count, h.live, H + multiset{q} + multiset{q}, q);
    SelfReference(h.obj, h.count, h.live, H + multiset{q} + multiset{q}, q);
    h.Unlock(q, H + multiset{q} + multiset{q});
    assert H + multiset{q} + multiset{q} - multiset{q} == H + multiset{q};
    h.Unlock(q, H + multiset{q});
    assert H + multiset{q} - multiset{q} == H;
    LiveClosed(obj0, count0, L, H);
    OutOfReach(obj0, h.obj, L, H, q);
    SelfCycle(h.obj, h.live, H, q);
  }

  lemma SelfCycle(obj: Objects, live: set<Ref>, H: Handles, q: Ref)
    requires q != 0 && q in live && q in obj && q in Kids(obj[q]) && !Held(obj, H, q)
    ensures LostCycle(obj, live, H, [q, q])
  {
    hide Held;
    assert forall c :: c in [q, q] ==> c == q;
  }

  lemma LiveClosed(obj: Objects, count: map<Ref, int>, live: set<Ref>, H: Handles)
    requires Balanced(obj, count, live, H)
    ensures PointsInto(obj, live, live) && forall r :: r in H ==> r == 0 || r in live
  {
  }

  lemma LiveCells(obj: Objects, count: map<Ref, int>, live: set<Ref>, H: Handles)
    requires Balanced(obj, count, live, H)
    ensures obj.Keys == count.Keys && live <= obj.Keys && 0 !in live
  {
  }
}
