/** Equality and hashing of Lisp objects without cycles (src/calls.c:104-172, src/htable.c:256-330). */
module ObjectHash {

  type Ref = nat          // 0 is NIL
  type Word = bv64

  datatype Cell =
    | Pair(car: Ref, cdr: Ref)
    | Number(v: real)
    | Gptr(g: Word)
    | Extern(cls: nat, data: string)
    | Plain                           // a class pointer or another object without contents to compare

  /** What the classes and the machine provide. A class that compares contents hashes them. */
  datatype Env = Env(compares: nat -> bool, hashes: nat -> bool, dataHash: (nat, string) -> Word,
                     lowBits: real -> Word, highBits: real -> Word, address: Ref -> Word)

  ghost predicate Lawful(env: Env) { forall c :: env.compares(c) ==> env.hashes(c) }

  type Heap = map<Ref, Cell>

  /** The structure below an object: identity matters only where nothing compares contents. */
  datatype Tree =
    | Nil
    | Pair(car: Tree, cdr: Tree)
    | Number(v: real)
    | Gptr(g: Word)
    | Content(cls: nat, data: string)
    | Object(r: Ref, c: Cell)

  /** References lead to cells of lower rank or to NIL: no dangling pointer, no cycle. */
  ghost predicate Acyclic(h: Heap, rank: map<Ref, nat>) {
    && 0 !in h && h.Keys == rank.Keys
    && forall p :: p in h && h[p].Pair? ==> Below(h, rank, p, h[p].car) && Below(h, rank, p, h[p].cdr)
  }

  ghost predicate Below(h: Heap, rank: map<Ref, nat>, p: Ref, q: Ref) {
    Known(h, q) && Height(rank, q) < Height(rank, p)
  }

  ghost function Height(rank: map<Ref, nat>, p: Ref): nat { if p != 0 && p in rank then rank[p] + 1 else 0 }

  ghost predicate Known(h: Heap, p: Ref) { p == 0 || p in h }

  ghost function TreeOf(env: Env, h: Heap, rank: map<Ref, nat>, p: Ref): Tree
    requires Acyclic(h, rank) && Known(h, p)
    decreases Height(rank, p)
  {
    if p == 0 then Nil
    else
      match h[p]
      case Pair(a, d) => Tree.Pair(TreeOf(env, h, rank, a), TreeOf(env, h, rank, d))
      case Number(v) => Tree.Number(v)
      case Gptr(g) => Tree.Gptr(g)
      case Extern(cls, data) => if env.compares(cls) then Content(cls, data) else Object(p, h[p])
      case Plain => Object(p, h[p])
  }

  /** Bits of a pointer folded together. */
  function HashPointer(env: Env, p: Ref): Word {
    var x := env.address(p);
    var y := x ^ (x >> 32);
    y ^ (y >> 16)
  }

  function Mix(x: Word, y: Word): Word { x ^ y }

  function Turn(x: Word): Word { (x << 1) | ((x >> 63) ^ 1) }

  /** The hash of a structure, continued from x. */
  ghost function HashTree(env: Env, x: Word, t: Tree): Word
    decreases t
  {
    var y := Turn(x);
    match t
    case Nil => y
    case Number(v) => Mix(Mix(Mix(y, 0x1010), env.lowBits(v)), env.highBits(v))
    case Pair(a, d) => HashTree(env, Mix(Mix(y, 0x2020), HashTree(env, 0, a)), d)
    case Content(cls, data) =>
      Mix(Mix(y, 0x3030), env.dataHash(cls, data))
    case Gptr(g) => Mix(Mix(y, 0x4040), g)
    case Object(r, c) =>
      if c.Extern? && env.hashes(c.cls) then Mix(Mix(y, 0x3030), env.dataHash(c.cls, c.data))
      else Mix(y, HashPointer(env, r))
  }

  /** Two pointers to one structure, cell by cell. */
  lemma {:induction false} SameIff(env: Env, h: Heap, rank: map<Ref, nat>, p: Ref, q: Ref)
    requires Acyclic(h, rank) && Known(h, p) && Known(h, q)
    ensures var same := TreeOf(env, h, rank, p) == TreeOf(env, h, rank, q);
      && (p == q ==> same)
      && (p != q && (p == 0 || q == 0) ==> !same)
      && (p != q && p != 0 && q != 0 && !h[p].Pair? ==>
            (same <==> h[p] == h[q] && !h[p].Plain? && (h[p].Extern? ==> env.compares(h[p].cls))))
      && (p != q && p != 0 && q != 0 && h[p].Pair? && !h[q].Pair? ==> !same)
    ensures p != 0 && h[p].Pair? ==> Known(h, h[p].car) && Known(h, h[p].cdr)
    ensures q != 0 && h[q].Pair? ==> Known(h, h[q].car) && Known(h, h[q].cdr)
    ensures p != 0 && q != 0 && h[p].Pair? && h[q].Pair? ==>
      (TreeOf(env, h, rank, p) == TreeOf(env, h, rank, q) <==>
        (TreeOf(env, h, rank, h[p].car) == TreeOf(env, h, rank, h[q].car)
         && TreeOf(env, h, rank, h[p].cdr) == TreeOf(env, h, rank, h[q].cdr)))
  {
  }

  /** eq_test. The second pointer trails at half speed to catch circular lists; active holds
      the pairs whose cars are being compared. On acyclic objects neither guard fires. */
  method EqTest(env: Env, h: Heap, p0: Ref, q0: Ref, active: set<Ref>, ghost rank: map<Ref, nat>) returns (ans: bool)
    requires Acyclic(h, rank) && Known(h, p0) && Known(h, q0)
    requires p0 != 0 ==> forall a :: a in active ==> Height(rank, a) > Height(rank, p0)
    ensures ans <==> TreeOf(env, h, rank, p0) == TreeOf(env, h, rank, q0)
    decreases Height(rank, p0)
  {
    hide Acyclic, TreeOf, Height;
    ans := true;
    var p, q, slow, toggle := p0, q0, p0, 0;
    ghost var path := [p0];
    while true
      invariant Known(h, p) && Known(h, q) && ans && (p != 0 ==> p0 != 0)
      invariant Descends(h, rank, path) && path[0] == p0 && path[|path| - 1] == p
      invariant Height(rank, p) <= Height(rank, p0)
      invariant slow == path[|path| / 2] && toggle == (|path| - 1) % 2
      invariant TreeOf(env, h, rank, p0) == TreeOf(env, h, rank, q0) <==>
        TreeOf(env, h, rank, p) == TreeOf(env, h, rank, q)
      decreases Height(rank, p)
    {
      SameIff(env, h, rank, p, q);
      if p == q {
        return true;
      } else if p == 0 || q == 0 {
        return false;
      } else if h[p].Pair? && h[q].Pair? {
        PairBelow(h, rank, p);
        PairBelow(h, rank, q);
        if p !in active {
          ans := EqTest(env, h, h[p].car, h[q].car, active + {p}, rank);
        }
        if !ans {
          return false;
        }
        PathMore(h, rank, path, h[p].cdr);
        p, q, path := h[p].cdr, h[q].cdr, path + [h[p].cdr];
        if p == slow {
          return ans;
        }
        toggle := 1 - toggle;
        if toggle == 1 {
          slow := h[slow].cdr;
        }
      } else if h[p].Number? && h[q].Number? {
        return h[p].v == h[q].v;
      } else if h[p].Extern? && h[q].Extern? && h[p].cls == h[q].cls && env.compares(h[p].cls) {
        return h[p].data == h[q].data;
      } else if h[p].Gptr? && h[q].Gptr? {
        return h[p].g == h[q].g;
      } else {
        return false;
      }
    }
  }

  /** A walk along cdrs. */
  ghost predicate Descends(h: Heap, rank: map<Ref, nat>, path: seq<Ref>) {
    && path != []
    && (forall i :: 0 <= i < |path| - 1 ==> path[i] in h && h[path[i]].Pair? && h[path[i]].cdr == path[i + 1])
    && forall i, j :: 0 <= i < j < |path| ==> Below(h, rank, path[i], path[j])
  }

  lemma PairBelow(h: Heap, rank: map<Ref, nat>, p: Ref)
    requires Acyclic(h, rank) && p in h && h[p].Pair?
    ensures Below(h, rank, p, h[p].car) && Below(h, rank, p, h[p].cdr)
    ensures Known(h, h[p].car) && Known(h, h[p].cdr)
  {
  }

  /** One more step: the new cell is none of those passed. */
  lemma PathMore(h: Heap, rank: map<Ref, nat>, path: seq<Ref>, d: Ref)
    requires Acyclic(h, rank) && Descends(h, rank, path)
    requires path[|path| - 1] in h && h[path[|path| - 1]].Pair? && h[path[|path| - 1]].cdr == d
    ensures Descends(h, rank, path + [d])
    ensures forall i :: 0 <= i < |path| ==> path[i] != d && path[i] in h && h[path[i]].Pair?
  {
    var p := path[|path| - 1];
    PairBelow(h, rank, p);
    forall i | 0 <= i < |path| ensures path[i] in h && h[path[i]].Pair? && Below(h, rank, path[i], d) && path[i] != d {
      assert i == |path| - 1 || Below(h, rank, path[i], p);
      assert 0 !in h;
    }
  }

  /** hash_value. Two guards against circular structures, as in eq_test. */
  method HashValue(env: Env, h: Heap, p0: Ref, active: set<Ref>, ghost rank: map<Ref, nat>) returns (x: Word)
    requires Acyclic(h, rank) && Known(h, p0)
    requires p0 != 0 ==> forall a :: a in active ==> Height(rank, a) >= Height(rank, p0)
    ensures Lawful(env) ==> x == HashTree(env, 0, TreeOf(env, h, rank, p0))
    decreases Height(rank, p0)
  {
    hide Acyclic, TreeOf, Height, Mix, Turn, HashTree, HashPointer;
    x := 0;
    var p, slow, toggle := p0, p0, 0;
    ghost var path := [p0];
    while true
      invariant Known(h, p) && (p != 0 ==> p0 != 0)
      invariant Descends(h, rank, path) && path[0] == p0 && path[|path| - 1] == p
      invariant Height(rank, p) <= Height(rank, p0)
      invariant slow == path[(|path| - 1) / 2] && toggle == (|path| - 1) % 2
      invariant Lawful(env) ==> HashTree(env, 0, TreeOf(env, h, rank, p0)) == HashTree(env, x, TreeOf(env, h, rank, p))
      decreases Height(rank, p)
    {
      HashStep(env, h, rank, x, p);
      ghost var x0 := x;
      x := Turn(x);
      if p == 0 {
        return x;
      } else if h[p].Number? {
        x := Mix(Mix(Mix(x, 0x1010), env.lowBits(h[p].v)), env.highBits(h[p].v));
        return x;
      } else if h[p].Pair? {
        PairBelow(h, rank, p);
        HashPair(env, h, rank, x0, p);
        x := Mix(x, 0x2020);
        var car := h[p].car;
        if car !in active {
          var y := HashValue(env, h, car, active + {car}, rank);
          x := Mix(x, y);
        }
        PathMore(h, rank, path, h[p].cdr);
        p, path := h[p].cdr, path + [h[p].cdr];
        if p == slow {
          return x;
        }
        toggle := 1 - toggle;
        if toggle == 0 {
          slow := h[slow].cdr;
        }
      } else if h[p].Extern? && env.hashes(h[p].cls) {
        x := Mix(x, 0x3030);
        x := Mix(x, env.dataHash(h[p].cls, h[p].data));
        return x;
      } else if h[p].Gptr? {
        x := Mix(x, 0x4040);
        x := Mix(x, h[p].g);
        return x;
      } else {
        x := Mix(x, HashPointer(env, p));
        return x;
      }
    }
  }

  /** The hash of a structure, unfolded once on the heap. */
  lemma HashStep(env: Env, h: Heap, rank: map<Ref, nat>, x: Word, p: Ref)
    requires Acyclic(h, rank) && Known(h, p)
    ensures var t, y := HashTree(env, x, TreeOf(env, h, rank, p)), Turn(x);
      && (p == 0 ==> t == y)
      && (p != 0 && h[p].Number? ==> t == Mix(Mix(Mix(y, 0x1010), env.lowBits(h[p].v)), env.highBits(h[p].v)))
      && (p != 0 && h[p].Gptr? ==> t == Mix(Mix(y, 0x4040), h[p].g))
      && (p != 0 && h[p].Extern? && Lawful(env) && env.hashes(h[p].cls) ==>
            t == Mix(Mix(y, 0x3030), env.dataHash(h[p].cls, h[p].data)))
      && (p != 0 && h[p].Extern? && Lawful(env) && !env.hashes(h[p].cls) ==> t == Mix(y, HashPointer(env, p)))
      && (p != 0 && h[p].Plain? ==> t == Mix(y, HashPointer(env, p)))
  {
    hide Turn, HashPointer, Mix, Acyclic;
  }

  lemma HashPair(env: Env, h: Heap, rank: map<Ref, nat>, x: Word, p: Ref)
    requires Acyclic(h, rank) && p in h && h[p].Pair?
    ensures Known(h, h[p].car) && Known(h, h[p].cdr)
    ensures
      var y := Mix(Mix(Turn(x), 0x2020), HashTree(env, 0, TreeOf(env, h, rank, h[p].car)));
      (HashTree(env, x, TreeOf(env, h, rank, p)) == HashTree(env, y, TreeOf(env, h, rank, h[p].cdr)))
  {
    hide Turn, HashPointer, Mix, Acyclic;
    PairBelow(h, rank, p);
  }
}
