/** The objects the serializer walks: a finite graph of conses, numbers, strings
    and symbols, with sharing and cycles. Reference 0 is NIL. */
module BinaryGraph {

  type Ref = nat

  datatype Node = Cons(car: Ref, cdr: Ref) | Number(r: real) | Str(s: string) | Symbol(name: string)

  type Graph = map<Ref, Node>

  predicate IsRef(g: Graph, p: Ref) { p == 0 || p in g }

  ghost predicate Closed(g: Graph) {
    && 0 !in g
    && forall n :: n in g && g[n].Cons? ==> IsRef(g, g[n].car) && IsRef(g, g[n].cdr)
  }

  /** A symbol is its name: there are never two symbols with one name. */
  ghost predicate Interned(g: Graph) {
    forall m, n :: m in g && n in g && g[m].Symbol? && g[m] == g[n] ==> m == n
  }

  /** The walk of sweep (src/binary.c:231-263): the nodes marked after it, when those
      of V were marked before it, and the nodes it met again. */
  ghost function Dfs(g: Graph, p: Ref, V: set<Ref>): (r: (set<Ref>, set<Ref>))
    requires Closed(g) && IsRef(g, p) && V <= g.Keys
    ensures V <= r.0 <= g.Keys && r.1 <= r.0 && (p != 0 ==> p in r.0)
    decreases g.Keys - V
  {
    if p == 0 then (V, {})
    else if p in V then (V, {p})
    else
      match g[p]
      case Cons(a, d) =>
        var left := Dfs(g, a, V + {p});
        var right := Dfs(g, d, left.0);
        (right.0, left.1 + right.1)
      case _ => (V + {p}, {})
  }

  /** Children of the nodes of X lie in S. */
  ghost predicate ChildrenIn(g: Graph, X: set<Ref>, S: set<Ref>) {
    forall n :: n in X && n in g && g[n].Cons? ==>
      (g[n].car == 0 || g[n].car in S) && (g[n].cdr == 0 || g[n].cdr in S)
  }

  /** Every node the walk marks has its children marked when the walk ends. */
  lemma {:induction false} DfsCloses(g: Graph, p: Ref, V: set<Ref>)
    requires Closed(g) && IsRef(g, p) && V <= g.Keys
    ensures var W := Dfs(g, p, V).0; ChildrenIn(g, W - V, W)
    decreases g.Keys - V
  {
    if p != 0 && p !in V && g[p].Cons? {
      var left := Dfs(g, g[p].car, V + {p});
      DfsCloses(g, g[p].car, V + {p});
      DfsCloses(g, g[p].cdr, left.0);
    }
  }

  /** The walk marks nothing outside a closed set that holds its starting point. */
  lemma {:induction false} DfsStaysIn(g: Graph, p: Ref, V: set<Ref>, S: set<Ref>)
    requires Closed(g) && IsRef(g, p) && V <= g.Keys
    requires ChildrenIn(g, S, S) && (p == 0 || p in S)
    ensures Dfs(g, p, V).0 <= V + S
    decreases g.Keys - V
  {
    if p != 0 && p !in V && g[p].Cons? {
      var left := Dfs(g, g[p].car, V + {p});
      DfsStaysIn(g, g[p].car, V + {p}, S);
      DfsStaysIn(g, g[p].cdr, left.0, S);
    }
  }

  /** What can be reached from p. */
  ghost function Reach(g: Graph, p: Ref): (s: set<Ref>)
    requires Closed(g) && IsRef(g, p)
  {
    Dfs(g, p, {}).0
  }

  /** Reach(p) is the least set that holds p and is closed under car and cdr. */
  lemma ReachIsLeast(g: Graph, p: Ref)
    requires Closed(g) && IsRef(g, p)
    ensures (p != 0 ==> p in Reach(g, p)) && ChildrenIn(g, Reach(g, p), Reach(g, p))
    ensures forall S: set<Ref> :: ChildrenIn(g, S, S) && (p == 0 || p in S) ==> Reach(g, p) <= S
  {
    DfsCloses(g, p, {});
    forall S: set<Ref> | ChildrenIn(g, S, S) && (p == 0 || p in S) ensures Reach(g, p) <= S {
      DfsStaysIn(g, p, {}, S);
    }
  }

  /** Walking from p while every reachable node is still unmarked marks them all,
      whatever else is marked. */
  lemma DfsCoversReach(g: Graph, p: Ref, V: set<Ref>)
    requires Closed(g) && IsRef(g, p) && V <= g.Keys && V !! Reach(g, p)
    ensures Dfs(g, p, V).0 == V + Reach(g, p)
  {
    var W, R := Dfs(g, p, V).0, Reach(g, p);
    ReachIsLeast(g, p);
    DfsCloses(g, p, V);
    DfsStaysIn(g, p, V, R);
    var X := W * R;
    assert X <= W - V;
    assert ChildrenIn(g, X, X);
    assert R <= X;
  }
}
