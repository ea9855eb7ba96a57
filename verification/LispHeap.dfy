/** Lisp objects and the references between them. Reference 0 is NIL. */
module LispHeap {

  type Ref = nat

  /** A symbol holds a stack of values, the current one first; an external object
      holds whatever its class lets self_action visit. */
  datatype Obj =
    | Cons(car: Ref, cdr: Ref)
    | Atom
    | Symbol(values: seq<Ref>)
    | Extern(kids: seq<Ref>)

  type Objects = map<Ref, Obj>

  function Kids(o: Obj): seq<Ref> {
    match o
    case Cons(a, d) => [a, d]
    case Atom => []
    case Symbol(vs) => vs
    case Extern(ks) => ks
  }

  /** The places, in the objects of S, that refer to a. */
  ghost function Slots(obj: Objects, S: set<Ref>, a: Ref): set<(Ref, nat)> {
    set c, i: nat | c in S && c in obj && i < |Kids(obj[c])| && Kids(obj[c])[i] == a :: (c, i)
  }

  ghost function InRefs(obj: Objects, S: set<Ref>, a: Ref): nat { |Slots(obj, S, a)| }

  /** How often a occurs in a list of references. */
  ghost function Occurs(s: seq<Ref>, a: Ref): nat { multiset(s)[a] }

  /** Everything the objects of S refer to is NIL or in T. */
  ghost predicate PointsInto(obj: Objects, S: set<Ref>, T: set<Ref>) {
    forall c, k :: c in S && c in obj && k in Kids(obj[c]) ==> k == 0 || k in T
  }

  ghost predicate Closed(obj: Objects, S: set<Ref>) { S <= obj.Keys && PointsInto(obj, S, S) }

  /** References are counted object by object. */
  lemma InRefsAdd(obj: Objects, S: set<Ref>, T: set<Ref>, a: Ref)
    requires S !! T
    ensures InRefs(obj, S + T, a) == InRefs(obj, S, a) + InRefs(obj, T, a)
  {
    assert Slots(obj, S + T, a) == Slots(obj, S, a) + Slots(obj, T, a);
  }

  lemma InRefsOne(obj: Objects, c: Ref, a: Ref)
    requires c in obj
    ensures InRefs(obj, {c}, a) == Occurs(Kids(obj[c]), a)
  {
    SlotsOfSeq(obj, c, a, |Kids(obj[c])|);
    var n := |Kids(obj[c])|;
    assert Kids(obj[c])[..n] == Kids(obj[c]);
    assert Slots(obj, {c}, a) == SlotsBelow(obj, c, a, n);
  }

  ghost function SlotsBelow(obj: Objects, c: Ref, a: Ref, n: nat): set<(Ref, nat)>
    requires c in obj && n <= |Kids(obj[c])|
  {
    set i: nat | i < n && Kids(obj[c])[i] == a :: (c, i)
  }

  lemma {:induction false} SlotsOfSeq(obj: Objects, c: Ref, a: Ref, n: nat)
    requires c in obj && n <= |Kids(obj[c])|
    ensures |SlotsBelow(obj, c, a, n)| == Occurs(Kids(obj[c])[..n], a)
    decreases n
  {
    var ks := Kids(obj[c]);
    if n == 0 {
      assert SlotsBelow(obj, c, a, 0) == {};
    } else {
      SlotsOfSeq(obj, c, a, n - 1);
      assert ks[..n] == ks[..n - 1] + [ks[n - 1]];
      if ks[n - 1] == a {
        assert SlotsBelow(obj, c, a, n) == SlotsBelow(obj, c, a, n - 1) + {(c, n - 1)};
      } else {
        assert SlotsBelow(obj, c, a, n) == SlotsBelow(obj, c, a, n - 1);
      }
    }
  }

  /** One more object adds the references it holds. */
  lemma InRefsGrow(obj: Objects, S: set<Ref>, c: Ref, a: Ref)
    requires c in obj && c !in S
    ensures InRefs(obj, S + {c}, a) == InRefs(obj, S, a) + Occurs(Kids(obj[c]), a)
  {
    InRefsAdd(obj, S, {c}, a);
    InRefsOne(obj, c, a);
  }

  /** Only the objects of S matter. */
  lemma InRefsSame(obj: Objects, obj': Objects, S: set<Ref>, a: Ref)
    requires forall c :: c in S ==> (c in obj <==> c in obj') && (c in obj ==> obj[c] == obj'[c])
    ensures InRefs(obj, S, a) == InRefs(obj', S, a)
  {
    assert Slots(obj, S, a) == Slots(obj', S, a);
  }

  lemma InRefsEmpty(obj: Objects, a: Ref)
    ensures InRefs(obj, {}, a) == 0
  {
    assert Slots(obj, {}, a) == {};
  }

  /** A reference that is held somewhere is counted. */
  lemma Referred(obj: Objects, S: set<Ref>, c: Ref, a: Ref)
    requires c in S && c in obj && a in Kids(obj[c])
    ensures InRefs(obj, S, a) > 0
  {
    var i: nat :| i < |Kids(obj[c])| && Kids(obj[c])[i] == a;
    assert (c, i) in Slots(obj, S, a);
  }
}
