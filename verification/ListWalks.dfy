/** List walks that survive circular lists (src/at.c:541-677, src/at.c:779-798,
    src/at.c:851-872): a second pointer follows at half speed. */
module ListWalks {
  import opened Basics
  import opened LispHeap

  predicate Consp(obj: Objects, p: Ref) { p in obj && obj[p].Cons? }

  /** The k-th cdr; a walk that has left the conses stays where it is. */
  ghost function Nth(obj: Objects, l: Ref, k: nat): Ref {
    if k == 0 then l
    else
      var p := Nth(obj, l, k - 1);
      if Consp(obj, p) then obj[p].cdr else p
  }

  ghost predicate Circular(obj: Objects, l: Ref) { forall k: nat :: Consp(obj, Nth(obj, l, k)) }

  /** n conses, then something else. */
  ghost predicate EndsAt(obj: Objects, l: Ref, n: nat) {
    && (forall k: nat :: k < n ==> Consp(obj, Nth(obj, l, k)))
    && !Consp(obj, Nth(obj, l, n))
  }

  lemma {:induction false} NthOfNth(obj: Objects, l: Ref, i: nat, j: nat)
    ensures Nth(obj, Nth(obj, l, i), j) == Nth(obj, l, i + j)
  {
    if j > 0 {
      NthOfNth(obj, l, i, j - 1);
    }
  }

  /** Once two positions hold the same cell the walk repeats. */
  lemma {:induction false} Period(obj: Objects, l: Ref, i: nat, d: nat, m: nat, t: nat)
    requires Nth(obj, l, i) == Nth(obj, l, i + d) && m >= i
    ensures Nth(obj, l, m) == Nth(obj, l, m + t * d)
    decreases t
  {
    if t > 0 {
      Period(obj, l, i, d, m, t - 1);
      NthOfNth(obj, l, i, m - i + (t - 1) * d);
      NthOfNth(obj, l, i + d, m - i + (t - 1) * d);
      assert m + t * d == i + d + (m - i + (t - 1) * d) && m + (t - 1) * d == i + (m - i + (t - 1) * d);
    }
  }

  /** The cells the walk has met before its n-th step. */
  ghost function Trail(obj: Objects, l: Ref, n: nat): set<Ref> {
    if n == 0 then {} else Trail(obj, l, n - 1) + {Nth(obj, l, n - 1)}
  }

  lemma {:induction false} TrailStep(obj: Objects, l: Ref, n: nat, c: Ref) returns (k: nat)
    requires c in Trail(obj, l, n)
    ensures k < n && Nth(obj, l, k) == c
  {
    if c == Nth(obj, l, n - 1) {
      k := n - 1;
    } else {
      k := TrailStep(obj, l, n - 1, c);
    }
  }

  lemma {:induction false} OnTrail(obj: Objects, l: Ref, n: nat, k: nat)
    requires k < n
    ensures Nth(obj, l, k) in Trail(obj, l, n)
  {
    if k < n - 1 {
      OnTrail(obj, l, n - 1, k);
    }
  }

  /** A walk that meets its own path never leaves it. */
  lemma {:induction false} LoopsForever(obj: Objects, l: Ref, i: nat, d: nat, k: nat)
    requires d > 0 && Nth(obj, l, i) == Nth(obj, l, i + d)
    ensures Nth(obj, l, k) in Trail(obj, l, i + d)
    decreases k
  {
    if k >= i + d {
      LoopsForever(obj, l, i, d, k - d);
      Period(obj, l, i, d, k - d, 1);
    } else {
      OnTrail(obj, l, i + d, k);
    }
  }

  lemma {:induction false} TrailSize(obj: Objects, l: Ref, n: nat)
    requires forall k: nat :: k < n ==> Consp(obj, Nth(obj, l, k))
    requires forall i: nat, j: nat :: i < j < n ==> Nth(obj, l, i) != Nth(obj, l, j)
    ensures Trail(obj, l, n) <= obj.Keys && |Trail(obj, l, n)| == n
  {
    if n > 0 {
      TrailSize(obj, l, n - 1);
      if Nth(obj, l, n - 1) in Trail(obj, l, n - 1) {
        var k := TrailStep(obj, l, n - 1, Nth(obj, l, n - 1));
        assert false;
      }
    }
  }

  /** In a finite heap a circular walk comes back to a cell it has seen. */
  lemma Revisits(obj: Objects, l: Ref) returns (i: nat, d: nat)
    requires Circular(obj, l)
    ensures d > 0 && Nth(obj, l, i) == Nth(obj, l, i + d)
  {
    var n := |obj.Keys| + 1;
    if j: nat, k: nat :| j < k < n && Nth(obj, l, j) == Nth(obj, l, k) {
      i, d := j, k - j;
    } else {
      TrailSize(obj, l, n);
      SubsetSize(Trail(obj, l, n), obj.Keys);
      assert false;
    }
  }

  /** Where the slow pointer stands after i steps; last moves it one step later than the others. */
  function Slow(i: nat, late: bool): nat { if late then i / 2 else (i + 1) / 2 }

  /** The walk is over by step b: the list ends there, or the pointers meet there. */
  ghost predicate OverBy(obj: Objects, l: Ref, b: nat, late: bool) {
    if Circular(obj, l) then b >= 1 && Nth(obj, l, b) == Nth(obj, l, Slow(b - 1, late)) else EndsAt(obj, l, b)
  }

  lemma Meeting(obj: Objects, l: Ref, late: bool) returns (b: nat)
    ensures OverBy(obj, l, b, late)
  {
    if Circular(obj, l) {
      var i, d := Revisits(obj, l);
      var c := d * (i + 1);
      Multiple(d, i + 1);
      assert (i + 1) * d == c;
      if late {
        b := 2 * c - 1;
        Period(obj, l, i, d, c - 1, i + 1);
        assert Slow(b - 1, late) == c - 1;
      } else {
        b := 2 * c;
        Period(obj, l, i, d, c, i + 1);
        assert Slow(b - 1, late) == c;
      }
    } else {
      b := First(obj, l);
    }
  }

  /** After i steps, all on conses, the pointers are p and q and have not met. */
  ghost predicate Walking(obj: Objects, l: Ref, i: nat, p: Ref, q: Ref, b: nat, late: bool) {
    && OverBy(obj, l, b, late) && i <= b && (Circular(obj, l) ==> i < b)
    && (forall k: nat :: k < i ==> Consp(obj, Nth(obj, l, k)))
    && p == Nth(obj, l, i) && q == Nth(obj, l, Slow(i, late))
  }

  lemma Begin(obj: Objects, l: Ref, late: bool) returns (b: nat)
    ensures Walking(obj, l, 0, l, l, b, late)
  {
    b := Meeting(obj, l, late);
  }

  /** One step: the pointers meet, which settles that the list is circular, or the walk goes on. */
  lemma Advance(obj: Objects, l: Ref, i: nat, p: Ref, q: Ref, b: nat, late: bool)
    requires Walking(obj, l, i, p, q, b, late) && Consp(obj, p)
    ensures i < b && (obj[p].cdr != q && (i % 2 == 0) != late ==> Consp(obj, q))
    ensures obj[p].cdr == q ==> Circular(obj, l) && forall k: nat :: Nth(obj, l, k) in Trail(obj, l, i + 1)
    ensures obj[p].cdr != q ==>
      Walking(obj, l, i + 1, obj[p].cdr, if (i % 2 == 0) != late then obj[q].cdr else q, b, late)
  {
    assert Nth(obj, l, i + 1) == obj[p].cdr;
    if obj[p].cdr == q {
      Caught(obj, l, i + 1, Slow(i, late));
    } else {
      assert Consp(obj, Nth(obj, l, Slow(i, late)));
    }
  }

  /** A walk that leaves the conses has found the end. */
  lemma Ends(obj: Objects, l: Ref, i: nat, p: Ref, q: Ref, b: nat, late: bool)
    requires Walking(obj, l, i, p, q, b, late) && !Consp(obj, p)
    ensures EndsAt(obj, l, i) && !Circular(obj, l)
    ensures forall k: nat :: k >= i ==> Nth(obj, l, k) == p
  {
    Ended(obj, l, i);
  }

  lemma Multiple(d: nat, m: nat)
    requires d > 0
    ensures d * m >= m
  {
  }

  lemma First(obj: Objects, l: Ref) returns (n: nat)
    requires !Circular(obj, l)
    ensures EndsAt(obj, l, n)
  {
    var m: nat :| !Consp(obj, Nth(obj, l, m));
    n := 0;
    while Consp(obj, Nth(obj, l, n))
      invariant n <= m && forall k: nat :: k < n ==> Consp(obj, Nth(obj, l, k))
      decreases m - n
    {
      n := n + 1;
    }
  }

  /** When the pointers meet after i steps the list is circular and every cell has been seen. */
  lemma Caught(obj: Objects, l: Ref, i: nat, j: nat)
    requires j < i && Nth(obj, l, i) == Nth(obj, l, j)
    requires forall k: nat :: k < i ==> Consp(obj, Nth(obj, l, k))
    ensures Circular(obj, l) && forall k: nat :: Nth(obj, l, k) in Trail(obj, l, i)
  {
    forall k: nat ensures Consp(obj, Nth(obj, l, k)) && Nth(obj, l, k) in Trail(obj, l, i) {
      LoopsForever(obj, l, j, i - j, k);
      var m := TrailStep(obj, l, i, Nth(obj, l, k));
    }
  }

  /** length: -1 exactly on circular lists. */
  method Length(obj: Objects, l: Ref) returns (i: int)
    ensures i == -1 <==> Circular(obj, l)
    ensures i != -1 ==> i >= 0 && EndsAt(obj, l, i)
  {
    hide Walking, Circular, Nth, EndsAt;
    var p, q := l, l;
    i := 0;
    ghost var b := Begin(obj, l, false);
    while Consp(obj, p)
      invariant i >= 0 && Walking(obj, l, i, p, q, b, false)
      decreases b - i
    {
      Advance(obj, l, i, p, q, b, false);
      i := i + 1;
      p := obj[p].cdr;
      if p == q {
        return -1;
      }
      if i % 2 == 1 {
        q := obj[q].cdr;
      }
    }
    Ends(obj, l, i, p, q, b, false);
  }

  /** lastcdr: the last cons, NIL when there is none, an error on a circular list. */
  method LastCdr(obj: Objects, l: Ref) returns (ok: bool, r: Ref)
    ensures ok <==> !Circular(obj, l)
    ensures ok && Consp(obj, l) ==> exists k: nat :: EndsAt(obj, l, k + 1) && r == Nth(obj, l, k)
    ensures !Consp(obj, l) ==> r == 0
  {
    hide Walking, Circular, EndsAt;
    ghost var b := Begin(obj, l, false);
    if !Consp(obj, l) {
      Ends(obj, l, 0, l, l, b, false);
      return true, 0;
    }
    var p, q, toggle := l, l, 0;
    ghost var i: nat := 0;
    while Consp(obj, obj[p].cdr)
      invariant Walking(obj, l, i, p, q, b, false) && p == Nth(obj, l, i) && Consp(obj, p) && toggle == i % 2
      decreases b - i
    {
      Advance(obj, l, i, p, q, b, false);
      p, i := obj[p].cdr, i + 1;
      if p == q {
        return false, 0;
      }
      toggle := 1 - toggle;
      if toggle == 1 {
        q := obj[q].cdr;
      }
    }
    LastStep(obj, l, i, p, q, b, false);
    return true, p;
  }

  /** last: the tail after the last cons when it is not NIL, else the last element. */
  method Last(obj: Objects, l: Ref) returns (ok: bool, r: Ref)
    ensures ok <==> !Circular(obj, l)
    ensures ok && Consp(obj, l) ==> exists k: nat ::
      (EndsAt(obj, l, k + 1) && r == if Nth(obj, l, k + 1) != 0 then Nth(obj, l, k + 1) else Car(obj, Nth(obj, l, k)))
    ensures !Consp(obj, l) ==> r == 0
  {
    hide Walking, Circular, EndsAt;
    ghost var b := Begin(obj, l, true);
    if !Consp(obj, l) {
      Ends(obj, l, 0, l, l, b, true);
      return true, 0;
    }
    var p, q, toggle := l, l, 1;
    ghost var i: nat := 0;
    while Consp(obj, obj[p].cdr)
      invariant Walking(obj, l, i, p, q, b, true) && p == Nth(obj, l, i) && Consp(obj, p) && toggle == 1 - i % 2
      decreases b - i
    {
      Advance(obj, l, i, p, q, b, true);
      p, i := obj[p].cdr, i + 1;
      if p == q {
        return false, 0;
      }
      toggle := 1 - toggle;
      if toggle == 1 {
        q := obj[q].cdr;
      }
    }
    LastStep(obj, l, i, p, q, b, true);
    if obj[p].cdr != 0 {
      return true, obj[p].cdr;
    }
    return true, obj[p].car;
  }

  lemma LastStep(obj: Objects, l: Ref, i: nat, p: Ref, q: Ref, b: nat, late: bool)
    requires Walking(obj, l, i, p, q, b, late) && Consp(obj, p) && !Consp(obj, obj[p].cdr)
    ensures !Circular(obj, l) && EndsAt(obj, l, i + 1) && Nth(obj, l, i + 1) == obj[p].cdr
  {
    assert !Consp(obj, Nth(obj, l, i + 1));
  }

  /** member's test on one cell; eq is eq_test against the element looked for. */
  predicate Holds(obj: Objects, p: Ref, eq: Ref -> bool) { Consp(obj, p) && eq(obj[p].car) }

  /** assoc's test: the car of the cell is a pair whose key passes. */
  predicate HoldsKey(obj: Objects, p: Ref, eq: Ref -> bool) {
    Consp(obj, p) && Consp(obj, obj[p].car) && eq(obj[obj[p].car].car)
  }

  /** member: the first cell whose car passes; NIL only if no cell does, circular list or not. */
  method Member(obj: Objects, l: Ref, eq: Ref -> bool) returns (r: Ref)
    requires 0 !in obj
    ensures r == 0 ==> forall k: nat :: !Holds(obj, Nth(obj, l, k), eq)
    ensures r != 0 ==> Holds(obj, r, eq) && FirstAt(obj, l, r, (c: Ref) => Holds(obj, c, eq))
  {
    hide Walking, Circular, Nth, EndsAt, FirstAt;
    var p, q, toggle := l, l, 0;
    ghost var b := Begin(obj, l, false);
    ghost var i: nat, hit := 0, (c: Ref) => Holds(obj, c, eq);
    while Consp(obj, p)
      invariant Walking(obj, l, i, p, q, b, false) && toggle == i % 2 && NoneBefore(obj, l, i, hit)
      decreases b - i
    {
      if eq(obj[p].car) {
        Found(obj, l, i, p, q, b, hit);
        return p;
      }
      Advance(obj, l, i, p, q, b, false);
      OneMoreMiss(obj, l, i, p, q, b, hit);
      p, i := obj[p].cdr, i + 1;
      if p == q {
        NoHit(obj, l, i, hit);
        return 0;
      }
      toggle := 1 - toggle;
      if toggle == 1 {
        q := obj[q].cdr;
      }
    }
    Ends(obj, l, i, p, q, b, false);
    NoneAtEnd(obj, l, i, p, hit);
    return 0;
  }

  /** assoc: the first pair whose key passes; NIL only if no pair does. */
  method Assoc(obj: Objects, l: Ref, eq: Ref -> bool) returns (r: Ref)
    requires 0 !in obj
    ensures r == 0 ==> forall k: nat :: !HoldsKey(obj, Nth(obj, l, k), eq)
    ensures r != 0 ==>
      exists c :: HoldsKey(obj, c, eq) && r == obj[c].car && FirstAt(obj, l, c, (d: Ref) => HoldsKey(obj, d, eq))
  {
    hide Walking, Circular, Nth, EndsAt, FirstAt;
    var p, q, toggle := l, l, 0;
    ghost var b := Begin(obj, l, false);
    ghost var i: nat, hit := 0, (c: Ref) => HoldsKey(obj, c, eq);
    while Consp(obj, p)
      invariant Walking(obj, l, i, p, q, b, false) && toggle == i % 2 && NoneBefore(obj, l, i, hit)
      decreases b - i
    {
      var pair := obj[p].car;
      if Consp(obj, pair) && eq(obj[pair].car) {
        Found(obj, l, i, p, q, b, hit);
        return pair;
      }
      Advance(obj, l, i, p, q, b, false);
      OneMoreMiss(obj, l, i, p, q, b, hit);
      p, i := obj[p].cdr, i + 1;
      if p == q {
        NoHit(obj, l, i, hit);
        return 0;
      }
      toggle := 1 - toggle;
      if toggle == 1 {
        q := obj[q].cdr;
      }
    }
    Ends(obj, l, i, p, q, b, false);
    NoneAtEnd(obj, l, i, p, hit);
    return 0;
  }

  ghost predicate NoneBefore(obj: Objects, l: Ref, i: nat, hit: Ref -> bool) {
    forall k: nat :: k < i ==> !hit(Nth(obj, l, k))
  }

  /** c is the first cell of the walk that passes. */
  ghost predicate FirstAt(obj: Objects, l: Ref, c: Ref, hit: Ref -> bool) {
    exists k: nat :: c == Nth(obj, l, k) && hit(c) && NoneBefore(obj, l, k, hit)
  }

  lemma Found(obj: Objects, l: Ref, i: nat, p: Ref, q: Ref, b: nat, hit: Ref -> bool)
    requires Walking(obj, l, i, p, q, b, false) && NoneBefore(obj, l, i, hit) && hit(p)
    ensures FirstAt(obj, l, p, hit)
  {
  }

  lemma OneMoreMiss(obj: Objects, l: Ref, i: nat, p: Ref, q: Ref, b: nat, hit: Ref -> bool)
    requires Walking(obj, l, i, p, q, b, false) && NoneBefore(obj, l, i, hit) && !hit(p)
    ensures NoneBefore(obj, l, i + 1, hit)
  {
  }

  lemma NoneAtEnd(obj: Objects, l: Ref, i: nat, p: Ref, hit: Ref -> bool)
    requires NoneBefore(obj, l, i, hit) && !hit(p) && forall k: nat :: k >= i ==> Nth(obj, l, k) == p
    ensures forall k: nat :: !hit(Nth(obj, l, k))
  {
  }

  /** All cells have been seen before the pointers meet. */
  lemma NoHit(obj: Objects, l: Ref, i: nat, hit: Ref -> bool)
    requires NoneBefore(obj, l, i, hit) && forall k: nat :: Nth(obj, l, k) in Trail(obj, l, i)
    ensures forall k: nat :: !hit(Nth(obj, l, k))
  {
    forall k: nat ensures !hit(Nth(obj, l, k)) {
      var m := TrailStep(obj, l, i, Nth(obj, l, k));
    }
  }

  /** Past the last cons the walk stands still. */
  lemma Ended(obj: Objects, l: Ref, i: nat)
    requires !Consp(obj, Nth(obj, l, i))
    ensures forall k: nat :: k >= i ==> Nth(obj, l, k) == Nth(obj, l, i)
  {
    forall k: nat | k >= i ensures Nth(obj, l, k) == Nth(obj, l, i) {
      StandsStill(obj, l, i, k);
    }
  }

  lemma {:induction false} StandsStill(obj: Objects, l: Ref, i: nat, k: nat)
    requires !Consp(obj, Nth(obj, l, i)) && k >= i
    ensures Nth(obj, l, k) == Nth(obj, l, i)
    decreases k
  {
    if k > i {
      StandsStill(obj, l, i, k - 1);
    }
  }

  /** The conses from p on, all at or above address lo, hold these cars; the last cdr is t. */
  ghost predicate Spine(obj: Objects, lo: Ref, p: Ref, cars: seq<Ref>, t: Ref)
    decreases |cars|
  {
    if cars == [] then p == t
    else p >= lo && Consp(obj, p) && obj[p].car == cars[0] && Spine(obj, lo, obj[p].cdr, cars[1..], t)
  }

  function Car(obj: Objects, p: Ref): Ref { if Consp(obj, p) then obj[p].car else 0 }

  /** The elements of the first n cells. */
  ghost function Cars(obj: Objects, l: Ref, n: nat): (s: seq<Ref>)
    ensures |s| == n && forall k: nat :: k < n ==> s[k] == Car(obj, Nth(obj, l, k))
  {
    if n == 0 then [] else Cars(obj, l, n - 1) + [Car(obj, Nth(obj, l, n - 1))]
  }

  lemma CarsMore(obj: Objects, l: Ref, i: nat, p: Ref, q: Ref, b: nat)
    requires Walking(obj, l, i, p, q, b, false) && Consp(obj, p)
    ensures Cars(obj, l, i + 1) == Cars(obj, l, i) + [obj[p].car]
  {
  }

  lemma NoCars(obj: Objects, l: Ref, lo: Ref)
    ensures Cars(obj, l, 0) == [] && Spine(obj, lo, 0, Reversed(Cars(obj, l, 0)), 0)
  {
  }

  function Reversed(s: seq<Ref>): (r: seq<Ref>)
    ensures |r| == |s| && forall k :: 0 <= k < |s| ==> r[k] == s[|s| - 1 - k]
  {
    if s == [] then [] else Reversed(s[1..]) + [s[0]]
  }

  /** A spine is what cdr-ing finds. */
  lemma {:induction false} SpineNth(obj: Objects, lo: Ref, p: Ref, cars: seq<Ref>, t: Ref, k: nat)
    requires Spine(obj, lo, p, cars, t) && k <= |cars|
    ensures k == |cars| ==> Nth(obj, p, k) == t
    ensures k < |cars| ==> Nth(obj, p, k) >= lo && Consp(obj, Nth(obj, p, k)) && obj[Nth(obj, p, k)].car == cars[k]
    decreases k
  {
    if k > 0 {
      SpineNth(obj, lo, obj[p].cdr, cars[1..], t, k - 1);
      assert Nth(obj, p, 1) == obj[Nth(obj, p, 0)].cdr;
      NthOfNth(obj, p, 1, k - 1);
    }
  }

  /** Writing elsewhere leaves a spine alone. */
  lemma {:induction false} SpineKept(obj: Objects, obj': Objects, lo: Ref, p: Ref, cars: seq<Ref>, t: Ref)
    requires Spine(obj, lo, p, cars, t) && Extends(obj, obj')
    ensures Spine(obj', lo, p, cars, t)
    decreases |cars|
  {
    if cars != [] {
      SpineKept(obj, obj', lo, obj[p].cdr, cars[1..], t);
    }
  }

  /** One more cell in front. */
  lemma SpineMore(obj: Objects, obj': Objects, lo: Ref, p: Ref, cars: seq<Ref>, p1: Ref, x: Ref)
    requires Spine(obj, lo, p1, cars, 0) && Extends(obj, obj') && p >= lo && p in obj' && obj'[p] == Obj.Cons(x, p1)
    ensures Spine(obj', lo, p, [x] + cars, 0)
  {
    SpineKept(obj, obj', lo, p1, cars, 0);
    assert ([x] + cars)[1..] == cars;
  }

  ghost predicate Extends(obj: Objects, obj': Objects) { forall c :: c in obj ==> c in obj' && obj'[c] == obj[c] }

  lemma {:induction false} ReversedMore(s: seq<Ref>, x: Ref)
    ensures Reversed(s + [x]) == [x] + Reversed(s)
  {
  }

  /** Cells lo, lo+1, ... linked in order make a spine. */
  ghost predicate Row(obj: Objects, lo: Ref, cars: seq<Ref>, t: Ref) {
    forall c: Ref :: lo <= c < lo + |cars| ==>
      (c in obj && obj[c] == Obj.Cons(cars[c - lo], if c + 1 < lo + |cars| then c + 1 else t))
  }

  lemma {:induction false} RowSpine(obj: Objects, lo: Ref, cars: seq<Ref>, t: Ref, k: nat)
    requires Row(obj, lo, cars, t) && k < |cars|
    ensures Spine(obj, lo, lo + k, cars[k..], t)
    decreases |cars| - k
  {
    assert cars[k..][1..] == cars[k + 1..];
    assert lo + k in obj && obj[lo + k].Cons?;
    if k + 1 < |cars| {
      RowSpine(obj, lo, cars, t, k + 1);
    }
  }

  /** Cells lie between 1 and top and refer to cells or NIL. */
  ghost predicate Inside(obj: Objects, top: Ref) {
    0 !in obj && (forall c :: c in obj ==> c < top) && Closed(obj, obj.Keys)
  }

  lemma InsideMore(obj: Objects, top: Ref, o: Obj)
    requires Inside(obj, top) && top > 0 && o.Cons? && (o.car == 0 || o.car in obj) && (o.cdr == 0 || o.cdr in obj)
    ensures Inside(obj[top := o], top + 1) && Extends(obj, obj[top := o])
  {
  }

  lemma InsideRewritten(obj: Objects, top: Ref, q: Ref, o: Obj)
    requires Inside(obj, top) && q in obj && o.Cons? && (o.car == 0 || o.car in obj) && (o.cdr == 0 || o.cdr in obj)
    ensures Inside(obj[q := o], top)
  {
  }

  lemma KidsOf(obj: Objects, p: Ref)
    requires Closed(obj, obj.Keys) && Consp(obj, p)
    ensures obj[p].car == 0 || obj[p].car in obj
    ensures obj[p].cdr == 0 || obj[p].cdr in obj
  {
    assert obj[p].car in Kids(obj[p]) && obj[p].cdr in Kids(obj[p]);
  }

  /** append so far: the new cells hold these elements, r is the first and cell the last. */
  ghost predicate Copied(o0: Objects, lo: Ref, obj: Objects, top: Ref, cars: seq<Ref>, r: Ref, cell: Ref) {
    && Extends(o0, obj) && lo > 0 && (forall c :: c in o0 ==> 0 < c < lo)
    && top == lo + |cars| && Row(obj, lo, cars, 0)
    && if cars == [] then r == cell == 0 else r == lo && cell == top - 1
  }

  lemma CopyNone(obj: Objects, lo: Ref, l: Ref)
    requires Inside(obj, lo) && lo > 0
    ensures Copied(obj, lo, obj, lo, Cars(obj, l, 0), 0, 0)
  {
  }

  lemma CopyMore(o0: Objects, lo: Ref, obj: Objects, top: Ref, cars: seq<Ref>, r: Ref, cell: Ref, x: Ref)
    requires Copied(o0, lo, obj, top, cars, r, cell)
    ensures cell != 0 ==> Consp(obj, cell) && cell != top
    ensures var obj1 := obj[top := Obj.Cons(x, 0)];
      (if cell == 0 then Copied(o0, lo, obj1, top + 1, cars + [x], top, top) && Extends(o0, obj1)
       else var obj2 := obj1[cell := Obj.Cons(obj[cell].car, top)];
         Copied(o0, lo, obj2, top + 1, cars + [x], r, top) && Extends(o0, obj2))
  {
    if cell != 0 {
      assert cell in obj;
    }
  }

  lemma CopyDone(o0: Objects, lo: Ref, obj: Objects, top: Ref, cars: seq<Ref>, r: Ref, cell: Ref, t: Ref)
    requires Copied(o0, lo, obj, top, cars, r, cell)
    ensures cell == 0 ==> Extends(o0, obj) && Spine(obj, lo, t, cars, t)
    ensures cell != 0 ==> Consp(obj, cell)
    ensures cell != 0 ==>
      var obj' := obj[cell := Obj.Cons(obj[cell].car, t)]; (Extends(o0, obj') && Spine(obj', lo, r, cars, t))
  {
    if cell != 0 {
      assert cell in obj;
      RowSpine(obj[cell := Obj.Cons(obj[cell].car, t)], lo, cars, t, 0);
      assert cars[0..] == cars;
    }
  }

  class Space {
    var obj: Objects
    var top: Ref            // no cell lies at or above this address

    ghost predicate Valid()
      reads this
    {
      top > 0 && Inside(obj, top)
    }

    /** new_cons: a cell at an unused address. */
    method NewCons(car: Ref, cdr: Ref) returns (q: Ref)
      requires Valid() && (car == 0 || car in obj) && (cdr == 0 || cdr in obj)
      modifies this
      ensures Valid() && q == old(top) && top == q + 1 && obj == old(obj)[q := Obj.Cons(car, cdr)]
      ensures Extends(old(obj), obj)
    {
      InsideMore(obj, top, Obj.Cons(car, cdr));
      q := top;
      obj, top := obj[q := Obj.Cons(car, cdr)], top + 1;
    }

    /** Stores through the pointer to a cdr slot that append keeps. */
    method FillTail(cell: Ref, t: Ref)
      requires Valid() && Consp(obj, cell) && (t == 0 || t in obj)
      modifies this`obj
      ensures Valid() && obj == old(obj)[cell := Obj.Cons(old(obj)[cell].car, t)]
    {
      KidsOf(obj, cell);
      InsideRewritten(obj, top, cell, Obj.Cons(obj[cell].car, t));
      obj := obj[cell := Obj.Cons(obj[cell].car, t)];
    }

    /** reverse: new cells holding the cars in reverse order, ended by NIL; an error exactly
        on circular lists. Cells made before are untouched either way. */
    method Reverse(l: Ref) returns (ok: bool, r: Ref)
      requires Valid() && (l == 0 || l in obj)
      modifies this
      ensures Valid() && Extends(old(obj), obj) && (ok <==> !Circular(old(obj), l))
      ensures ok ==>
        exists n: nat :: EndsAt(old(obj), l, n) && Spine(obj, old(top), r, Reversed(Cars(old(obj), l, n)), 0)
    {
      hide Walking, Circular, Nth, EndsAt, Spine, Reversed, Cars, Closed;
      var p, q, toggle := l, l, 0;
      r := 0;
      ghost var o0, lo := obj, top;
      ghost var b := Begin(o0, l, false);
      ghost var i: nat := 0;
      NoCars(o0, l, lo);
      while Consp(obj, p)
        invariant Valid() && Extends(o0, obj) && lo <= top && (p == 0 || p in o0) && (r == 0 || r in obj)
        invariant Walking(o0, l, i, p, q, b, false) && toggle == i % 2
        invariant Spine(obj, lo, r, Reversed(Cars(o0, l, i)), 0)
        decreases b - i
      {
        assert obj[p] == o0[p];
        Advance(o0, l, i, p, q, b, false);
        CarsMore(o0, l, i, p, q, b);
        ReversedMore(Cars(o0, l, i), obj[p].car);
        KidsOf(o0, p);
        ghost var o1, r1 := obj, r;
        r := NewCons(obj[p].car, r);
        SpineMore(o1, obj, lo, r, Reversed(Cars(o0, l, i)), r1, obj[p].car);
        p, i := obj[p].cdr, i + 1;
        if p == q {
          return false, 0;
        }
        toggle := 1 - toggle;
        if toggle == 1 {
          q := obj[q].cdr;
        }
      }
      Ends(o0, l, i, p, q, b, false);
      return true, r;
    }

    /** append: copies the cells of l1 and lets the last one point to l2. */
    method Append(l1: Ref, l2: Ref) returns (ok: bool, r: Ref)
      requires Valid() && (l1 == 0 || l1 in obj) && (l2 == 0 || l2 in obj)
      modifies this
      ensures Valid() && Extends(old(obj), obj) && (ok <==> !Circular(old(obj), l1))
      ensures ok ==> exists n: nat :: EndsAt(old(obj), l1, n) && Spine(obj, old(top), r, Cars(old(obj), l1, n), l2)
    {
      hide Walking, Circular, Nth, EndsAt, Spine, Closed, Cars, Copied;
      var p, q, toggle, cell := l1, l1, 0, 0;
      r := 0;
      ghost var o0, lo := obj, top;
      ghost var b := Begin(o0, l1, false);
      ghost var i: nat := 0;
      CopyNone(o0, lo, l1);
      while Consp(obj, p)
        invariant Valid() && (p == 0 || p in o0) && Extends(o0, obj)
        invariant Walking(o0, l1, i, p, q, b, false) && toggle == i % 2
        invariant Copied(o0, lo, obj, top, Cars(o0, l1, i), r, cell)
        decreases b - i
      {
        CopyMore(o0, lo, obj, top, Cars(o0, l1, i), r, cell, o0[p].car);
        Advance(o0, l1, i, p, q, b, false);
        CarsMore(o0, l1, i, p, q, b);
        KidsOf(o0, p);
        var c := NewCons(obj[p].car, 0);
        if cell == 0 {
          r := c;
        } else {
          FillTail(cell, c);
        }
        cell := c;
        assert obj[p] == o0[p];
        p, i := obj[p].cdr, i + 1;
        if p == q {
          return false, 0;
        }
        toggle := 1 - toggle;
        if toggle == 1 {
          q := obj[q].cdr;
        }
      }
      Ends(o0, l1, i, p, q, b, false);
      CopyDone(o0, lo, obj, top, Cars(o0, l1, i), r, cell, l2);
      if cell == 0 {
        return true, l2;
      }
      FillTail(cell, l2);
      return true, r;
    }
  }
}
