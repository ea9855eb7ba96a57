/** Selection of the k-th smallest element in place (src/classify.c:181-225). */
module Quickselect {

  predicate Same(a: seq<real>, b: seq<real>) { |a| == |b| && multiset(a) == multiset(b) }

  /** A rearrangement of places lo to hi. */
  ghost predicate Shuffled(a: seq<real>, b: seq<real>, lo: nat, hi: nat) {
    Same(a, b) && forall i :: 0 <= i < |a| && (i < lo || i > hi) ==> a[i] == b[i]
  }

  function Swapped(a: seq<real>, i: nat, j: nat): (b: seq<real>)
    requires i < |a| && j < |a|
    ensures |b| == |a| && b[i] == a[j] && b[j] == a[i]
    ensures forall k :: 0 <= k < |a| && k != i && k != j ==> b[k] == a[k]
  {
    a[i := a[j]][j := a[i]]
  }

  lemma SwapShuffles(a: seq<real>, i: nat, j: nat, lo: nat, hi: nat)
    requires lo <= i <= hi && lo <= j <= hi && hi < |a|
    ensures Shuffled(a, Swapped(a, i, j), lo, hi)
  {
  }

  lemma ShuffledTrans(a: seq<real>, b: seq<real>, c: seq<real>, lo: nat, hi: nat)
    requires Shuffled(a, b, lo, hi) && Shuffled(b, c, lo, hi)
    ensures Shuffled(a, c, lo, hi)
  {
  }

  lemma ShuffledSelf(a: seq<real>, lo: nat, hi: nat)
    ensures Shuffled(a, a, lo, hi)
  {
  }

  method Swap(v: array<real>, i: nat, j: nat, ghost lo: nat, ghost hi: nat)
    requires lo <= i <= hi && lo <= j <= hi && hi < v.Length
    modifies v
    ensures v[..] == Swapped(old(v[..]), i, j)
    ensures Shuffled(old(v[..]), v[..], lo, hi)
  {
    SwapShuffles(v[..], i, j, lo, hi);
    hide Shuffled;
    var tmp := v[i];
    v[i] := v[j];
    v[j] := tmp;
  }

  /** The values at three places, of which the first two may coincide. */
  ghost function Places(a: seq<real>, lo: nat, m: nat, hi: nat): multiset<real>
    requires lo <= m < hi < |a|
  {
    if lo < m then multiset{a[lo], a[m], a[hi]} else multiset{a[lo], a[hi]}
  }

  lemma PlacesAre(a: seq<real>, lo: nat, m: nat, hi: nat)
    requires lo <= m < hi < |a|
    ensures Places(a, lo, m, hi) == if lo < m then multiset{a[lo], a[m], a[hi]} else multiset{a[m], a[hi]}
  {
  }

  lemma Reorder(x: real, y: real, z: real)
    ensures multiset{y, x, z} == multiset{x, y, z} == multiset{x, z, y} && multiset{y, x} == multiset{x, y}
  {
    var a, b, c := multiset{x}, multiset{y}, multiset{z};
    assert a + b + c == b + a + c == a + c + b && a + b == b + a;
  }

  lemma PlacesSwapped(a: seq<real>, lo: nat, m: nat, hi: nat)
    requires lo <= m < hi < |a|
    ensures Places(Swapped(a, lo, m), lo, m, hi) == Places(a, lo, m, hi) == Places(Swapped(a, m, hi), lo, m, hi)
  {
    hide Swapped;
    Reorder(a[lo], a[m], a[hi]);
    Reorder(a[hi], a[lo], a[m]);
    Reorder(a[lo], a[hi], a[m]);
  }

  /** Orders three places by insertion. */
  method Order3(v: array<real>, lo: nat, m: nat, hi: nat)
    requires lo <= m < hi < v.Length
    modifies v
    ensures Shuffled(old(v[..]), v[..], lo, hi)
    ensures v[lo] <= v[m] <= v[hi]
    ensures Places(v[..], lo, m, hi) == old(Places(v[..], lo, m, hi))
  {
    hide Shuffled, Swapped, Places;
    ShuffledSelf(v[..], lo, hi);
    PlacesSwapped(v[..], lo, m, hi);
    if v[lo] > v[m] {
      Swap(v, lo, m, lo, hi);
    }
    assert v[..][lo] <= v[..][m];
    if v[m] > v[hi] {
      ghost var a := v[..];
      PlacesSwapped(a, lo, m, hi);
      Swap(v, m, hi, lo, hi);
      ShuffledTrans(old(v[..]), a, v[..], lo, hi);
      if v[lo] > v[m] {
        a := v[..];
        PlacesSwapped(a, lo, m, hi);
        Swap(v, lo, m, lo, hi);
        ShuffledTrans(old(v[..]), a, v[..], lo, hi);
      }
    }
  }

  /** Orders three places and moves the median to lo, the least to lo + 1. */
  method Pivot(v: array<real>, lo: nat, hi: nat) returns (pivot: real)
    requires lo < hi < v.Length
    modifies v
    ensures Shuffled(old(v[..]), v[..], lo, hi)
    ensures v[lo] == pivot && v[hi] >= pivot && (hi > lo + 1 ==> v[lo + 1] <= pivot)
    ensures old(Places(v[..], lo, (lo + hi) / 2, hi)) ==
      if hi > lo + 1 then multiset{v[lo + 1], pivot, v[hi]} else multiset{pivot, v[hi]}
  {
    hide Shuffled, Places;
    var m := (lo + hi) / 2;
    Order3(v, lo, m, hi);
    ghost var a := v[..];
    pivot := v[m];
    v[m] := v[lo + 1];
    v[lo + 1] := v[lo];
    v[lo] := pivot;
    Rotate(a, v[..], lo, m, hi);
    PlacesAre(a, lo, m, hi);
    ShuffledTrans(old(v[..]), a, v[..], lo, hi);
  }

  /** Three places moved round, or none when lo is the middle. */
  lemma Rotate(a: seq<real>, b: seq<real>, lo: nat, m: nat, hi: nat)
    requires lo <= m < hi < |a| == |b|
    requires b[lo] == a[m] && (m > lo ==> b[lo + 1] == a[lo]) && (m == lo ==> b[lo + 1] == a[lo + 1])
    requires m > lo + 1 ==> b[m] == a[lo + 1]
    requires forall k :: 0 <= k < |a| && k != lo && k != lo + 1 && k != m ==> b[k] == a[k]
    ensures Shuffled(a, b, lo, hi)
  {
    hide Shuffled, Swapped;
    if m == lo {
      assert a == b;
      ShuffledSelf(a, lo, hi);
    } else {
      var c := Swapped(a, lo, m);
      SwapShuffles(a, lo, m, lo, hi);
      if m == lo + 1 {
        assert b == c;
      } else {
        SwapShuffles(c, lo + 1, m, lo, hi);
        assert b == Swapped(c, lo + 1, m);
        ShuffledTrans(a, c, b, lo, hi);
      }
    }
  }

  lemma SameSelf(a: seq<real>)
    ensures Same(a, a)
  {
  }

  lemma SameTrans(a: seq<real>, b: seq<real>, c: seq<real>)
    requires Same(a, b) && Same(b, c)
    ensures Same(a, c)
  {
  }

  /** Splits lo..hi around the pivot; sentinels stop both scans inside the range. */
  method Partition(v: array<real>, lo: nat, hi: nat, pivot: real) returns (l: nat, h: nat)
    requires lo < hi < v.Length && v[lo] == pivot && v[hi] >= pivot && (hi > lo + 1 ==> v[lo + 1] <= pivot)
    modifies v
    ensures Shuffled(old(v[..]), v[..], lo, hi)
    ensures lo < l <= hi && lo <= h < hi && h <= l <= h + 1
    ensures forall i :: lo <= i <= h || lo <= i < l ==> v[i] <= pivot
    ensures forall i :: h < i <= hi || l <= i <= hi ==> v[i] >= pivot
  {
    hide Shuffled, Swapped;
    ShuffledSelf(v[..], lo, hi);
    l, h := lo, hi;
    while true
      invariant lo <= l < h <= hi
      invariant Shuffled(old(v[..]), v[..], lo, hi)
      invariant forall i :: lo <= i <= l ==> v[i] <= pivot
      invariant forall i :: h <= i <= hi ==> v[i] >= pivot
      decreases h - l
    {
      var l1 := ScanUp(v, l, h, pivot);
      var h1 := ScanDown(v, l, h, pivot);
      Crossing(v[..], l, h, l1, h1, pivot);
      assert forall i :: lo <= i < l1 ==> v[i] <= pivot;
      assert forall i :: h1 < i <= hi ==> v[i] >= pivot;
      l, h := l1, h1;
      if l >= h {
        return;
      }
      ghost var a := v[..];
      Swap(v, l, h, lo, hi);
      ShuffledTrans(old(v[..]), a, v[..], lo, hi);
    }
  }

  method ScanUp(v: array<real>, l0: nat, h0: nat, pivot: real) returns (l: nat)
    requires l0 < h0 < v.Length && v[h0] >= pivot
    ensures l0 < l <= h0 && v[l] >= pivot && forall i :: l0 < i < l ==> v[i] < pivot
  {
    l := l0 + 1;
    while v[l] < pivot
      invariant l0 < l <= h0 && forall i :: l0 < i < l ==> v[i] < pivot
      decreases h0 - l
    {
      l := l + 1;
    }
  }

  method ScanDown(v: array<real>, l0: nat, h0: nat, pivot: real) returns (h: nat)
    requires l0 < h0 < v.Length && v[l0] <= pivot
    ensures l0 <= h < h0 && v[h] <= pivot && forall i :: h < i < h0 ==> v[i] > pivot
  {
    h := h0 - 1;
    while v[h] > pivot
      invariant l0 <= h < h0 && forall i :: h < i < h0 ==> v[i] > pivot
      decreases h - l0
    {
      h := h - 1;
    }
  }

  /** The scans cannot pass each other by more than one place. */
  lemma Crossing(v: seq<real>, l0: nat, h0: nat, l: nat, h: nat, pivot: real)
    requires l0 <= h < h0 < |v| && l0 < l <= h0
    requires forall i :: l0 < i < l ==> v[i] < pivot
    requires forall i :: h < i < h0 ==> v[i] > pivot
    ensures l <= h + 1
  {
    var x := v[h + 1];
    assert (l0 < h + 1 < l ==> x < pivot) && (h < h + 1 < h0 ==> x > pivot);
  }

  /** v is split at k: nothing before it is larger, nothing after it smaller. */
  ghost predicate Split(v: seq<real>, k: nat) {
    k < |v| && (forall i :: 0 <= i < k ==> v[i] <= v[k]) && forall i :: k < i < |v| ==> v[k] <= v[i]
  }

  /** The element of rank k: it is the k-th of any sorted arrangement of the input. */
  method KSmallest(v: array<real>, n: nat, k: nat) returns (r: real)
    requires n == v.Length && k < n
    modifies v
    ensures Same(old(v[..]), v[..]) && Split(v[..], k) && r == v[k]
    ensures forall s: seq<real> :: Ordered(s) && Same(old(v[..]), s) ==> |s| == n && s[k] == r
  {
    hide Same, Ordered, Shuffled;
    SameSelf(v[..]);
    var lo, hi := 0, n - 1;
    while lo < hi
      invariant 0 <= lo <= k <= hi < n
      invariant Same(old(v[..]), v[..])
      invariant Apart(v[..], lo) && Apart(v[..], hi + 1)
      decreases hi - lo
    {
      ghost var a := v[..];
      var pivot := Pivot(v, lo, hi);
      ghost var b := v[..];
      var l, h := Partition(v, lo, hi, pivot);
      ShuffledTrans(a, b, v[..], lo, hi);
      ShuffledSame(a, v[..], lo, hi);
      SameTrans(old(v[..]), a, v[..]);
      ApartKept(a, v[..], lo, hi);
      if k <= h {
        ApartAt(v[..], lo, hi, h + 1, pivot);
        hi := h;
      } else if k >= l {
        ApartAt(v[..], lo, hi, l, pivot);
        lo := l;
      } else {
        break;
      }
    }
    r := v[k];
    forall s: seq<real> | Ordered(s) && Same(old(v[..]), s) ensures |s| == n && s[k] == r {
      RankUnique(old(v[..]), v[..], s, k);
    }
  }

  lemma ShuffledSame(a: seq<real>, b: seq<real>, lo: nat, hi: nat)
    requires Shuffled(a, b, lo, hi)
    ensures Same(a, b)
  {
  }

  /** Everything before place p is at most everything from p on. */
  ghost predicate Apart(v: seq<real>, p: nat) {
    forall i, j :: 0 <= i < p <= j < |v| ==> v[i] <= v[j]
  }

  lemma ApartKept(a: seq<real>, b: seq<real>, lo: nat, hi: nat)
    requires Shuffled(a, b, lo, hi) && lo <= hi < |a| && Apart(a, lo) && Apart(a, hi + 1)
    ensures Apart(b, lo) && Apart(b, hi + 1)
  {
    Middle(a, b, lo, hi);
  }

  /** The places in between hold the same elements as before. */
  lemma Middle(a: seq<real>, b: seq<real>, lo: nat, hi: nat)
    requires Shuffled(a, b, lo, hi) && lo <= hi < |a|
    ensures forall i :: lo <= i <= hi ==> exists j :: lo <= j <= hi && a[j] == b[i]
  {
    MiddleSame(a, b, lo, hi);
    var am, bm := a[lo..hi + 1], b[lo..hi + 1];
    hide Shuffled;
    forall i | lo <= i <= hi ensures exists j :: lo <= j <= hi && a[j] == b[i] {
      assert bm[i - lo] in multiset(bm) && bm[i - lo] == b[i];
      var j :| 0 <= j < |am| && am[j] == b[i];
      assert a[lo + j] == b[i];
    }
  }

  lemma MiddleSame(a: seq<real>, b: seq<real>, lo: nat, hi: nat)
    requires Shuffled(a, b, lo, hi) && lo <= hi < |a|
    ensures multiset(a[lo..hi + 1]) == multiset(b[lo..hi + 1])
  {
    var x, y := a[..lo], a[hi + 1..];
    assert a == x + a[lo..hi + 1] + y;
    assert b == x + b[lo..hi + 1] + y;
    SameInside(x, a[lo..hi + 1], b[lo..hi + 1], y);
  }

  lemma SameInside(x: seq<real>, a: seq<real>, b: seq<real>, y: seq<real>)
    requires multiset(x + a + y) == multiset(x + b + y)
    ensures multiset(a) == multiset(b)
  {
    var o := multiset(x) + multiset(y);
    assert multiset(x + a + y) == multiset(a) + o && multiset(x + b + y) == multiset(b) + o;
    assert multiset(a) == (multiset(a) + o) - o && multiset(b) == (multiset(b) + o) - o;
  }

  lemma ApartAt(v: seq<real>, lo: nat, hi: nat, p: nat, pivot: real)
    requires lo <= hi < |v| && lo <= p <= hi + 1 && Apart(v, lo) && Apart(v, hi + 1)
    requires forall i :: lo <= i < p ==> v[i] <= pivot
    requires forall i :: p <= i <= hi ==> v[i] >= pivot
    ensures Apart(v, p)
  {
  }

  ghost predicate Ordered(s: seq<real>) { forall i, j :: 0 <= i < j < |s| ==> s[i] <= s[j] }

  /** How many elements are below r, or at most r. */
  ghost function Below(s: seq<real>, r: real, strict: bool): nat {
    if s == [] then 0 else (if s[0] < r || (!strict && s[0] == r) then 1 else 0) + Below(s[1..], r, strict)
  }

  lemma {:induction false} BelowConcat(a: seq<real>, b: seq<real>, r: real, strict: bool)
    ensures Below(a + b, r, strict) == Below(a, r, strict) + Below(b, r, strict)
  {
    if a == [] {
      assert a + b == b;
    } else {
      BelowConcat(a[1..], b, r, strict);
      assert (a + b)[1..] == a[1..] + b;
    }
  }

  lemma {:induction false} BelowSame(a: seq<real>, b: seq<real>, r: real, strict: bool)
    requires multiset(a) == multiset(b)
    ensures Below(a, r, strict) == Below(b, r, strict)
    decreases |a|
  {
    if a == [] {
      assert |multiset(b)| == 0;
    } else {
      var i := Pull(a, b);
      BelowSame(a[1..], b[..i] + b[i + 1..], r, strict);
      hide Below;
      BelowConcat([a[0]], a[1..], r, strict);
      BelowConcat([b[i]], b[i + 1..], r, strict);
      BelowConcat(b[..i], b[i + 1..], r, strict);
      BelowConcat(b[..i], [b[i]] + b[i + 1..], r, strict);
      assert b == b[..i] + ([b[i]] + b[i + 1..]) && a == [a[0]] + a[1..];
    }
  }

  lemma CancelOne(a: multiset<real>, b: multiset<real>, x: real)
    requires a + multiset{x} == b + multiset{x}
    ensures a == b
  {
    assert a == (a + multiset{x}) - multiset{x} && b == (b + multiset{x}) - multiset{x};
  }

  /** The first element of a is somewhere in b; without it the rest still agrees. */
  lemma Pull(a: seq<real>, b: seq<real>) returns (i: nat)
    requires multiset(a) == multiset(b) && a != []
    ensures i < |b| && b[i] == a[0] && multiset(a[1..]) == multiset(b[..i] + b[i + 1..])
  {
    assert a[0] in multiset(b);
    i :| 0 <= i < |b| && b[i] == a[0];
    assert b == b[..i] + [b[i]] + b[i + 1..] && a == [a[0]] + a[1..];
    assert multiset(b) == multiset(b[..i] + b[i + 1..]) + multiset{a[0]};
    assert multiset(a) == multiset(a[1..]) + multiset{a[0]};
    CancelOne(multiset(a[1..]), multiset(b[..i] + b[i + 1..]), a[0]);
  }

  lemma {:induction false} BelowBound(s: seq<real>, r: real, strict: bool)
    ensures Below(s, r, strict) <= |s|
    ensures (forall i :: 0 <= i < |s| ==> s[i] < r || (!strict && s[i] == r)) ==> Below(s, r, strict) == |s|
    ensures (forall i :: 0 <= i < |s| ==> !(s[i] < r || (!strict && s[i] == r))) ==> Below(s, r, strict) == 0
  {
    if s != [] {
      BelowBound(s[1..], r, strict);
      assert forall i :: 0 <= i < |s[1..]| ==> s[1..][i] == s[i + 1];
    }
  }

  /** Counting settles the k-th element. */
  lemma RankUnique(a: seq<real>, v: seq<real>, s: seq<real>, k: nat)
    requires Same(a, v) && Same(a, s) && Split(v, k) && Ordered(s)
    ensures |s| == |v| && s[k] == v[k]
  {
    var r := v[k];
    BelowSame(v, s, r, true);
    BelowSame(v, s, r, false);
    SplitCount(v, k);
    hide Below, Split;
    if s[k] < r {
      OrderedLow(s, k, r);
    } else if s[k] > r {
      OrderedHigh(s, k, r);
    }
  }

  lemma SplitCount(v: seq<real>, k: nat)
    requires Split(v, k)
    ensures Below(v, v[k], true) <= k < Below(v, v[k], false)
  {
    hide Below;
    var n, r := k + 1, v[k];
    CutCount(v, k, r, true);
    CutCount(v, k, r, false);
    BelowBound(v[k..], r, true);
    BelowBound(v[..k], r, true);
    BelowBound(v[..n], r, false);
  }

  lemma OrderedLow(s: seq<real>, k: nat, r: real)
    requires Ordered(s) && k < |s| && s[k] < r
    ensures Below(s, r, true) > k
  {
    hide Below;
    CutCount(s, k, r, true);
    BelowBound(s[..k + 1], r, true);
  }

  lemma OrderedHigh(s: seq<real>, k: nat, r: real)
    requires Ordered(s) && k < |s| && s[k] > r
    ensures Below(s, r, false) <= k
  {
    hide Below;
    CutCount(s, k, r, false);
    BelowBound(s[..k], r, false);
    BelowBound(s[k..], r, false);
  }

  lemma CutCount(s: seq<real>, k: nat, r: real, strict: bool)
    requires k < |s|
    ensures Below(s, r, strict) == Below(s[..k], r, strict) + Below(s[k..], r, strict)
    ensures Below(s, r, strict) == Below(s[..k + 1], r, strict) + Below(s[k + 1..], r, strict)
  {
    assert s == s[..k] + s[k..] && s == s[..k + 1] + s[k + 1..];
    BelowConcat(s[..k], s[k..], r, strict);
    BelowConcat(s[..k + 1], s[k + 1..], r, strict);
  }
}
