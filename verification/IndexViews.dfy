/** Views over a flat storage: structural operations and bounds (src/index.c:2649-2822,
    src/index.c:2932-3025). */
module IndexViews {
  import opened Basics
  import opened IndexLoops

  const MAXDIMS := 11

  datatype View = View(offset: int, dim: seq<int>, mod: seq<int>)

  /** A sized index: as many strides as dimensions, every dimension at least one. */
  ghost predicate Sized(v: View) { |v.dim| == |v.mod| <= MAXDIMS && Sizes(v.dim) }

  /** Where the element at a coordinate lies in the storage. */
  ghost function Place(v: View, c: seq<int>): int
    requires |c| == |v.mod|
  {
    v.offset + Dot(c, v.mod)
  }

  ghost predicate InBounds(v: View, size: nat)
    requires Sized(v)
  {
    forall c :: InRange(c, v.dim) ==> 0 <= Place(v, c) < size
  }

  function Unfold(v: View, d: int, sz: int, st: int): Option<View>
    requires |v.dim| == |v.mod|
  {
    if d < 0 || d >= |v.dim| || sz < 1 || st < 1 then None
    else
      var s := 1 + TruncDiv(v.dim[d] - sz, st);
      if s <= 0 || v.dim[d] != st * (s - 1) + sz || |v.dim| + 1 >= MAXDIMS then None
      else Some(View(v.offset, v.dim[d := s] + [sz], v.mod[d := v.mod[d] * st] + [v.mod[d]]))
  }

  function Sum(s: seq<int>): int { if s == [] then 0 else Sum(s[..|s| - 1]) + s[|s| - 1] }

  predicate AllEqual(s: seq<int>, x: int) { forall i :: 0 <= i < |s| ==> s[i] == x }

  function Diagonal(v: View, d: int): Option<View>
    requires |v.dim| == |v.mod|
  {
    if d < 2 || d > |v.dim| then None
    else
      var m := |v.dim| - d;
      if !AllEqual(v.dim[m..], v.dim[m]) then None
      else Some(View(v.offset, v.dim[..m + 1], v.mod[..m] + [Sum(v.mod[m..])]))
  }

  function Narrow(v: View, d: int, sz: int, st: int): Option<View>
    requires |v.dim| == |v.mod|
  {
    if d < 0 || d >= |v.dim| || sz < 1 || st < 0 || st + sz > v.dim[d] then None
    else Some(View(v.offset + st * v.mod[d], v.dim[d := sz], v.mod))
  }

  function Select(v: View, d: int, x: int): Option<View>
    requires |v.dim| == |v.mod|
  {
    if d < 0 || d >= |v.dim| || x < 0 || x >= v.dim[d] then None
    else Some(View(v.offset + x * v.mod[d], v.dim[..d] + v.dim[d + 1..], v.mod[..d] + v.mod[d + 1..]))
  }

  predicate Permutation(t: seq<int>, n: nat) {
    && |t| == n && (forall i :: 0 <= i < n ==> 0 <= t[i] < n)
    && forall i, j :: 0 <= i < j < n ==> t[i] != t[j]
  }

  function Picked(s: seq<int>, t: seq<int>): (r: seq<int>)
    requires forall i :: 0 <= i < |t| ==> 0 <= t[i] < |s|
    ensures |r| == |t| && forall i :: 0 <= i < |t| ==> r[i] == s[t[i]]
  {
    seq(|t|, i requires 0 <= i < |t| => s[t[i]])
  }

  function Transpose(v: View, t: seq<int>): Option<View>
    requires |v.dim| == |v.mod|
  {
    if Permutation(t, |v.dim|) then Some(View(v.offset, Picked(v.dim, t), Picked(v.mod, t))) else None
  }

  function Transpose2(v: View, d1: int, d2: int): Option<View>
    requires |v.dim| == |v.mod|
  {
    if d1 < 0 || d2 < 0 || d1 >= |v.dim| || d2 >= |v.dim| || d1 == d2 then None
    else Some(View(v.offset, v.dim[d1 := v.dim[d2]][d2 := v.dim[d1]], v.mod[d1 := v.mod[d2]][d2 := v.mod[d1]]))
  }

  // ---------- composed coordinates ----------

  lemma {:induction false} DotConcat(a: seq<int>, b: seq<int>, m: seq<int>, n: seq<int>)
    requires |a| == |m| && |b| == |n|
    ensures Dot(a + b, m + n) == Dot(a, m) + Dot(b, n)
  {
    if b == [] {
      assert a + b == a && m + n == m;
    } else {
      var p := |b| - 1;
      DotConcat(a, b[..p], m, n[..p]);
      assert (a + b)[..|a| + p] == a + b[..p] && (m + n)[..|a| + p] == m + n[..p];
    }
  }

  lemma DotOne(x: int, m: int)
    ensures Dot([x], [m]) == x * m
  {
    assert Dot([], []) == 0;
    assert [x][..0] == [] && [m][..0] == [];
  }

  /** One coordinate singled out. */
  lemma DotAt(c: seq<int>, m: seq<int>, d: nat)
    requires |c| == |m| && d < |c|
    ensures Dot(c, m) == Dot(c[..d], m[..d]) + c[d] * m[d] + Dot(c[d + 1..], m[d + 1..])
  {
    assert c == c[..d] + ([c[d]] + c[d + 1..]) && m == m[..d] + ([m[d]] + m[d + 1..]);
    DotConcat(c[..d], [c[d]] + c[d + 1..], m[..d], [m[d]] + m[d + 1..]);
    DotConcat([c[d]], c[d + 1..], [m[d]], m[d + 1..]);
    DotOne(c[d], m[d]);
  }

  /** Unfolding succeeds exactly when windows of size sz, st apart, cover the dimension to its end. */
  lemma UnfoldIff(v: View, d: int, sz: int, st: int)
    requires Sized(v)
    ensures Unfold(v, d, sz, st).Some? <==>
      0 <= d < |v.dim| && 1 <= sz <= v.dim[d] && st >= 1 && (v.dim[d] - sz) % st == 0 && |v.dim| + 1 < MAXDIMS
  {
    if 0 <= d < |v.dim| && sz >= 1 && st >= 1 {
      var a := v.dim[d] - sz;
      if a >= 0 {
        assert a == st * (a / st) + a % st;
      } else {
        assert -a == st * (-a / st) + -a % st;
        var q := -a / st;
        if q == 0 {
          assert st * 0 == 0;
        } else {
          MulMono(1, q, st);
        }
        assert st * -q == -(st * q);
      }
    }
  }

  /** Taking the diagonal succeeds exactly when the last d dimensions, two at least, have one size. */
  lemma DiagonalIff(v: View, d: int)
    requires Sized(v)
    ensures Diagonal(v, d).Some? <==>
      2 <= d <= |v.dim| && forall i, j :: |v.dim| - d <= i < j < |v.dim| ==> v.dim[i] == v.dim[j]
  {
    if 2 <= d <= |v.dim| {
      var m := |v.dim| - d;
      assert forall i :: m <= i < |v.dim| ==> v.dim[m..][i - m] == v.dim[i];
      if forall i, j :: m <= i < j < |v.dim| ==> v.dim[i] == v.dim[j] {
        assert AllEqual(v.dim[m..], v.dim[m]);
      }
    }
  }

  predicate Subscript(v: View, d: int, x: int)
    requires 0 <= d < |v.dim|
  {
    0 <= x < v.dim[d]
  }

  /** Narrowing succeeds exactly when the interval is not empty and lies in the dimension. */
  lemma NarrowIff(v: View, d: int, sz: int, st: int)
    requires Sized(v)
    ensures Narrow(v, d, sz, st).Some? <==>
      0 <= d < |v.dim| && sz >= 1 && forall x :: st <= x < st + sz ==> Subscript(v, d, x)
  {
    if 0 <= d < |v.dim| && sz >= 1 && forall x :: st <= x < st + sz ==> Subscript(v, d, x) {
      assert Subscript(v, d, st) && Subscript(v, d, st + sz - 1);
    }
  }

  /** Selecting succeeds exactly when some element has that coordinate there. */
  lemma SelectIff(v: View, d: int, x: int)
    requires Sized(v)
    ensures Select(v, d, x).Some? <==> 0 <= d < |v.dim| && exists c :: InRange(c, v.dim) && c[d] == x
  {
    if 0 <= d < |v.dim| && 0 <= x < v.dim[d] {
      var c := seq(|v.dim|, i => 0)[d := x];
      assert InRange(c, v.dim) && c[d] == x;
    }
  }

  /** Element (.., x, .., e) of the unfolded view is element (.., x*st + e, ..) of the base. */
  lemma UnfoldElement(v: View, d: int, sz: int, st: int, c: seq<int>)
    requires Sized(v) && Unfold(v, d, sz, st).Some? && |c| == |v.dim| + 1
    ensures var n := |v.dim|;
      var b := c[..n][d := c[d] * st + c[n]];
      && Place(Unfold(v, d, sz, st).value, c) == Place(v, b)
      && (InRange(c, Unfold(v, d, sz, st).value.dim) <==>
            InRange(b, v.dim) && c[d] >= 0 && 0 <= c[n] < sz && c[d] * st + sz <= v.dim[d])
  {
    UnfoldRange(v, d, sz, st, c);
    var n, m := |v.dim|, v.mod[d];
    UnfoldDot(c[..n], v.mod, d, st, c[n]);
    assert c == c[..n] + [c[n]];
    DotConcat(c[..n], [c[n]], v.mod[d := m * st], [m]);
    DotOne(c[n], m);
  }

  lemma UnfoldRange(v: View, d: int, sz: int, st: int, c: seq<int>)
    requires Sized(v) && Unfold(v, d, sz, st).Some? && |c| == |v.dim| + 1
    ensures var n := |v.dim|;
      InRange(c, Unfold(v, d, sz, st).value.dim) <==>
        && InRange(c[..n][d := c[d] * st + c[n]], v.dim)
        && c[d] >= 0 && 0 <= c[n] < sz && c[d] * st + sz <= v.dim[d]
  {
    var n, w := |v.dim|, Unfold(v, d, sz, st).value;
    assert |w.dim| == n + 1 && w.dim[n] == sz && forall i :: 0 <= i < n && i != d ==> w.dim[i] == v.dim[i];
    var b := c[..n][d := c[d] * st + c[n]];
    assert forall i :: 0 <= i < n && i != d ==> b[i] == c[i];
    assert v.dim[d] == st * (w.dim[d] - 1) + sz;
    if 0 <= c[d] < w.dim[d] {
      MulMono(c[d], w.dim[d] - 1, st);
      MulMono(0, c[d], st);
    } else if c[d] >= w.dim[d] {
      MulMono(w.dim[d], c[d], st);
      assert st * (w.dim[d] - 1) == st * w.dim[d] - st;
    }
  }

  lemma Spread(x: int, m: int, st: int, e: int)
    ensures x * (m * st) + e * m == (x * st + e) * m
  {
    assert (x * st + e) * m == (x * st) * m + e * m;
    assert (x * st) * m == x * (st * m) == x * (m * st);
  }

  lemma UnfoldDot(c: seq<int>, mod: seq<int>, d: nat, st: int, e: int)
    requires |c| == |mod| && d < |c|
    ensures Dot(c[d := c[d] * st + e], mod) == Dot(c, mod[d := mod[d] * st]) + e * mod[d]
  {
    hide Dot;
    var b, m, mod' := c[d := c[d] * st + e], mod[d], mod[d := mod[d] * st];
    DotAt(c, mod', d);
    DotAt(b, mod, d);
    assert b[..d] == c[..d] && b[d + 1..] == c[d + 1..];
    assert mod'[..d] == mod[..d] && mod'[d + 1..] == mod[d + 1..];
    Spread(c[d], m, st, e);
  }

  /** Element (.., x) of the diagonal is element (.., x, x, .., x) of the base. */
  lemma DiagonalElement(v: View, d: int, c: seq<int>)
    requires Sized(v) && Diagonal(v, d).Some? && |c| == |v.dim| - d + 1
    ensures var m := |v.dim| - d;
      var b := c[..m] + seq(d, i => c[m]);
      && Place(Diagonal(v, d).value, c) == Place(v, b)
      && (InRange(c, Diagonal(v, d).value.dim) <==> InRange(b, v.dim))
  {
    var m := |v.dim| - d;
    var r := seq(d, i => c[m]);
    var b := c[..m] + r;
    DiagonalRange(v.dim, m, c);
    assert c == c[..m] + [c[m]];
    DotConcat(c[..m], [c[m]], v.mod[..m], [Sum(v.mod[m..])]);
    DotOne(c[m], Sum(v.mod[m..]));
    assert v.mod == v.mod[..m] + v.mod[m..];
    DotConcat(c[..m], r, v.mod[..m], v.mod[m..]);
    DotSame(r, c[m], v.mod[m..]);
  }

  lemma DiagonalRange(dim: seq<int>, m: nat, c: seq<int>)
    requires m < |dim| && |c| == m + 1 && AllEqual(dim[m..], dim[m])
    ensures InRange(c, dim[..m + 1]) <==> InRange(c[..m] + seq(|dim| - m, i => c[m]), dim)
  {
    var b := c[..m] + seq(|dim| - m, i => c[m]);
    if InRange(c, dim[..m + 1]) {
      forall i | 0 <= i < |dim| ensures 0 <= b[i] < dim[i] {
        if i >= m {
          assert dim[m..][i - m] == dim[i] == dim[m] && 0 <= c[m] < dim[..m + 1][m];
        } else {
          assert 0 <= c[i] < dim[..m + 1][i];
        }
      }
    }
    if InRange(b, dim) {
      forall i | 0 <= i <= m ensures 0 <= c[i] < dim[..m + 1][i] {
        assert 0 <= b[i] < dim[i];
      }
    }
  }

  lemma {:induction false} DotSame(r: seq<int>, x: int, m: seq<int>)
    requires |r| == |m| && AllEqual(r, x)
    ensures Dot(r, m) == x * Sum(m)
  {
    if m != [] {
      var p := |m| - 1;
      DotSame(r[..p], x, m[..p]);
      assert x * (Sum(m[..p]) + m[p]) == x * Sum(m[..p]) + x * m[p];
    }
  }

  /** Narrowing shifts one coordinate. */
  lemma NarrowElement(v: View, d: int, sz: int, st: int, c: seq<int>)
    requires Sized(v) && Narrow(v, d, sz, st).Some? && |c| == |v.dim|
    ensures InRange(c, Narrow(v, d, sz, st).value.dim) <==> InRange(c[d := c[d] + st], v.dim) && 0 <= c[d] < sz
    ensures Place(Narrow(v, d, sz, st).value, c) == Place(v, c[d := c[d] + st])
  {
    NarrowRange(v.dim, d, sz, st, c);
    DotUpdate(c, v.mod, d, c[d] + st);
    assert (c[d] + st) * v.mod[d] == c[d] * v.mod[d] + st * v.mod[d];
  }

  lemma NarrowRange(dim: seq<int>, d: nat, sz: int, st: int, c: seq<int>)
    requires d < |dim| == |c| && st >= 0 && st + sz <= dim[d]
    ensures InRange(c, dim[d := sz]) <==> InRange(c[d := c[d] + st], dim) && 0 <= c[d] < sz
  {
    var w, b := dim[d := sz], c[d := c[d] + st];
    if InRange(b, dim) && 0 <= c[d] < sz {
      forall i | 0 <= i < |c| ensures 0 <= c[i] < w[i] {
        assert 0 <= b[i] < dim[i];
      }
    }
    if InRange(c, w) {
      forall i | 0 <= i < |c| ensures 0 <= b[i] < dim[i] {
        assert 0 <= c[i] < w[i];
      }
    }
  }

  /** Selecting fixes one coordinate. */
  lemma SelectElement(v: View, d: int, x: int, c: seq<int>)
    requires Sized(v) && Select(v, d, x).Some? && |c| == |v.dim| - 1
    ensures InRange(c, Select(v, d, x).value.dim) <==> InRange(c[..d] + [x] + c[d..], v.dim)
    ensures Place(Select(v, d, x).value, c) == Place(v, c[..d] + [x] + c[d..])
  {
    SelectRange(v.dim, d, x, c);
    SelectDot(c, v.mod, d, x);
  }

  lemma SelectRange(dim: seq<int>, d: nat, x: int, c: seq<int>)
    requires d < |dim| && |c| == |dim| - 1 && 0 <= x < dim[d]
    ensures InRange(c, dim[..d] + dim[d + 1..]) <==> InRange(c[..d] + [x] + c[d..], dim)
  {
    var w, b := dim[..d] + dim[d + 1..], c[..d] + [x] + c[d..];
    if InRange(b, dim) {
      forall i | 0 <= i < |c| ensures 0 <= c[i] < w[i] {
        var j := if i < d then i else i + 1;
        assert 0 <= b[j] < dim[j];
      }
    }
    if InRange(c, w) {
      forall j | 0 <= j < |b| ensures 0 <= b[j] < dim[j] {
        if j != d {
          var i := if j < d then j else j - 1;
          assert 0 <= c[i] < w[i];
        }
      }
    }
  }

  lemma SelectDot(c: seq<int>, mod: seq<int>, d: nat, x: int)
    requires |mod| == |c| + 1 && d <= |c|
    ensures Dot(c[..d] + [x] + c[d..], mod) == Dot(c, mod[..d] + mod[d + 1..]) + x * mod[d]
  {
    var b := c[..d] + [x] + c[d..];
    DotAt(b, mod, d);
    assert b[..d] == c[..d] && b[d + 1..] == c[d..] && c == c[..d] + c[d..];
    DotConcat(c[..d], c[d..], mod[..d], mod[d + 1..]);
  }

  /** Transposing permutes coordinates. */
  lemma TransposeElement(v: View, t: seq<int>, b: seq<int>)
    requires Sized(v) && Transpose(v, t).Some? && |b| == |v.dim|
    ensures InRange(Picked(b, t), Transpose(v, t).value.dim) <==> InRange(b, v.dim)
    ensures Place(Transpose(v, t).value, Picked(b, t)) == Place(v, b)
  {
    var n := |t|;
    Onto(t);
    PickedDot(b, v.mod, t, n);
    assert t[..n] == t && Picked(b, t)[..n] == Picked(b, t) && Picked(v.mod, t)[..n] == Picked(v.mod, t);
    AllPart(b, v.mod, n);
    assert b[..n] == b && v.mod[..n] == v.mod;
    if InRange(Picked(b, t), Picked(v.dim, t)) {
      forall i | 0 <= i < n ensures 0 <= b[i] < v.dim[i] {
        assert i in Targets(t, n);
        var k := TargetAt(t, n, i);
        assert Picked(b, t)[k] == b[i];
      }
    }
  }

  ghost function Targets(t: seq<int>, k: nat): set<int>
    requires k <= |t|
  {
    if k == 0 then {} else Targets(t, k - 1) + {t[k - 1]}
  }

  lemma {:induction false} TargetAt(t: seq<int>, k: nat, x: int) returns (i: nat)
    requires k <= |t| && x in Targets(t, k)
    ensures i < k && t[i] == x
  {
    if x == t[k - 1] {
      i := k - 1;
    } else {
      i := TargetAt(t, k - 1, x);
    }
  }

  lemma {:induction false} TargetCount(t: seq<int>, k: nat)
    requires k <= |t| && Permutation(t, |t|)
    ensures |Targets(t, k)| == k && forall x :: x in Targets(t, k) ==> 0 <= x < |t|
  {
    if k > 0 {
      TargetCount(t, k - 1);
      if t[k - 1] in Targets(t, k - 1) {
        var i := TargetAt(t, k - 1, t[k - 1]);
        assert false;
      }
    }
  }

  /** A permutation list reaches every dimension. */
  lemma Onto(t: seq<int>)
    requires Permutation(t, |t|)
    ensures forall x :: 0 <= x < |t| ==> x in Targets(t, |t|)
  {
    TargetCount(t, |t|);
    BelowSize(|t|);
    var a, b := Targets(t, |t|), Below(|t|);
    forall x | x in a ensures x in b {
    }
    assert a <= b;
    SubsetOfSize(Targets(t, |t|), Below(|t|));
  }

  ghost function Below(n: nat): set<int> { if n == 0 then {} else Below(n - 1) + {n - 1} }

  lemma {:induction false} BelowSize(n: nat)
    ensures |Below(n)| == n && forall x :: x in Below(n) <==> 0 <= x < n
  {
    if n > 0 {
      BelowSize(n - 1);
    }
  }

  /** The part of the dot product that comes from the indices of S below n. */
  ghost function Part(c: seq<int>, m: seq<int>, n: nat, S: set<int>): int
    requires |c| == |m| && n <= |c|
  {
    if n == 0 then 0 else Part(c, m, n - 1, S) + if n - 1 in S then c[n - 1] * m[n - 1] else 0
  }

  lemma {:induction false} PartMore(c: seq<int>, m: seq<int>, n: nat, S: set<int>, x: int)
    requires |c| == |m| && n <= |c| && 0 <= x < |c| && x !in S
    ensures Part(c, m, n, S + {x}) == Part(c, m, n, S) + if x < n then c[x] * m[x] else 0
  {
    if n > 0 {
      PartMore(c, m, n - 1, S, x);
    }
  }

  lemma {:induction false} PickedDot(b: seq<int>, m: seq<int>, t: seq<int>, k: nat)
    requires |b| == |m| == |t| && Permutation(t, |t|) && k <= |t|
    ensures Dot(Picked(b, t)[..k], Picked(m, t)[..k]) == Part(b, m, |b|, Targets(t, k))
  {
    if k == 0 {
      EmptyPart(b, m, |b|);
    } else {
      PickedDot(b, m, t, k - 1);
      var p, q := Picked(b, t)[..k], Picked(m, t)[..k];
      assert p[..k - 1] == Picked(b, t)[..k - 1] && q[..k - 1] == Picked(m, t)[..k - 1];
      if t[k - 1] in Targets(t, k - 1) {
        var i := TargetAt(t, k - 1, t[k - 1]);
        assert false;
      }
      PartMore(b, m, |b|, Targets(t, k - 1), t[k - 1]);
    }
  }

  lemma {:induction false} EmptyPart(c: seq<int>, m: seq<int>, n: nat)
    requires |c| == |m| && n <= |c|
    ensures Part(c, m, n, {}) == 0
  {
    if n > 0 {
      EmptyPart(c, m, n - 1);
    }
  }

  lemma {:induction false} AllPart(c: seq<int>, m: seq<int>, n: nat)
    requires |c| == |m| && n <= |c|
    ensures forall S :: (forall x :: 0 <= x < |c| ==> x in S) ==> Part(c, m, n, S) == Dot(c[..n], m[..n])
  {
    if n > 0 {
      AllPart(c, m, n - 1);
      assert c[..n][..n - 1] == c[..n - 1] && m[..n][..n - 1] == m[..n - 1];
    }
  }
}
