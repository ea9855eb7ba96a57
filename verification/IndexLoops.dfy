/** Loops over strided index structures (include/header.h:1107-1177, src/index.c:1661-1748). */
module IndexLoops {

  ghost predicate Sizes(dim: seq<int>) { forall i :: 0 <= i < |dim| ==> dim[i] >= 1 }

  ghost predicate InRange(c: seq<int>, dim: seq<int>) {
    |c| == |dim| && forall i :: 0 <= i < |dim| ==> 0 <= c[i] < dim[i]
  }

  /** Offset of an element from the base of the index. */
  ghost function Dot(c: seq<int>, mod: seq<int>): int
    requires |c| == |mod|
  {
    if c == [] then 0 else Dot(c[..|c| - 1], mod[..|c| - 1]) + c[|c| - 1] * mod[|c| - 1]
  }

  ghost function Count(dim: seq<int>): (n: nat)
    requires Sizes(dim)
    ensures n >= 1
  {
    if dim == [] then 1 else Times(Count(dim[..|dim| - 1]), dim[|dim| - 1])
  }

  function Times(a: nat, b: int): (n: nat)
    requires a >= 1 && b >= 1
    ensures n == a * b && n >= 1
  {
    Positive(a, b);
    a * b
  }

  lemma Positive(a: int, b: int)
    requires a >= 1 && b >= 1
    ensures a * b >= 1
  {
  }

  /** The k-th coordinate in row-major order: the last one moves fastest. */
  ghost function Coord(k: nat, dim: seq<int>): (c: seq<int>)
    requires Sizes(dim)
    ensures |c| == |dim|
  {
    if dim == [] then []
    else Coord(k / dim[|dim| - 1], dim[..|dim| - 1]) + [k % dim[|dim| - 1]]
  }

  lemma {:induction false} CoordInRange(k: nat, dim: seq<int>)
    requires Sizes(dim) && k < Count(dim)
    ensures InRange(Coord(k, dim), dim)
  {
    if dim != [] {
      var m, front := dim[|dim| - 1], dim[..|dim| - 1];
      DivBelow(k, Count(front), m);
      CoordInRange(k / m, front);
      assert forall i :: 0 <= i < |front| ==> front[i] == dim[i];
    }
  }

  lemma DivBelow(k: nat, a: nat, m: int)
    requires m >= 1 && k < a * m
    ensures 0 <= k / m < a
  {
    if k / m >= a {
      MulMono(a, k / m, m);
      assert false;
    }
  }

  lemma MulMono(a: int, b: int, m: int)
    requires a <= b && m >= 0
    ensures a * m <= b * m
  {
  }

  /** Position of a coordinate in row-major order. */
  ghost function Rank(c: seq<int>, dim: seq<int>): int
    requires |c| == |dim|
  {
    if c == [] then 0 else Rank(c[..|c| - 1], dim[..|c| - 1]) * dim[|c| - 1] + c[|c| - 1]
  }

  /** Row-major order visits every coordinate once: Coord and Rank are inverse. */
  lemma {:induction false} CoordRank(c: seq<int>, dim: seq<int>)
    requires Sizes(dim) && InRange(c, dim)
    ensures 0 <= Rank(c, dim) < Count(dim) && Coord(Rank(c, dim), dim) == c
  {
    if c != [] {
      var p := |c| - 1;
      var m, r := dim[p], Rank(c[..p], dim[..p]);
      assert forall i :: 0 <= i < p ==> c[..p][i] == c[i] && dim[..p][i] == dim[i];
      CoordRank(c[..p], dim[..p]);
      DigitBounds(r, Count(dim[..p]), m, c[p]);
      assert c == c[..p] + [c[p]];
    }
  }

  lemma DigitBounds(r: int, a: nat, m: int, x: int)
    requires 0 <= r < a && 0 <= x < m
    ensures 0 <= r * m + x < a * m && (r * m + x) / m == r && (r * m + x) % m == x
  {
    MulMono(r + 1, a, m);
    MulMono(0, r, m);
    DivMod(r, m, x);
  }

  lemma DivMod(r: int, m: int, x: int)
    requires 0 <= x < m
    ensures (r * m + x) / m == r && (r * m + x) % m == x
  {
    var n := r * m + x;
    assert n == (n / m) * m + n % m;
    var d := n / m - r;
    assert d * m == x - n % m;
    if d >= 1 {
      MulMono(1, d, m);
      assert false;
    }
    if d <= -1 {
      MulMono(d, -1, m);
      assert false;
    }
  }

  lemma {:induction false} RankCoord(k: nat, dim: seq<int>)
    requires Sizes(dim) && k < Count(dim)
    ensures Rank(Coord(k, dim), dim) == k
  {
    if dim != [] {
      hide Rank, Coord;
      var p := |dim| - 1;
      var m := dim[p];
      DivBelow(k, Count(dim[..p]), m);
      RankCoord(k / m, dim[..p]);
      CoordSplits(k, dim);
      RankSplits(Coord(k / m, dim[..p]), k % m, dim);
      DivisionLaw(k, m);
    }
  }

  lemma CoordSplits(k: nat, dim: seq<int>)
    requires Sizes(dim) && dim != []
    ensures Coord(k, dim) == Coord(k / dim[|dim| - 1], dim[..|dim| - 1]) + [k % dim[|dim| - 1]]
  {
  }

  lemma RankSplits(c: seq<int>, x: int, dim: seq<int>)
    requires |c| + 1 == |dim|
    ensures Rank(c + [x], dim) == Rank(c, dim[..|c|]) * dim[|c|] + x
  {
    assert (c + [x])[..|c|] == c;
  }

  lemma DivisionLaw(k: nat, m: int)
    requires m >= 1
    ensures k / m * m + k % m == k
  {
  }

  /** c' follows c: digit p goes up by one, the digits after it roll over. */
  ghost predicate Steps(c: seq<int>, c': seq<int>, dim: seq<int>, p: nat) {
    && |c| == |c'| == |dim| && p < |dim|
    && c[p] + 1 < dim[p] && c'[p] == c[p] + 1
    && (forall i :: 0 <= i < p ==> c'[i] == c[i])
    && forall i :: p < i < |dim| ==> c[i] == dim[i] - 1 && c'[i] == 0
  }

  ghost predicate Last(c: seq<int>, dim: seq<int>) {
    |c| == |dim| && forall i :: 0 <= i < |dim| ==> c[i] == dim[i] - 1
  }

  lemma NextDigit(k: nat, m: int, a: int)
    requires m >= 1 && k < a * m
    ensures k / m < a
    ensures k % m + 1 < m ==> (k + 1) / m == k / m && (k + 1) % m == k % m + 1 && k + 1 < a * m
    ensures k % m + 1 >= m ==> k % m == m - 1 && (k + 1) / m == k / m + 1 && (k + 1) % m == 0
    ensures k % m + 1 >= m ==> (k + 1 < a * m <==> k / m + 1 < a) && (k + 1 == a * m <==> k / m + 1 == a)
  {
    var q, r := k / m, k % m;
    DivBelow(k, a, m);
    assert k == q * m + r;
    if r + 1 < m {
      DivMod(q, m, r + 1);
      MulMono(q + 1, a, m);
    } else {
      DivMod(q + 1, m, 0);
      assert k + 1 == (q + 1) * m;
      if q + 1 < a {
        MulMono(q + 2, a, m);
      }
    }
  }

  /** Counting up by one. */
  lemma {:induction false} NextCoord(k: nat, dim: seq<int>) returns (p: nat)
    requires Sizes(dim) && k < Count(dim)
    ensures k + 1 < Count(dim) ==> Steps(Coord(k, dim), Coord(k + 1, dim), dim, p)
    ensures k + 1 == Count(dim) ==> Last(Coord(k, dim), dim)
  {
    p := 0;
    if dim != [] {
      var e := |dim| - 1;
      var m, front := dim[e], dim[..e];
      NextDigit(k, m, Count(front));
      if k % m + 1 < m {
        p := e;
      } else {
        p := NextCoord(k / m, front);
      }
    }
  }

  lemma {:induction false} DotUpdate(c: seq<int>, mod: seq<int>, j: nat, v: int)
    requires |c| == |mod| && j < |c|
    ensures Dot(c[j := v], mod) == Dot(c, mod) + v * mod[j] - c[j] * mod[j]
  {
    var p := |c| - 1;
    if j < p {
      DotUpdate(c[..p], mod[..p], j, v);
      assert c[j := v][..p] == c[..p][j := v];
    } else {
      assert c[j := v][..p] == c[..p];
    }
  }

  lemma {:induction false} FirstCoord(dim: seq<int>, mod: seq<int>)
    requires Sizes(dim) && |mod| == |dim|
    ensures Coord(0, dim) == seq(|dim|, i => 0) && Dot(Coord(0, dim), mod) == 0
  {
    if dim != [] {
      var p := |dim| - 1;
      assert 0 / dim[p] == 0 && 0 % dim[p] == 0;
      FirstCoord(dim[..p], mod[..p]);
      assert Coord(0, dim)[..p] == Coord(0, dim[..p]);
    }
  }

  /** The digits while a loop end rolls left to the digit that can go up, then sweeps right. */
  ghost predicate Rolling(d: seq<int>, j: int, c: seq<int>, next: seq<int>, more: bool, p: int, right: bool) {
    && |d| == |c| == |next| && -1 <= j <= |c|
    && (if right then more && p < j else j < |c| && (more ==> p <= j))
    && (forall i :: 0 <= i < |c| && i < j ==> d[i] == if right then next[i] else c[i])
    && (!right && j >= 0 ==> d[j] == c[j])
    && forall i :: 0 <= i < |c| && (if right then i >= j else i > j) ==> d[i] == -1
  }

  /** What the next coordinate is, if there is one. */
  ghost predicate Turn(c: seq<int>, next: seq<int>, more: bool, p: nat, dim: seq<int>) {
    && Sizes(dim) && |c| == |next| == |dim|
    && if more then Steps(c, next, dim, p) else Last(c, dim)
  }

  lemma StepUp(d: seq<int>, j: nat, c: seq<int>, next: seq<int>, more: bool, p: nat, right: bool, dim: seq<int>)
    requires Turn(c, next, more, p, dim) && Rolling(d, j, c, next, more, p, right) && j < |dim| && d[j] + 1 < dim[j]
    ensures Rolling(d[j := d[j] + 1], j + 1, c, next, more, p, true)
  {
  }

  lemma StepOver(d: seq<int>, j: nat, c: seq<int>, next: seq<int>, more: bool, p: nat, right: bool, dim: seq<int>)
    requires Turn(c, next, more, p, dim) && Rolling(d, j, c, next, more, p, right) && j < |dim| && d[j] + 1 >= dim[j]
    ensures !right && d[j] + 1 == dim[j] && Rolling(d[j := -1], j - 1, c, next, more, p, false)
  {
  }

  lemma RollStart(c: seq<int>, next: seq<int>, more: bool, p: nat, dim: seq<int>)
    requires Turn(c, next, more, p, dim)
    ensures Rolling(c, |dim| - 1, c, next, more, p, false)
  {
  }

  lemma RollEnd(d: seq<int>, j: int, c: seq<int>, next: seq<int>, more: bool, p: nat, right: bool)
    requires Rolling(d, j, c, next, more, p, right) && (j < 0 || j >= |c|)
    ensures j >= 0 <==> more
    ensures more ==> d == next
  {
  }

  /** The end of a loop body: steps the digits, moves ptr along, says whether to go on. */
  method Advance(dim: seq<int>, mod: seq<int>, d: array<int>, ptr0: int, ghost k: nat) returns (ptr: int, more: bool)
    requires Sizes(dim) && |mod| == |dim| == d.Length && k < Count(dim)
    requires d[..] == Coord(k, dim) && ptr0 == Dot(Coord(k, dim), mod)
    modifies d
    ensures more <==> k + 1 < Count(dim)
    ensures more ==> d[..] == Coord(k + 1, dim) && ptr == Dot(Coord(k + 1, dim), mod)
  {
    hide Rolling, Turn, Coord, Count, Dot;
    ghost var c, goes := Coord(k, dim), k + 1 < Count(dim);
    ghost var next := if goes then Coord(k + 1, dim) else c;
    ghost var p := FindTurn(k, dim);
    ghost var right := false;
    RollStart(c, next, goes, p, dim);
    ptr := ptr0;
    var j := |dim| - 1;
    while j < |dim|
      invariant -1 <= j <= |dim|
      invariant Rolling(d[..], j, c, next, goes, p, right) && ptr == Dot(d[..], mod)
      decreases !right, if right then |dim| - j else j + 1
    {
      if j < 0 {
        break;
      }
      ghost var d0 := d[..];
      d[j] := d[j] + 1;
      if d[j] < dim[j] {
        StepUp(d0, j, c, next, goes, p, right, dim);
        DotUpdate(d0, mod, j, d0[j] + 1);
        assert d[..] == d0[j := d0[j] + 1];
        MulStep(d0[j], mod[j]);
        ptr := ptr + mod[j];
        right := true;
        j := j + 1;
      } else {
        StepOver(d0, j, c, next, goes, p, right, dim);
        DotUpdate(d0, mod, j, -1);
        MulStep(d0[j], mod[j]);
        ptr := ptr - dim[j] * mod[j];
        d[j] := -1;
        assert d[..] == d0[j := -1];
        j := j - 1;
      }
    }
    RollEnd(d[..], j, c, next, goes, p, right);
    more := j >= 0;
  }

  lemma MulStep(x: int, m: int)
    ensures (x + 1) * m == x * m + m && (-1) * m == -m
  {
  }

  lemma FindTurn(k: nat, dim: seq<int>) returns (p: nat)
    requires Sizes(dim) && k < Count(dim)
    ensures var more := k + 1 < Count(dim);
      Turn(Coord(k, dim), if more then Coord(k + 1, dim) else Coord(k, dim), more, p, dim)
  {
    p := NextCoord(k, dim);
  }

  /** idx_aloop1: the offsets its body is given, one after the other. */
  method Loop1(dim: seq<int>, mod: seq<int>) returns (visits: seq<int>)
    requires Sizes(dim) && |mod| == |dim|
    ensures |visits| == Count(dim)
    ensures forall k :: 0 <= k < |visits| ==> visits[k] == Dot(Coord(k, dim), mod)
  {
    hide Dot, Coord, Count;
    var d := new int[|dim|](i => 0);
    var ptr, more := 0, true;
    visits := [];
    FirstCoord(dim, mod);
    assert d[..] == seq(|dim|, i => 0);
    while more
      invariant |visits| <= Count(dim) && (more <==> |visits| < Count(dim))
      invariant more ==> d[..] == Coord(|visits|, dim) && ptr == Dot(Coord(|visits|, dim), mod)
      invariant forall k :: 0 <= k < |visits| ==> visits[k] == Dot(Coord(k, dim), mod)
      decreases Count(dim) - |visits|
    {
      visits := visits + [ptr];
      ptr, more := Advance(dim, mod, d, ptr, |visits| - 1);
    }
  }

  /** idx_aloop2: two indexes side by side, each with its own digits. */
  method Loop2(dim1: seq<int>, mod1: seq<int>, dim2: seq<int>, mod2: seq<int>) returns (visits: seq<(int, int)>)
    requires Sizes(dim1) && |mod1| == |dim1| && Sizes(dim2) && |mod2| == |dim2|
    ensures |visits| == if Count(dim1) <= Count(dim2) then Count(dim1) else Count(dim2)
    ensures forall k :: 0 <= k < |visits| ==>
      visits[k] == (Dot(Coord(k, dim1), mod1), Dot(Coord(k, dim2), mod2))
  {
    hide Dot, Coord, Count;
    var d1, d2 := new int[|dim1|](i => 0), new int[|dim2|](i => 0);
    var ptr1, ptr2, more1, more2 := 0, 0, true, true;
    visits := [];
    FirstCoord(dim1, mod1);
    FirstCoord(dim2, mod2);
    assert d1[..] == seq(|dim1|, i => 0) && d2[..] == seq(|dim2|, i => 0);
    while more1 && more2
      invariant |visits| <= Count(dim1) && |visits| <= Count(dim2)
      invariant (more1 <==> |visits| < Count(dim1)) && (more2 <==> |visits| < Count(dim2))
      invariant more1 ==> d1[..] == Coord(|visits|, dim1) && ptr1 == Dot(Coord(|visits|, dim1), mod1)
      invariant more2 ==> d2[..] == Coord(|visits|, dim2) && ptr2 == Dot(Coord(|visits|, dim2), mod2)
      invariant forall k :: 0 <= k < |visits| ==> visits[k] == (Dot(Coord(k, dim1), mod1), Dot(Coord(k, dim2), mod2))
      decreases Count(dim1) - |visits|
    {
      visits := visits + [(ptr1, ptr2)];
      ptr1, more1 := Advance(dim1, mod1, d1, ptr1, |visits| - 1);
      ptr2, more2 := Advance(dim2, mod2, d2, ptr2, |visits| - 1);
    }
  }
}
