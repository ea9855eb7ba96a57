/** Index objects: operations in place, bounds over whole runs, copying
    (src/index.c:1661-1748, src/index.c:2649-3025, include/idxmac.h:158-221). */
module IndexOps {
  import opened Basics
  import opened IndexLoops
  import opened IndexViews

  /** Lowest and highest addressed position. */
  ghost function Low(v: View, n: nat): int
    requires n <= |v.dim| == |v.mod|
  {
    if n == 0 then v.offset else Low(v, n - 1) + if v.mod[n - 1] < 0 then (v.dim[n - 1] - 1) * v.mod[n - 1] else 0
  }

  ghost function High(v: View, n: nat): int
    requires n <= |v.dim| == |v.mod|
  {
    if n == 0 then v.offset else High(v, n - 1) + if v.mod[n - 1] < 0 then 0 else (v.dim[n - 1] - 1) * v.mod[n - 1]
  }

  /** index_check_size answers FALSE. */
  ghost predicate Fits(v: View, size: nat)
    requires |v.dim| == |v.mod|
  {
    v.offset >= 0 && Low(v, |v.dim|) >= 0 && High(v, |v.dim|) < size
  }

  /** The corner where every coordinate is extreme in the direction wanted. */
  ghost function Corner(v: View, n: nat, high: bool): (c: seq<int>)
    requires n <= |v.dim| == |v.mod|
    ensures |c| == n
  {
    if n == 0 then [] else Corner(v, n - 1, high) + [if (v.mod[n - 1] < 0) == high then 0 else v.dim[n - 1] - 1]
  }

  lemma {:induction false} CornerPlace(v: View, n: nat, high: bool)
    requires n <= |v.dim| == |v.mod| && Sizes(v.dim)
    ensures InRange(Corner(v, n, high), v.dim[..n])
    ensures v.offset + Dot(Corner(v, n, high), v.mod[..n]) == if high then High(v, n) else Low(v, n)
  {
    if n > 0 {
      CornerPlace(v, n - 1, high);
      var c := Corner(v, n, high);
      assert c[..n - 1] == Corner(v, n - 1, high) && v.mod[..n][..n - 1] == v.mod[..n - 1];
      assert forall i :: 0 <= i < n - 1 ==> v.dim[..n][i] == v.dim[..n - 1][i];
    }
  }

  lemma {:induction false} Between(v: View, n: nat, c: seq<int>)
    requires n <= |v.dim| == |v.mod| && InRange(c, v.dim[..n])
    ensures Low(v, n) <= v.offset + Dot(c, v.mod[..n]) <= High(v, n)
  {
    if n > 0 {
      assert c[..n - 1] == c[..n - 1] && v.mod[..n][..n - 1] == v.mod[..n - 1] && v.dim[..n][..n - 1] == v.dim[..n - 1];
      assert forall i :: 0 <= i < n - 1 ==> v.dim[..n - 1][i] == v.dim[..n][i];
      Between(v, n - 1, c[..n - 1]);
      var x, m := c[n - 1], v.mod[n - 1];
      assert 0 <= x <= v.dim[n - 1] - 1 by { assert v.dim[..n][n - 1] == v.dim[n - 1]; }
      if m < 0 {
        MulMono(x, v.dim[n - 1] - 1, -m);
        MulMono(0, x, -m);
        assert x * m == -(x * -m) && (v.dim[n - 1] - 1) * m == -((v.dim[n - 1] - 1) * -m);
      } else {
        MulMono(x, v.dim[n - 1] - 1, m);
        MulMono(0, x, m);
      }
    }
  }

  /** The size check is exact, for strides of either sign. */
  lemma FitsIff(v: View, size: nat)
    requires Sized(v)
    ensures Fits(v, size) <==> InBounds(v, size)
  {
    var n := |v.dim|;
    assert v.dim[..n] == v.dim && v.mod[..n] == v.mod;
    CornerPlace(v, n, true);
    CornerPlace(v, n, false);
    LowAtMostOffset(v, n);
    forall c | InRange(c, v.dim) ensures Low(v, n) <= Place(v, c) <= High(v, n) {
      Between(v, n, c);
    }
    assert InBounds(v, size) ==> 0 <= Place(v, Corner(v, n, true)) < size && 0 <= Place(v, Corner(v, n, false)) < size;
  }

  lemma {:induction false} LowAtMostOffset(v: View, n: nat)
    requires n <= |v.dim| == |v.mod| && Sizes(v.dim)
    ensures Low(v, n) <= v.offset
  {
    if n > 0 {
      LowAtMostOffset(v, n - 1);
      if v.mod[n - 1] < 0 {
        MulMono(0, v.dim[n - 1] - 1, -v.mod[n - 1]);
        assert (v.dim[n - 1] - 1) * v.mod[n - 1] == -((v.dim[n - 1] - 1) * -v.mod[n - 1]);
      }
    }
  }

  datatype Op =
    | UnfoldOp(d: int, sz: int, st: int)
    | DiagonalOp(d: int)
    | NarrowOp(d: int, sz: int, st: int)
    | SelectOp(d: int, x: int)
    | TransposeOp(t: seq<int>)
    | Transpose2Op(d1: int, d2: int)
    | DimOp(d: int, x: int)
    | ModOp(d: int, x: int)
    | OffsetOp(x: int)

  ghost function Checked(w: View, size: nat): Option<View>
    requires |w.dim| == |w.mod|
  {
    if Fits(w, size) then Some(w) else None
  }

  /** The new view, None when the operation signals an error. */
  ghost function Apply(v: View, size: nat, op: Op): Option<View>
    requires |v.dim| == |v.mod|
  {
    match op
    case UnfoldOp(d, sz, st) => Unfold(v, d, sz, st)
    case DiagonalOp(d) => Diagonal(v, d)
    case NarrowOp(d, sz, st) => Narrow(v, d, sz, st)
    case SelectOp(d, x) => Select(v, d, x)
    case TransposeOp(t) => Transpose(v, t)
    case Transpose2Op(d1, d2) => Transpose2(v, d1, d2)
    case DimOp(d, x) =>
      if d < 0 || d >= |v.dim| || x <= 0 then None else Checked(v.(dim := v.dim[d := x]), size)
    case ModOp(d, x) =>
      if d < 0 || d >= |v.dim| then None else Checked(v.(mod := v.mod[d := x]), size)
    case OffsetOp(x) => Checked(v.(offset := x), size)
  }

  /** A run: an operation that signals an error leaves the index alone. */
  ghost function Run(v: View, size: nat, ops: seq<Op>): View
    requires |v.dim| == |v.mod|
    decreases |ops|
  {
    if ops == [] then v
    else
      var w := Apply(v, size, ops[0]);
      if w.Some? && |w.value.dim| == |w.value.mod| then Run(w.value, size, ops[1..]) else Run(v, size, ops[1..])
  }

  /** Swapping two dimensions is a transposition by a permutation list. */
  function Swap(n: nat, d1: nat, d2: nat): seq<int> { seq(n, i => if i == d1 then d2 else if i == d2 then d1 else i) }

  lemma Transpose2Is(v: View, d1: int, d2: int)
    requires |v.dim| == |v.mod| && Transpose2(v, d1, d2).Some?
    ensures Transpose2(v, d1, d2) == Transpose(v, Swap(|v.dim|, d1, d2))
  {
    var t := Swap(|v.dim|, d1, d2);
    assert Permutation(t, |v.dim|);
    assert Picked(v.dim, t) == v.dim[d1 := v.dim[d2]][d2 := v.dim[d1]];
    assert Picked(v.mod, t) == v.mod[d1 := v.mod[d2]][d2 := v.mod[d1]];
  }

  /** A structural operation reads elements of the base only. */
  lemma TransposeKeeps(v: View, size: nat, t: seq<int>)
    requires Sized(v) && InBounds(v, size) && Transpose(v, t).Some?
    ensures Sized(Transpose(v, t).value) && InBounds(Transpose(v, t).value, size)
  {
    var w := Transpose(v, t).value;
    forall c | InRange(c, w.dim) ensures 0 <= Place(w, c) < size {
      var b := Unpicked(c, t);
      TransposeElement(v, t, b);
    }
  }

  /** The coordinate that a permutation list turns into c. */
  ghost function Unpicked(c: seq<int>, t: seq<int>): (b: seq<int>)
    requires Permutation(t, |c|)
    ensures |b| == |c| && Picked(b, t) == c
  {
    Onto(t);
    var b := seq(|c|, x requires 0 <= x < |c| => c[Where(t, x)]);
    assert forall i :: 0 <= i < |c| ==> Where(t, t[i]) == i;
    b
  }

  ghost function Where(t: seq<int>, x: int): (i: nat)
    requires Permutation(t, |t|) && 0 <= x < |t|
    ensures i < |t| && t[i] == x
  {
    Onto(t);
    WhereIn(t, |t|, x)
  }

  ghost function WhereIn(t: seq<int>, k: nat, x: int): (i: nat)
    requires k <= |t| && x in Targets(t, k)
    ensures i < k && t[i] == x
  {
    if t[k - 1] == x then k - 1 else WhereIn(t, k - 1, x)
  }

  lemma ApplyKeeps(v: View, size: nat, op: Op)
    requires Sized(v) && InBounds(v, size) && Apply(v, size, op).Some?
    ensures Sized(Apply(v, size, op).value) && InBounds(Apply(v, size, op).value, size)
  {
    hide InBounds;
    match op
    case UnfoldOp(d, sz, st) => UnfoldKeeps(v, size, d, sz, st);
    case DiagonalOp(d) => DiagonalKeeps(v, size, d);
    case NarrowOp(d, sz, st) => NarrowKeeps(v, size, d, sz, st);
    case SelectOp(d, x) => SelectKeeps(v, size, d, x);
    case TransposeOp(t) => TransposeKeeps(v, size, t);
    case Transpose2Op(d1, d2) =>
      Transpose2Is(v, d1, d2);
      TransposeKeeps(v, size, Swap(|v.dim|, d1, d2));
    case DimOp(d, x) => FitsIff(v.(dim := v.dim[d := x]), size);
    case ModOp(d, x) => FitsIff(v.(mod := v.mod[d := x]), size);
    case OffsetOp(x) => FitsIff(v.(offset := x), size);
  }

  lemma UnfoldKeeps(v: View, size: nat, d: int, sz: int, st: int)
    requires Sized(v) && InBounds(v, size) && Unfold(v, d, sz, st).Some?
    ensures Sized(Unfold(v, d, sz, st).value) && InBounds(Unfold(v, d, sz, st).value, size)
  {
    var w := Unfold(v, d, sz, st).value;
    forall c | InRange(c, w.dim) ensures 0 <= Place(w, c) < size {
      UnfoldElement(v, d, sz, st, c);
    }
  }

  lemma DiagonalKeeps(v: View, size: nat, d: int)
    requires Sized(v) && InBounds(v, size) && Diagonal(v, d).Some?
    ensures Sized(Diagonal(v, d).value) && InBounds(Diagonal(v, d).value, size)
  {
    var w := Diagonal(v, d).value;
    forall c | InRange(c, w.dim) ensures 0 <= Place(w, c) < size {
      DiagonalElement(v, d, c);
    }
  }

  lemma NarrowKeeps(v: View, size: nat, d: int, sz: int, st: int)
    requires Sized(v) && InBounds(v, size) && Narrow(v, d, sz, st).Some?
    ensures Sized(Narrow(v, d, sz, st).value) && InBounds(Narrow(v, d, sz, st).value, size)
  {
    var w := Narrow(v, d, sz, st).value;
    forall c | InRange(c, w.dim) ensures 0 <= Place(w, c) < size {
      NarrowElement(v, d, sz, st, c);
    }
  }

  lemma SelectKeeps(v: View, size: nat, d: int, x: int)
    requires Sized(v) && InBounds(v, size) && Select(v, d, x).Some?
    ensures Sized(Select(v, d, x).value) && InBounds(Select(v, d, x).value, size)
  {
    var w := Select(v, d, x).value;
    forall c | InRange(c, w.dim) ensures 0 <= Place(w, c) < size {
      SelectElement(v, d, x, c);
    }
  }

  /** Whatever is done to an index, it stays inside its storage. */
  lemma {:induction false} RunKeeps(v: View, size: nat, ops: seq<Op>)
    requires Sized(v) && InBounds(v, size)
    ensures Sized(Run(v, size, ops)) && InBounds(Run(v, size, ops), size)
    decreases |ops|
  {
    hide InBounds, Apply;
    if ops != [] {
      var w := Apply(v, size, ops[0]);
      if w.Some? {
        ApplyKeeps(v, size, ops[0]);
        RunKeeps(w.value, size, ops[1..]);
      } else {
        RunKeeps(v, size, ops[1..]);
      }
    }
  }
}
