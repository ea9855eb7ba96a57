/** Index objects changed in place by the interpreter and by compiled code, and the copy of
    one index into another (src/index.c:1661-1748, src/index.c:2649-3025, include/idxmac.h:158-221). */
module IndexObject {
  import opened Basics
  import opened IndexLoops
  import opened IndexViews
  import opened IndexOps

  class Index {
    const size: nat               // of the storage
    var offset: int
    var ndim: nat
    const dim: array<int>
    const mod: array<int>

    ghost predicate Valid()
      reads this, dim, mod
    {
      dim.Length == mod.Length == MAXDIMS && ndim <= MAXDIMS && dim != mod
    }

    ghost function Value(): View
      requires Valid()
      reads this, dim, mod
    {
      View(offset, dim[..ndim], mod[..ndim])
    }

    /** True when the operation went through, and then the view is w. */
    twostate predicate Became(w: Option<View>, ok: bool)
      requires old(Valid())
      reads this, dim, mod
    {
      Valid() && (ok <==> w.Some?) && Value() == if w.Some? then w.value else old(Value())
    }

    constructor (size: nat, v: View)
      requires Sized(v)
      ensures Valid() && Value() == v && this.size == size && fresh(dim) && fresh(mod)
    {
      this.size, offset, ndim := size, v.offset, |v.dim|;
      dim := new int[MAXDIMS](i requires 0 <= i < MAXDIMS => if i < |v.dim| then v.dim[i] else 0);
      mod := new int[MAXDIMS](i requires 0 <= i < MAXDIMS => if i < |v.mod| then v.mod[i] else 0);
      new;
      assert dim[..ndim] == v.dim && mod[..ndim] == v.mod;
    }

    method UnfoldIn(d: int, sz: int, st: int) returns (ok: bool)
      requires Valid()
      modifies this, dim, mod
      ensures Became(Unfold(old(Value()), d, sz, st), ok)
    {
      if d < 0 || d >= ndim || sz < 1 || st < 1 {
        return false;
      }
      var s := 1 + TruncDiv(dim[d] - sz, st);
      if s <= 0 || dim[d] != st * (s - 1) + sz {
        return false;
      }
      var n := ndim;
      if n + 1 >= MAXDIMS {
        return false;
      }
      ndim := n + 1;
      dim[n] := sz;
      mod[n] := mod[d];
      dim[d] := s;
      mod[d] := mod[d] * st;
      return true;
    }

    method DiagonalIn(d: int) returns (ok: bool)
      requires Valid()
      modifies this, mod
      ensures Became(Diagonal(old(Value()), d), ok)
    {
      if d < 2 || d > ndim {
        return false;
      }
      var m := ndim - d;
      assert Value().dim[m..] == dim[m..m + d] && Value().mod[m..] == mod[m..m + d];
      var same := SameFrom(m, d);
      if !same {
        return false;
      }
      var n := SumOf(m, d);
      ndim := m + 1;
      mod[m] := n;
      return true;
    }

    method SameFrom(m: nat, d: nat) returns (same: bool)
      requires Valid() && d >= 1 && m + d <= ndim
      ensures same <==> AllEqual(dim[m..m + d], dim[m])
    {
      var i := 1;
      while i < d
        invariant 1 <= i <= d && forall k :: m <= k < m + i ==> dim[k] == dim[m]
      {
        if dim[m + i] != dim[m] {
          assert dim[m..m + d][i] == dim[m + i];
          return false;
        }
        i := i + 1;
      }
      return true;
    }

    /** Sum of d strides from the m-th on. */
    method SumOf(m: nat, d: nat) returns (n: int)
      requires Valid() && d >= 1 && m + d <= ndim
      ensures n == Sum(mod[m..m + d])
    {
      n := mod[m];
      var i := 1;
      assert mod[m..m + 1][..0] == [];
      while i < d
        invariant 1 <= i <= d && n == Sum(mod[m..m + i])
      {
        n := n + mod[m + i];
        assert mod[m..m + i + 1][..i] == mod[m..m + i];
        i := i + 1;
      }
    }

    method NarrowIn(d: int, sz: int, st: int) returns (ok: bool)
      requires Valid()
      modifies this, dim
      ensures Became(Narrow(old(Value()), d, sz, st), ok)
    {
      if d < 0 || d >= ndim || sz < 1 || st < 0 {
        return false;
      }
      if st + sz > dim[d] {
        return false;
      }
      dim[d] := sz;
      offset := offset + st * mod[d];
      return true;
    }

    method SelectIn(d: int, x: int) returns (ok: bool)
      requires Valid()
      modifies this, dim, mod
      ensures Became(Select(old(Value()), d, x), ok)
    {
      if d < 0 || d >= ndim || x < 0 {
        return false;
      }
      if x >= dim[d] {
        return false;
      }
      ghost var v := Value();
      assert v.dim[..d] + v.dim[d + 1..] == dim[..d] + dim[d + 1..ndim];
      assert v.mod[..d] + v.mod[d + 1..] == mod[..d] + mod[d + 1..ndim];
      offset := offset + x * mod[d];
      ndim := ndim - 1;
      CloseGap(d);
      return true;
    }

    /** Moves the dimensions after the d-th one place down. */
    method CloseGap(d0: nat)
      requires Valid() && d0 <= ndim < MAXDIMS
      modifies dim, mod
      ensures dim[..ndim] == old(dim[..d0] + dim[d0 + 1..ndim + 1])
      ensures mod[..ndim] == old(mod[..d0] + mod[d0 + 1..ndim + 1])
    {
      var d := d0;
      while d < ndim
        invariant d0 <= d <= ndim
        invariant forall k :: 0 <= k < MAXDIMS && (k < d0 || k >= d) ==> dim[k] == old(dim[k]) && mod[k] == old(mod[k])
        invariant forall k :: d0 <= k < d ==> dim[k] == old(dim[k + 1]) && mod[k] == old(mod[k + 1])
      {
        dim[d] := dim[d + 1];
        mod[d] := mod[d + 1];
        d := d + 1;
      }
      ghost var ds, ms := old(dim[..d0] + dim[d0 + 1..ndim + 1]), old(mod[..d0] + mod[d0 + 1..ndim + 1]);
      assert |ds| == |ms| == ndim;
      assert forall k :: 0 <= k < ndim ==> dim[..ndim][k] == ds[k];
      assert forall k :: 0 <= k < ndim ==> mod[..ndim][k] == ms[k];
    }

    method TransposeIn(table: seq<int>) returns (ok: bool)
      requires Valid() && |table| <= MAXDIMS
      modifies dim, mod
      ensures Became(Transpose(old(Value()), table), ok)
    {
      var nd := |table|;
      if nd != ndim {
        return false;
      }
      ok := IsPermutation(table);
      if ok {
        Permute(dim, table);
        Permute(mod, table);
      }
    }

    method Transpose2In(d1: int, d2: int) returns (ok: bool)
      requires Valid()
      modifies dim, mod
      ensures Became(Transpose2(old(Value()), d1, d2), ok)
    {
      if d1 < 0 || d2 < 0 || d1 >= ndim || d2 >= ndim || d1 == d2 {
        return false;
      }
      var tmp := dim[d1];
      dim[d1] := dim[d2];
      dim[d2] := tmp;
      tmp := mod[d1];
      mod[d1] := mod[d2];
      mod[d2] := tmp;
      return true;
    }

    /** index_check_size: true when the index is larger than its storage. */
    method CheckSize() returns (bad: bool)
      requires Valid()
      ensures bad <==> !Fits(Value(), size)
    {
      var low, high := offset, offset;
      if low < 0 {
        return true;
      }
      var j := 0;
      while j < ndim
        invariant 0 <= j <= ndim && low == Low(Value(), j) && high == High(Value(), j)
      {
        if mod[j] < 0 {
          low := low + (dim[j] - 1) * mod[j];
        } else {
          high := high + (dim[j] - 1) * mod[j];
        }
        j := j + 1;
      }
      return !(low >= 0 && high < size);
    }

    /** A patched dimension is put back when the index no longer fits. */
    method ChangeDim(d: int, x: int) returns (ok: bool)
      requires Valid()
      modifies dim
      ensures Became(Apply(old(Value()), size, DimOp(d, x)), ok)
    {
      if d < 0 || d >= ndim || x <= 0 {
        return false;
      }
      var before := dim[d];
      dim[d] := x;
      assert Value() == old(Value()).(dim := old(Value()).dim[d := x]);
      var bad := CheckSize();
      if bad {
        dim[d] := before;
        assert Value() == old(Value());
        return false;
      }
      return true;
    }

    method ChangeMod(d: int, x: int) returns (ok: bool)
      requires Valid()
      modifies mod
      ensures Became(Apply(old(Value()), size, ModOp(d, x)), ok)
    {
      if d < 0 || d >= ndim {
        return false;
      }
      var before := mod[d];
      mod[d] := x;
      assert Value() == old(Value()).(mod := old(Value()).mod[d := x]);
      var bad := CheckSize();
      if bad {
        mod[d] := before;
        assert Value() == old(Value());
        return false;
      }
      return true;
    }

    method ChangeOffset(x: int) returns (ok: bool)
      requires Valid()
      modifies this
      ensures Became(Apply(old(Value()), size, OffsetOp(x)), ok)
    {
      var before := offset;
      offset := x;
      var bad := CheckSize();
      if bad {
        offset := before;
        return false;
      }
      return true;
    }

    // The compiled twins check nothing: they agree with the interpreter wherever it accepts.

    method MidxUnfold(d: nat, sz: int, st: int)
      requires Valid() && Unfold(Value(), d, sz, st).Some?
      modifies this, dim, mod
      ensures Became(Unfold(old(Value()), d, sz, st), true)
    {
      var nd := ndim;
      ndim := ndim + 1;
      mod[nd] := mod[d];
      dim[nd] := sz;
      mod[d] := mod[d] * st;
      dim[d] := 1 + TruncDiv(dim[d] - sz, st);
    }

    method MidxDiagonal(d: nat)
      requires Valid() && Diagonal(Value(), d).Some?
      modifies this, mod
      ensures Became(Diagonal(old(Value()), d), true)
    {
      var m, n := 0, ndim - d;
      ghost var n0 := n;
      assert Value().mod[n0..] == mod[n0..ndim];
      while n < ndim
        invariant n0 <= n <= ndim && m == Sum(mod[n0..n])
      {
        assert mod[n0..n + 1][..n - n0] == mod[n0..n];
        m := m + mod[n];
        n := n + 1;
      }
      n := ndim - d;
      mod[n] := m;
      ndim := n + 1;
    }

    method MidxNarrow(d: nat, sz: int, st: int)
      requires Valid() && Narrow(Value(), d, sz, st).Some?
      modifies this, dim
      ensures Became(Narrow(old(Value()), d, sz, st), true)
    {
      dim[d] := sz;
      offset := offset + st * mod[d];
    }

    /** Writes a slice of this index into another one, or into itself. */
    method MidxSelect(to: Index, dd: nat, nn: int)
      requires Valid() && to.Valid() && Select(Value(), dd, nn).Some?
      requires to == this || {to.dim, to.mod} !! {dim, mod}
      modifies to, to.dim, to.mod
      ensures to.Valid() && to.Value() == Select(old(Value()), dd, nn).value
      ensures to != this ==> Value() == old(Value())
    {
      var temp := ndim - 1;
      to.offset := offset + nn * mod[dd];
      to.ndim := temp;
      CopyAround(dim, to.dim, dd, temp);
      CopyAround(mod, to.mod, dd, temp);
    }

    method MidxTranspose(table: seq<int>)
      requires Valid() && Transpose(Value(), table).Some?
      modifies dim, mod
      ensures Became(Transpose(old(Value()), table), true)
    {
      Permute(dim, table);
      Permute(mod, table);
    }
  }

  /** Copies the first n + 1 entries except the d-th one. */
  method CopyAround(a: array<int>, b: array<int>, d: nat, n: nat)
    requires d <= n < a.Length && n < b.Length
    modifies b
    ensures b[..n] == old(a[..d]) + old(a[d + 1..n + 1])
  {
    ghost var was := a[..];
    var j := 0;
    while j < d
      invariant 0 <= j <= d && (forall k :: 0 <= k < j ==> b[k] == was[k])
      invariant forall k :: j <= k < a.Length ==> a[k] == was[k]
    {
      b[j] := a[j];
      j := j + 1;
    }
    j := d;
    while j < n
      invariant d <= j <= n && (forall k :: 0 <= k < d ==> b[k] == was[k])
      invariant forall k :: d <= k < j ==> b[k] == was[k + 1]
      invariant forall k :: j <= k < a.Length ==> a[k] == was[k]
    {
      b[j] := a[j + 1];
      j := j + 1;
    }
    assert b[..n] == was[..d] + was[d + 1..n + 1];
  }

  /** The check of a permutation list: each dimension is marked when met. */
  method IsPermutation(table: seq<int>) returns (ok: bool)
    ensures ok <==> Permutation(table, |table|)
  {
    var tmp := new bool[|table|](i => false);
    var i := 0;
    while i < |table|
      invariant 0 <= i <= |table|
      invariant forall k :: 0 <= k < i ==> 0 <= table[k] < |table| && tmp[table[k]]
      invariant forall k :: 0 <= k < |table| && tmp[k] ==> k in table[..i]
      invariant forall j, k :: 0 <= j < k < i ==> table[j] != table[k]
    {
      if table[i] < 0 || table[i] >= |table| || tmp[table[i]] {
        if 0 <= table[i] < |table| {
          var k :| 0 <= k < i && table[..i][k] == table[i];
        }
        return false;
      }
      tmp[table[i]] := true;
      assert table[..i + 1] == table[..i] + [table[i]];
      i := i + 1;
    }
    return true;
  }

  /** Permutes the first entries of an array through a copy. */
  method Permute(a: array<int>, table: seq<int>)
    requires |table| <= a.Length && Permutation(table, |table|)
    modifies a
    ensures a[..|table|] == Picked(old(a[..|table|]), table)
    ensures a[|table|..] == old(a[|table|..])
  {
    var tmp := new int[|table|](i => 0);
    var i := 0;
    while i < |table|
      invariant 0 <= i <= |table| && tmp[..i] == a[..i] && a[..] == old(a[..])
      modifies tmp
    {
      tmp[i] := a[i];
      i := i + 1;
    }
    i := 0;
    while i < |table|
      invariant 0 <= i <= |table| && tmp[..] == old(a[..|table|]) && a[|table|..] == old(a[|table|..])
      invariant forall k :: 0 <= k < i ==> a[k] == old(a[..|table|])[table[k]]
    {
      a[i] := tmp[table[i]];
      i := i + 1;
    }
  }
}
