/** Copying the elements of one index into another (src/index.c:1661-1748). */
module IndexCopy {
  import opened IndexLoops
  import opened IndexViews

  /** Position of the k-th element in row-major order. */
  ghost function Nth(v: View, k: nat): int
    requires Sized(v)
  {
    Place(v, Coord(k, v.dim))
  }

  lemma NthInside(v: View, size: nat, k: nat)
    requires Sized(v) && InBounds(v, size) && k < Count(v.dim)
    ensures 0 <= Nth(v, k) < size
  {
    CoordInRange(k, v.dim);
  }

  ghost predicate Inside(v: View, size: nat) { Sized(v) && InBounds(v, size) }

  /** The first k elements copied, in order. */
  ghost function Copied<T>(src: seq<T>, dst: seq<T>, v1: View, v2: View, k: nat): (r: seq<T>)
    requires Inside(v1, |src|) && Inside(v2, |dst|) && k <= Count(v1.dim) && k <= Count(v2.dim)
    ensures |r| == |dst|
  {
    if k == 0 then dst
    else
      NthInside(v1, |src|, k - 1);
      NthInside(v2, |dst|, k - 1);
      Copied(src, dst, v1, v2, k - 1)[Nth(v2, k - 1) := src[Nth(v1, k - 1)]]
  }

  /** The last of the first n elements that goes to place a, -1 for none. */
  ghost function Sender(v: View, n: nat, a: int): (k: int)
    requires Sized(v)
    ensures -1 <= k < n && (k >= 0 ==> Nth(v, k) == a) && forall j: nat :: k < j < n ==> Nth(v, j) != a
  {
    if n == 0 then -1 else if Nth(v, n - 1) == a then n - 1 else Sender(v, n - 1, a)
  }

  /** Each place holds the element last sent there, or what it held. */
  lemma {:induction false} CopiedAt<T>(src: seq<T>, dst: seq<T>, v1: View, v2: View, n: nat, a: nat)
    requires Inside(v1, |src|) && Inside(v2, |dst|) && n <= Count(v1.dim) && n <= Count(v2.dim) && a < |dst|
    ensures var k := Sender(v2, n, a);
      if k < 0 then Copied(src, dst, v1, v2, n)[a] == dst[a]
      else 0 <= Nth(v1, k) < |src| && Copied(src, dst, v1, v2, n)[a] == src[Nth(v1, k)]
  {
    hide Nth, Count, InBounds, Sizes;
    if n > 0 {
      CopiedAt(src, dst, v1, v2, n - 1, a);
      CopiedStep(src, dst, v1, v2, n - 1);
    }
  }

  lemma CopiedStep<T>(src: seq<T>, dst: seq<T>, v1: View, v2: View, n: nat)
    requires Inside(v1, |src|) && Inside(v2, |dst|) && n < Count(v1.dim) && n < Count(v2.dim)
    ensures 0 <= Nth(v1, n) < |src| && 0 <= Nth(v2, n) < |dst|
    ensures Copied(src, dst, v1, v2, n + 1) == Copied(src, dst, v1, v2, n)[Nth(v2, n) := src[Nth(v1, n)]]
  {
    NthInside(v1, |src|, n);
    NthInside(v2, |dst|, n);
  }

  lemma OnlySender(v: View, n: nat, k: nat)
    requires Sized(v) && k < n && forall i: nat, j: nat :: i < j < n ==> Nth(v, i) != Nth(v, j)
    ensures Sender(v, n, Nth(v, k)) == k
  {
    hide Nth;
  }

  /** When no two coordinates of the target share a place, element k lands at place k. */
  lemma CopiedAll<T>(src: seq<T>, dst: seq<T>, v1: View, v2: View, k: nat)
    requires Inside(v1, |src|) && Inside(v2, |dst|) && k < Count(v1.dim) == Count(v2.dim)
    requires forall i: nat, j: nat :: i < j < Count(v2.dim) ==> Nth(v2, i) != Nth(v2, j)
    ensures 0 <= Nth(v1, k) < |src| && 0 <= Nth(v2, k) < |dst|
    ensures Copied(src, dst, v1, v2, Count(v2.dim))[Nth(v2, k)] == src[Nth(v1, k)]
  {
    hide Nth, Count, InBounds, Sizes, Copied;
    NthInside(v1, |src|, k);
    NthInside(v2, |dst|, k);
    CopiedAt(src, dst, v1, v2, Count(v2.dim), Nth(v2, k));
    OnlySender(v2, Count(v2.dim), k);
  }

  // ------------------------------------------------- inside one storage

  /** The first k elements copied, in order, when both indexes share one storage. */
  ghost function Moved<T>(a: seq<T>, v1: View, v2: View, k: nat): (r: seq<T>)
    requires Inside(v1, |a|) && Inside(v2, |a|) && k <= Count(v1.dim) && k <= Count(v2.dim)
    ensures |r| == |a|
  {
    if k == 0 then a
    else
      NthInside(v1, |a|, k - 1);
      NthInside(v2, |a|, k - 1);
      var r := Moved(a, v1, v2, k - 1);
      r[Nth(v2, k - 1) := r[Nth(v1, k - 1)]]
  }

  /** No place is changed before it is read. */
  ghost predicate Undisturbed(v1: View, v2: View, n: nat)
    requires Sized(v1) && Sized(v2)
  {
    forall j: nat, k: nat :: j < k < n && Nth(v2, j) == Nth(v1, k) ==> Nth(v1, j) == Nth(v1, k)
  }

  /** No place is both read and written. */
  ghost predicate Apart(v1: View, v2: View)
    requires Sized(v1) && Sized(v2)
  {
    forall j: nat, k: nat :: j < Count(v2.dim) && k < Count(v1.dim) ==> Nth(v2, j) != Nth(v1, k)
  }

  lemma ApartUndisturbed(v1: View, v2: View)
    requires Sized(v1) && Sized(v2) && Apart(v1, v2) && Count(v1.dim) == Count(v2.dim)
    ensures Undisturbed(v1, v2, Count(v2.dim))
  {
    hide Nth, Count;
  }

  lemma MovedStep<T>(a: seq<T>, v1: View, v2: View, n: nat)
    requires Inside(v1, |a|) && Inside(v2, |a|) && n < Count(v1.dim) && n < Count(v2.dim)
    ensures 0 <= Nth(v1, n) < |a| && 0 <= Nth(v2, n) < |a|
    ensures Moved(a, v1, v2, n + 1) == Moved(a, v1, v2, n)[Nth(v2, n) := Moved(a, v1, v2, n)[Nth(v1, n)]]
  {
    NthInside(v1, |a|, n);
    NthInside(v2, |a|, n);
  }

  lemma {:induction false} MovedIsCopied<T>(a: seq<T>, v1: View, v2: View, n: nat)
    requires Inside(v1, |a|) && Inside(v2, |a|) && n <= Count(v1.dim) && n <= Count(v2.dim)
    requires Undisturbed(v1, v2, n)
    ensures Moved(a, v1, v2, n) == Copied(a, a, v1, v2, n)
  {
    hide Nth, Count, InBounds, Sizes;
    if n > 0 {
      MovedIsCopied(a, v1, v2, n - 1);
      MovedStep(a, v1, v2, n - 1);
      CopiedStep(a, a, v1, v2, n - 1);
      CopiedAt(a, a, v1, v2, n - 1, Nth(v1, n - 1));
    }
  }

  /** A place that is not written again keeps what it has. */
  lemma {:induction false} MovedStays<T>(a: seq<T>, v1: View, v2: View, k: nat, n: nat, p: nat)
    requires Inside(v1, |a|) && Inside(v2, |a|) && k <= n <= Count(v1.dim) && n <= Count(v2.dim) && p < |a|
    requires forall i: nat :: k <= i < n ==> Nth(v2, i) != p
    ensures Moved(a, v1, v2, n)[p] == Moved(a, v1, v2, k)[p]
    decreases n - k
  {
    hide Nth, Count, InBounds, Sizes, Moved;
    if k < n {
      MovedStays(a, v1, v2, k, n - 1, p);
      MovedStep(a, v1, v2, n - 1);
    }
  }

  /** For targets that share no place, copying inside one storage does what copying
      from a separate one does, whatever is stored there, exactly when no place is
      changed before it is read. */
  lemma SharedIff(v1: View, v2: View, size: nat)
    requires Inside(v1, size) && Inside(v2, size) && Count(v1.dim) == Count(v2.dim)
    requires forall i: nat, j: nat :: i < j < Count(v2.dim) ==> Nth(v2, i) != Nth(v2, j)
    ensures Undisturbed(v1, v2, Count(v2.dim)) <==>
      forall a: seq<int> :: |a| == size ==> Moved(a, v1, v2, Count(v2.dim)) == Copied(a, a, v1, v2, Count(v2.dim))
  {
    hide Nth, Count, InBounds, Sizes, Moved, Copied, Undisturbed;
    var n := Count(v2.dim);
    if Undisturbed(v1, v2, n) {
      forall a: seq<int> | |a| == size ensures Moved(a, v1, v2, n) == Copied(a, a, v1, v2, n) {
        MovedIsCopied(a, v1, v2, n);
      }
    }
    var a := seq(size, i => i);
    if Moved(a, v1, v2, n) == Copied(a, a, v1, v2, n) {
      NothingDisturbed(a, v1, v2, n);
    }
  }

  lemma {:induction false} NothingDisturbed(a: seq<int>, v1: View, v2: View, n: nat)
    requires Inside(v1, |a|) && Inside(v2, |a|) && n <= Count(v1.dim) == Count(v2.dim)
    requires forall i :: 0 <= i < |a| ==> a[i] == i
    requires forall i: nat, j: nat :: i < j < Count(v2.dim) ==> Nth(v2, i) != Nth(v2, j)
    requires Moved(a, v1, v2, Count(v2.dim)) == Copied(a, a, v1, v2, Count(v2.dim))
    ensures Undisturbed(v1, v2, n)
  {
    hide Nth, Count, InBounds, Sizes, Moved, Copied;
    if n > 0 {
      var k, all := n - 1, Count(v2.dim);
      NothingDisturbed(a, v1, v2, k);
      MovedIsCopied(a, v1, v2, k);
      MovedStep(a, v1, v2, k);
      CopiedAll(a, a, v1, v2, k);
      MovedStays(a, v1, v2, k + 1, all, Nth(v2, k));
      forall j: nat | j < k && Nth(v2, j) == Nth(v1, k) ensures Nth(v1, j) == Nth(v1, k) {
        CopiedAt(a, a, v1, v2, k, Nth(v1, k));
        OnlySender(v2, k, j);
      }
    }
  }

  /** The place whose first contents step k sends, when copying inside one storage: what
      stands at its source may have been sent there before. */
  ghost function Source(v1: View, v2: View, k: nat): int
    requires Sized(v1) && Sized(v2)
    decreases k
  {
    var j := Sender(v2, k, Nth(v1, k));
    if j < 0 then Nth(v1, k) else Source(v1, v2, j)
  }

  lemma {:induction false} SourceInside(v1: View, v2: View, size: nat, k: nat)
    requires Inside(v1, size) && Sized(v2) && k < Count(v1.dim)
    ensures 0 <= Source(v1, v2, k) < size
    decreases k
  {
    hide Nth, InBounds, Sizes;
    NthInside(v1, size, k);
    var j := Sender(v2, k, Nth(v1, k));
    if j >= 0 {
      SourceInside(v1, v2, size, j);
    }
  }

  /** Each place holds what the last element sent there came from, or what it held. */
  lemma {:induction false} MovedAt<T>(a: seq<T>, v1: View, v2: View, n: nat, p: nat)
    requires Inside(v1, |a|) && Inside(v2, |a|) && n <= Count(v1.dim) && n <= Count(v2.dim) && p < |a|
    ensures var k := Sender(v2, n, p);
      if k < 0 then Moved(a, v1, v2, n)[p] == a[p]
      else 0 <= Source(v1, v2, k) < |a| && Moved(a, v1, v2, n)[p] == a[Source(v1, v2, k)]
  {
    hide Nth, Count, InBounds, Sizes;
    if n > 0 {
      MovedStep(a, v1, v2, n - 1);
      SourceInside(v1, v2, |a|, n - 1);
      if p == Nth(v2, n - 1) {
        MovedAt(a, v1, v2, n - 1, Nth(v1, n - 1));
      } else {
        MovedAt(a, v1, v2, n - 1, p);
      }
    }
  }

  /** Every step whose target is not written again sends what its source held at first. */
  ghost predicate SendsFirst(v1: View, v2: View, n: nat)
    requires Sized(v1) && Sized(v2)
  {
    forall k: nat :: k < n && Sender(v2, n, Nth(v2, k)) == k ==> Source(v1, v2, k) == Nth(v1, k)
  }

  /** For any two indexes, targets that share places included: copying inside one storage
      does what copying from a separate one does, whatever is stored there, exactly
      when every step that counts sends the first contents of its source. */
  lemma InPlaceIff(v1: View, v2: View, size: nat)
    requires Inside(v1, size) && Inside(v2, size) && Count(v1.dim) == Count(v2.dim)
    ensures SendsFirst(v1, v2, Count(v2.dim)) <==>
      forall a: seq<int> :: |a| == size ==> Moved(a, v1, v2, Count(v2.dim)) == Copied(a, a, v1, v2, Count(v2.dim))
  {
    hide Nth, Count, InBounds, Sizes, Moved, Copied, SendsFirst, Source;
    var n := Count(v2.dim);
    if SendsFirst(v1, v2, n) {
      forall a: seq<int> | |a| == size ensures Moved(a, v1, v2, n) == Copied(a, a, v1, v2, n) {
        SameEverywhere(a, v1, v2);
      }
    }
    var a := seq(size, i => i);
    if Moved(a, v1, v2, n) == Copied(a, a, v1, v2, n) {
      SentFirst(a, v1, v2);
    }
  }

  lemma SameEverywhere<T>(a: seq<T>, v1: View, v2: View)
    requires Inside(v1, |a|) && Inside(v2, |a|) && Count(v1.dim) == Count(v2.dim)
    requires SendsFirst(v1, v2, Count(v2.dim))
    ensures Moved(a, v1, v2, Count(v2.dim)) == Copied(a, a, v1, v2, Count(v2.dim))
  {
    hide Nth, Count, InBounds, Sizes, Moved, Copied, Source;
    var n := Count(v2.dim);
    forall p: nat | p < |a| ensures Moved(a, v1, v2, n)[p] == Copied(a, a, v1, v2, n)[p] {
      MovedAt(a, v1, v2, n, p);
      CopiedAt(a, a, v1, v2, n, p);
    }
  }

  lemma SentFirst(a: seq<int>, v1: View, v2: View)
    requires Inside(v1, |a|) && Inside(v2, |a|) && Count(v1.dim) == Count(v2.dim)
    requires forall i :: 0 <= i < |a| ==> a[i] == i
    requires Moved(a, v1, v2, Count(v2.dim)) == Copied(a, a, v1, v2, Count(v2.dim))
    ensures SendsFirst(v1, v2, Count(v2.dim))
  {
    hide Nth, Count, InBounds, Sizes, Moved, Copied, Source;
    var n := Count(v2.dim);
    forall k: nat | k < n && Sender(v2, n, Nth(v2, k)) == k ensures Source(v1, v2, k) == Nth(v1, k) {
      NthInside(v2, |a|, k);
      MovedAt(a, v1, v2, n, Nth(v2, k));
      CopiedAt(a, a, v1, v2, n, Nth(v2, k));
    }
  }

  /** The number of elements, multiplied up dimension by dimension. */
  method Product(dim: seq<int>) returns (n: int)
    requires Sizes(dim)
    ensures n == Count(dim)
  {
    n := 1;
    var i := 0;
    while i < |dim|
      invariant 0 <= i <= |dim| && n == Count(dim[..i])
    {
      assert dim[..i + 1][..i] == dim[..i];
      n := n * dim[i];
      i := i + 1;
    }
    assert dim[..i] == dim;
  }

  /** copy_index between storages of one type; false is the size error. */
  method CopyIndex<T>(v1: View, src: array<T>, v2: View, dst: array<T>) returns (ok: bool)
    requires Inside(v1, src.Length) && Inside(v2, dst.Length)
    modifies dst
    ensures ok <==> Count(v1.dim) == Count(v2.dim)
    ensures ok && (src != dst || Undisturbed(v1, v2, Count(v2.dim))) ==>
      dst[..] == Copied(old(src[..]), old(dst[..]), v1, v2, Count(v2.dim))
    ensures ok && src == dst ==> dst[..] == Moved(old(dst[..]), v1, v2, Count(v2.dim))
    ensures !ok ==> dst[..] == old(dst[..])
  {
    hide Coord, Count, Dot, InBounds, Copied, Moved, Undisturbed;
    var sz1 := Product(v1.dim);
    var sz2 := Product(v2.dim);
    if sz1 != sz2 {
      return false;
    }
    var d1, d2 := new int[|v1.dim|](i => 0), new int[|v2.dim|](i => 0);
    var p1, p2, more1, more2 := 0, 0, true, true;
    ghost var k, from, before := 0, src[..], dst[..];
    FirstCoord(v1.dim, v1.mod);
    FirstCoord(v2.dim, v2.mod);
    assert d1[..] == seq(|v1.dim|, i => 0) && d2[..] == seq(|v2.dim|, i => 0);
    NoneCopied(from, before, v1, v2);
    while more1 && more2
      invariant k <= sz1 && (more1 <==> k < sz1) && (more2 <==> k < sz2)
      invariant more1 ==> d1[..] == Coord(k, v1.dim) && p1 == Dot(Coord(k, v1.dim), v1.mod)
      invariant more2 ==> d2[..] == Coord(k, v2.dim) && p2 == Dot(Coord(k, v2.dim), v2.mod)
      invariant dst[..] == if src == dst then Moved(before, v1, v2, k) else Copied(from, before, v1, v2, k)
      invariant src != dst ==> src[..] == from
      decreases sz1 - k
    {
      if src == dst {
        MovedStep(before, v1, v2, k);
      } else {
        CopiedStep(from, before, v1, v2, k);
      }
      dst[v2.offset + p2] := src[v1.offset + p1];
      p1, more1 := Advance(v1.dim, v1.mod, d1, p1, k);
      p2, more2 := Advance(v2.dim, v2.mod, d2, p2, k);
      k := k + 1;
    }
    if src == dst && Undisturbed(v1, v2, sz2) {
      MovedIsCopied(before, v1, v2, sz2);
    }
    return true;
  }

  lemma NoneCopied<T>(src: seq<T>, dst: seq<T>, v1: View, v2: View)
    requires Inside(v1, |src|) && Inside(v2, |dst|)
    ensures Copied(src, dst, v1, v2, 0) == dst
    ensures |src| == |dst| ==> Moved(dst, v1, v2, 0) == dst
  {
  }
}
