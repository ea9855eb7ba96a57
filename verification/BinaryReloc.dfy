/** The relocation table: addresses in increasing order, found by bisection. */
module BinaryReloc {
  import opened BinaryGraph

  ghost predicate Sorted(t: seq<Ref>) { forall i, j :: 0 <= i < j < |t| ==> t[i] < t[j] }

  /** A list without repetition of the nodes of M. */
  ghost predicate Lists(t: seq<Ref>, M: set<Ref>) {
    && (forall i, j :: 0 <= i < j < |t| ==> t[i] != t[j])
    && (forall i :: 0 <= i < |t| ==> t[i] in M)
    && (forall n :: n in M ==> n in t)
  }

  /** t with x before its element i. */
  function With<T>(t: seq<T>, i: nat, x: T): seq<T>
    requires i <= |t|
  {
    t[..i] + [x] + t[i..]
  }

  lemma WithSorted(t: seq<Ref>, i: nat, p: Ref)
    requires Sorted(t) && i <= |t|
    requires i > 0 ==> t[i - 1] < p
    requires i < |t| ==> p <= t[i]
    ensures p in t <==> i < |t| && t[i] == p
    ensures p !in t ==> Sorted(With(t, i, p))
    ensures forall q :: q in With(t, i, p) <==> q in t || q == p
  {
    WithAt(t, i, p);
    SortedInsert(t, i, p, With(t, i, p));
  }

  lemma SortedInsert(t: seq<Ref>, i: nat, p: Ref, w: seq<Ref>)
    requires Sorted(t) && i <= |t| && |w| == |t| + 1
    requires forall k {:trigger w[k]} :: 0 <= k <= |t| ==>
      w[k] == if k < i then t[k] else if k == i then p else t[k - 1]
    requires i > 0 ==> t[i - 1] < p
    requires i < |t| ==> p <= t[i]
    ensures p in t <==> i < |t| && t[i] == p
    ensures p !in t ==> Sorted(w)
    ensures forall q :: q in w <==> q in t || q == p
  {
    if p in t {
      var k :| 0 <= k < |t| && t[k] == p;
    }
    assert forall k :: 0 <= k < i ==> t[k] < p;
    assert forall k :: i < k < |t| ==> p < t[k];
    forall q | q in w ensures q in t || q == p {
      var k :| 0 <= k < |w| && w[k] == q;
      assert k != i ==> q == t[if k < i then k else k - 1];
    }
    forall q | q in t || q == p ensures q in w {
      if q != p {
        var k :| 0 <= k < |t| && t[k] == q;
        assert w[if k < i then k else k + 1] == q;
      } else {
        assert w[i] == p;
      }
    }
  }

  lemma WithAt<T>(t: seq<T>, i: nat, x: T)
    requires i <= |t|
    ensures |With(t, i, x)| == |t| + 1
    ensures forall k {:trigger With(t, i, x)[k]} :: 0 <= k <= |t| ==>
      With(t, i, x)[k] == if k < i then t[k] else if k == i then x else t[k - 1]
  {
  }

  lemma WithUpdate<T>(t: seq<T>, i: nat, x: T, y: T)
    requires i <= |t|
    ensures With(t, i, x)[i := y] == With(t, i, y)
  {
  }

  ghost predicate AllEmpty(f: seq<Flag>) { forall i :: 0 <= i < |f| ==> f[i] == EMPTY }

  lemma WithShift<T>(t: seq<T>, i: nat, x: T)
    requires 0 < i <= |t|
    ensures With(t, i, x)[i := t[i - 1]] == With(t, i - 1, t[i - 1])
  {
  }

  datatype Flag = EMPTY | REFD | DEFD

  class RelocTable {
    var relocm: nat
    var relocn: nat
    var relocp: array<Ref>
    var relocf: array<Flag>

    ghost predicate Valid()
      reads this
    {
      relocn <= relocm == relocp.Length == relocf.Length && relocp as object != relocf
    }

    ghost function Table(): seq<Ref>
      requires Valid()
      reads this, relocp
    {
      relocp[..relocn]
    }

    ghost function Flags(): seq<Flag>
      requires Valid()
      reads this, relocf
    {
      relocf[..relocn]
    }

    constructor ()
      ensures Valid() && fresh(relocp) && fresh(relocf) && relocn == 0
    {
      relocm, relocn := 0, 0;
      relocp, relocf := new Ref[0], new Flag[0];
    }

    /** Grows the arrays to the next multiple of 1024 above m (1 + (m | 0x3ff)). */
    method CheckSize(m: nat)
      requires Valid()
      modifies this
      ensures Valid() && m <= relocm && relocn == old(relocn)
      ensures Table() == old(Table()) && Flags() == old(Flags())
      ensures relocp == old(relocp) || fresh(relocp)
      ensures relocf == old(relocf) || fresh(relocf)
    {
      if relocm >= m {
        return;
      }
      var size := 1024 * (m / 1024 + 1);
      var p, f := new Ref[size](_ => 0), new Flag[size](_ => EMPTY);
      forall i | 0 <= i < relocn { p[i] := relocp[i]; }
      forall i | 0 <= i < relocn { f[i] := relocf[i]; }
      assert p[..relocn] == relocp[..relocn];
      assert f[..relocn] == relocf[..relocn];
      relocp, relocf, relocm := p, f, size;
    }

    /** Shifts the entries from p on by one, into the slot that was just added. */
    method OpenSlot(p: Ref, ghost t: seq<Ref>, ghost fl: seq<Flag>) returns (i: nat)
      requires Valid() && |t| == |fl| && Table() == t + [0] && Flags() == fl + [EMPTY]
      modifies relocp, relocf
      ensures Valid() && i <= |t| && (i > 0 ==> t[i - 1] < p) && (i < |t| ==> p <= t[i])
      ensures Table() == With(t, i, if i == |t| then 0 else t[i])
      ensures Flags() == With(fl, i, if i == |t| then EMPTY else fl[i])
    {
      i := relocn - 1;
      while i > 0 && p <= relocp[i - 1]
        invariant 0 <= i <= |t| && (i < |t| ==> p <= t[i])
        invariant Table() == With(t, i, if i == |t| then 0 else t[i])
        invariant Flags() == With(fl, i, if i == |t| then EMPTY else fl[i])
        decreases i
      {
        ghost var ps, fs := Table(), Flags();
        assert relocp[i - 1] == ps[i - 1] == t[i - 1] && relocf[i - 1] == fs[i - 1] == fl[i - 1];
        relocp[i] := relocp[i - 1];
        relocf[i] := relocf[i - 1];
        assert Table() == ps[i := t[i - 1]] && Flags() == fs[i := fl[i - 1]];
        WithShift(t, i, ps[i]);
        WithShift(fl, i, fs[i]);
        i := i - 1;
      }
      assert i > 0 ==> relocp[i - 1] == Table()[i - 1] == t[i - 1];
    }

    /** Insertion by shifting from the end; false for a node already listed. */
    method Insert(p: Ref) returns (ok: bool)
      requires Valid() && Sorted(Table()) && p != 0
      modifies this, relocp, relocf
      ensures Valid() && (relocp == old(relocp) || fresh(relocp)) && (relocf == old(relocf) || fresh(relocf))
      ensures ok <==> p !in old(Table())
      ensures ok ==> relocn == old(relocn) + 1 && Sorted(Table())
      ensures ok ==> forall q :: q in Table() <==> q in old(Table()) || q == p
      ensures ok && AllEmpty(old(Flags())) ==> AllEmpty(Flags())
    {
      ghost var t, fl := Table(), Flags();
      Extend();
      var i := OpenSlot(p, t, fl);
      WithSorted(t, i, p);
      if relocp[i] == p {
        assert Table()[i] == p;
        return false;
      }
      assert Table()[i] != p;
      WithUpdate(t, i, Table()[i], p);
      WithUpdate(fl, i, Flags()[i], EMPTY);
      Put(i, p, EMPTY);
      return true;
    }

    method Extend()
      requires Valid()
      modifies this
      ensures Valid() && relocn == old(relocn) + 1
      ensures relocp == old(relocp) || fresh(relocp)
      ensures relocf == old(relocf) || fresh(relocf)
      ensures Table() == old(Table()) + [0] && Flags() == old(Flags()) + [EMPTY]
      modifies relocp, relocf
    {
      CheckSize(relocn + 1);
      relocp[relocn] := 0;
      relocf[relocn] := EMPTY;
      relocn := relocn + 1;
    }

    method Put(i: nat, p: Ref, f: Flag)
      requires Valid() && i < relocn
      modifies relocp, relocf
      ensures Table() == old(Table())[i := p] && Flags() == old(Flags())[i := f]
    {
      relocp[i] := p;
      relocf[i] := f;
    }

    /** Bisection; -1 is the internal error "search failed". */
    method Search(p: Ref) returns (k: int)
      requires Valid() && Sorted(Table())
      ensures k >= 0 ==> k < relocn && Table()[k] == p
      ensures k < 0 ==> p !in Table()
    {
      var lo, hi := 0, relocn as int - 1;
      while hi >= lo
        invariant 0 <= lo <= hi + 1 <= relocn
        invariant forall i :: 0 <= i < lo ==> Table()[i] < p
        invariant forall i :: hi < i < relocn ==> p < Table()[i]
      {
        k := (lo + hi) / 2;
        assert Table()[k] == relocp[k];
        if p > relocp[k] {
          lo := k + 1;
        } else if p < relocp[k] {
          hi := k - 1;
        } else {
          return k;
        }
      }
      return -1;
    }
  }
}
