/** Blocks of the low-memory arena and how they tile the mapped chunks (src/dldbfd.c:1031-1142). */
module ArenaBlocks {

  type Addr = nat

  /** A header at addr, followed by the payload; size counts both. */
  datatype Block = Block(addr: Addr, size: nat)

  const HEADER := 64
  const CHUNK := 0x400000

  function End(b: Block): Addr { b.addr + b.size }

  predicate Good(b: Block) { b.addr > 0 && b.addr % 64 == 0 && b.size > 0 && b.size % 64 == 0 }

  predicate Within(b: Block, k: Addr) { b.addr <= k < End(b) }

  predicate Apart(b: Block, c: Block) { End(b) <= c.addr || End(c) <= b.addr }

  /** A_ALIGN: the next multiple of 64. */
  function Align(x: nat): (r: nat)
    ensures x <= r < x + 64 && r % 64 == 0
  {
    (x + 63) / 64 * 64
  }

  /** What a request for s bytes takes out of the arena. */
  function Rounded(s: nat): (r: nat)
    ensures r >= s + HEADER && r % 64 == 0 && r > 0
  {
    Align(s) + HEADER
  }

  /** These blocks do not overlap and cover the mapped bytes, no more and no less. */
  ghost predicate Tiles(all: set<Block>, mapped: set<Addr>) {
    && (forall b :: b in all ==> Good(b))
    && (forall b, c :: b in all && c in all && b != c ==> Apart(b, c))
    && (forall b, k: Addr :: b in all && Within(b, k) ==> k in mapped)
    && (forall k :: k in mapped ==> exists b :: b in all && Within(b, k))
  }

  ghost function Bytes(b: Block): set<Addr> { set k: Addr | k < End(b) && Within(b, k) }

  function Joined(b: Block, c: Block): Block { Block(b.addr, b.size + c.size) }

  /** Blocks old are replaced by blocks new that lie on the same bytes. */
  lemma SwapTiles(all: set<Block>, mapped: set<Addr>, gone: set<Block>, come: set<Block>)
    requires Tiles(all, mapped) && gone <= all && Tiles(come, Span(gone))
    ensures Tiles(all - gone + come, mapped)
  {
    hide Good;
    var all' := all - gone + come;
    forall b, c | b in all' && c in all' && b != c ensures Apart(b, c) {
      if b in come && c !in come {
        OutsideSpan(all, gone, come, b, c);
      } else if c in come && b !in come {
        OutsideSpan(all, gone, come, c, b);
      }
    }
    forall b, k: Addr | b in all' && Within(b, k) ensures k in mapped {
      if b in come {
        assert k in Span(gone);
        var d :| d in gone && Within(d, k);
      }
    }
    forall k | k in mapped ensures exists b :: b in all' && Within(b, k) {
      var d :| d in all && Within(d, k);
      if d in gone {
        assert k in Span(gone);
        var b :| b in come && Within(b, k);
        assert b in all';
      } else {
        assert d in all';
      }
    }
  }

  ghost function Span(bs: set<Block>): set<Addr> { set b, k: Addr | b in bs && k < End(b) && Within(b, k) :: k }

  lemma OutsideSpan(all: set<Block>, gone: set<Block>, come: set<Block>, b: Block, c: Block)
    requires forall x, y :: x in all && y in all && x != y ==> Apart(x, y)
    requires gone <= all && c in all && c !in gone && b in come && Good(b) && Good(c)
    requires forall k: Addr :: Within(b, k) ==> k in Span(gone)
    ensures Apart(b, c)
  {
    var k := if b.addr < c.addr then c.addr else b.addr;
    if Within(b, k) {
      var d :| d in gone && Within(d, k);
      assert Apart(d, c);
    }
  }

  /** Cutting a block in two. */
  lemma SplitTiles(all: set<Block>, mapped: set<Addr>, c: Block, lo: Block, hi: Block)
    requires Tiles(all, mapped) && c in all && Good(lo) && Good(hi)
    requires lo.addr == c.addr && End(lo) == hi.addr && End(hi) == End(c)
    ensures Tiles(all - {c} + {lo, hi}, mapped)
    ensures lo !in all && hi !in all
  {
    forall k | k in Span({c}) ensures exists b :: b in {lo, hi} && Within(b, k) {
      assert Within(c, k);
      assert Within(if k < hi.addr then lo else hi, k);
    }
    forall b, k: Addr | b in {lo, hi} && Within(b, k) ensures k in Span({c}) {
      assert Within(c, k);
    }
    assert Tiles({lo, hi}, Span({c}));
    SwapTiles(all, mapped, {c}, {lo, hi});
    assert !Apart(lo, c) && !Apart(hi, c);
  }

  /** Joining two neighbours. */
  lemma MergeTiles(all: set<Block>, mapped: set<Addr>, b: Block, c: Block)
    requires Tiles(all, mapped) && b in all && c in all && End(b) == c.addr
    ensures Tiles(all - {b, c} + {Joined(b, c)}, mapped)
    ensures Joined(b, c) !in all
  {
    var m := Joined(b, c);
    assert Good(b) && Good(c);
    forall k: Addr | Within(m, k) ensures k in Span({b, c}) {
      assert Within(if k < c.addr then b else c, k);
    }
    assert m in {m};
    assert Tiles({m}, Span({b, c}));
    SwapTiles(all, mapped, {b, c}, {m});
    assert !Apart(m, b);
  }

  /** A new chunk, apart from everything mapped so far. */
  lemma ChunkTiles(all: set<Block>, mapped: set<Addr>, m: Block)
    requires Tiles(all, mapped) && Good(m) && mapped !! Bytes(m)
    ensures Tiles(all + {m}, mapped + Bytes(m)) && m !in all
  {
    forall b | b in all ensures Apart(b, m) {
      var k := if b.addr < m.addr then m.addr else b.addr;
      assert (Within(b, k) ==> k in mapped) && (Within(m, k) ==> k in Bytes(m));
    }
    forall k | k in mapped + Bytes(m) ensures exists b :: b in all + {m} && Within(b, k) {
      if k in Bytes(m) {
        assert m in all + {m};
      } else {
        var b :| b in all && Within(b, k);
        assert b in all + {m};
      }
    }
    assert Within(m, m.addr);
  }

  /** A free list: in address order, blocks not overlapping. */
  ghost predicate Sorted(f: seq<Block>) {
    forall i, j :: 0 <= i < j < |f| ==> End(f[i]) <= f[j].addr
  }

  ghost predicate NoNeighbours(f: seq<Block>) {
    forall i :: 0 <= i < |f| - 1 ==> End(f[i]) != f[i + 1].addr
  }

  ghost function Members(f: seq<Block>): set<Block> { set b | b in f }

  /** Position of the first block that is big enough. */
  ghost function FirstFit(f: seq<Block>, s: nat): (i: nat)
    ensures i <= |f| && (i < |f| ==> f[i].size >= s) && forall j :: 0 <= j < i ==> f[j].size < s
  {
    if f == [] || f[0].size >= s then 0 else 1 + FirstFit(f[1..], s)
  }

  lemma {:induction false} FirstFitIs(f: seq<Block>, s: nat, i: nat)
    requires i <= |f| && (i < |f| ==> f[i].size >= s) && forall j :: 0 <= j < i ==> f[j].size < s
    ensures FirstFit(f, s) == i
  {
  }

  /** How many blocks lie at or below address a. */
  ghost function Place(f: seq<Block>, a: Addr): (i: nat)
    ensures i <= |f| && (i < |f| ==> f[i].addr > a) && forall j :: 0 <= j < i ==> f[j].addr <= a
  {
    if f == [] || f[0].addr > a then 0 else 1 + Place(f[1..], a)
  }

  lemma PlaceIs(f: seq<Block>, a: Addr, i: nat)
    requires i <= |f| && (i < |f| ==> f[i].addr > a) && forall j :: 0 <= j < i ==> f[j].addr <= a
    ensures Place(f, a) == i
  {
  }

  ghost function Inserted(f: seq<Block>, b: Block): seq<Block> {
    f[..Place(f, b.addr)] + [b] + f[Place(f, b.addr)..]
  }

  lemma InsertedMembers(f: seq<Block>, b: Block)
    ensures Members(Inserted(f, b)) == Members(f) + {b}
  {
    var i := Place(f, b.addr);
    assert f == f[..i] + f[i..];
    assert forall c :: c in f <==> c in f[..i] || c in f[i..];
    assert forall c :: c in Inserted(f, b) <==> c in f[..i] || c == b || c in f[i..];
  }

  lemma InsertedSorted(f: seq<Block>, b: Block)
    requires Sorted(f) && Good(b) && forall c :: c in f ==> Apart(b, c) && Good(c)
    ensures Sorted(Inserted(f, b))
  {
    var i := Place(f, b.addr);
    var lo, hi := f[..i], f[i..];
    forall k | 0 <= k < i ensures End(lo[k]) <= b.addr {
      assert f[k] in f;
    }
    forall k | 0 <= k < |hi| ensures End(b) <= hi[k].addr {
      assert hi[k] == f[i + k] && f[i + k] in f && Good(f[i]);
      assert f[i].addr <= f[i + k].addr;
    }
    hide Good;
    assert Sorted(lo) && Sorted(hi);
    forall j, k | 0 <= j < |lo| && 0 <= k < |hi| ensures End(lo[j]) <= hi[k].addr {
      assert lo[j] == f[j] && hi[k] == f[i + k];
    }
    SortedJoin(lo, b, hi);
  }

  lemma SortedJoin(lo: seq<Block>, b: Block, hi: seq<Block>)
    requires Sorted(lo) && Sorted(hi)
    requires forall k :: 0 <= k < |lo| ==> End(lo[k]) <= b.addr
    requires forall k :: 0 <= k < |hi| ==> End(b) <= hi[k].addr
    requires forall j, k :: 0 <= j < |lo| && 0 <= k < |hi| ==> End(lo[j]) <= hi[k].addr
    ensures Sorted(lo + [b] + hi)
  {
  }

  /** One pass joining each block with the neighbours that follow it. */
  ghost function Compacted(f: seq<Block>): seq<Block>
    decreases |f|
  {
    if |f| < 2 then f
    else if End(f[0]) == f[1].addr then Compacted([Block(f[0].addr, f[0].size + f[1].size)] + f[2..])
    else [f[0]] + Compacted(f[1..])
  }

  lemma JoinedSorted(f: seq<Block>)
    requires |f| >= 2 && Sorted(f) && (forall b :: b in f ==> Good(b)) && End(f[0]) == f[1].addr
    ensures var g := [Joined(f[0], f[1])] + f[2..]; Sorted(g) && (forall b :: b in g ==> Good(b))
    ensures Members([Joined(f[0], f[1])] + f[2..]) == Members(f) - {f[0], f[1]} + {Joined(f[0], f[1])}
  {
    var g := [Joined(f[0], f[1])] + f[2..];
    assert Good(f[0]) && Good(f[1]);
    assert forall i :: 0 < i < |g| ==> g[i] == f[i + 1];
    forall b | b in f[2..] ensures b in f && b != f[0] && b != f[1] {
      var i :| 0 <= i < |f[2..]| && b == f[2..][i];
      assert f[i + 2] == b && End(f[1]) <= f[i + 2].addr;
    }
    forall b | b in f ensures b == f[0] || b == f[1] || b in f[2..] {
      var i :| 0 <= i < |f| && f[i] == b;
      assert i >= 2 ==> f[2..][i - 2] == b;
    }
  }

  lemma TailSorted(f: seq<Block>)
    requires |f| > 0 && Sorted(f) && forall b :: b in f ==> Good(b)
    ensures Sorted(f[1..]) && forall b :: b in f[1..] ==> Good(b) && b in f
    ensures Members(f) == {f[0]} + Members(f[1..])
  {
    assert f == [f[0]] + f[1..];
    assert forall b :: b in f <==> b == f[0] || b in f[1..];
    assert forall i :: 0 <= i < |f[1..]| ==> f[1..][i] == f[i + 1];
  }

  /** Compacting keeps the order and leaves no neighbours. */
  lemma {:induction false} CompactedApart(f: seq<Block>)
    requires Sorted(f) && forall b :: b in f ==> Good(b)
    ensures Sorted(Compacted(f)) && NoNeighbours(Compacted(f))
    ensures |f| > 0 ==> |Compacted(f)| > 0 && Compacted(f)[0].addr == f[0].addr
    ensures forall b :: b in Compacted(f) ==> Good(b)
    decreases |f|
  {
    if |f| >= 2 {
      if End(f[0]) == f[1].addr {
        JoinedSorted(f);
        CompactedApart([Joined(f[0], f[1])] + f[2..]);
      } else {
        TailSorted(f);
        CompactedApart(f[1..]);
        assert f[1..][0] == f[1];
        InFront(f[0], Compacted(f[1..]));
      }
    }
  }

  lemma InFront(b: Block, f: seq<Block>)
    requires Sorted(f) && NoNeighbours(f) && |f| > 0 && End(b) < f[0].addr && Good(b) && forall c :: c in f ==> Good(c)
    ensures Sorted([b] + f) && NoNeighbours([b] + f) && forall c :: c in [b] + f ==> Good(c)
  {
    var g := [b] + f;
    assert forall i :: 0 < i < |g| ==> g[i] == f[i - 1];
    assert f[0] in f && forall i :: 0 < i < |f| ==> End(f[0]) <= f[i].addr;
  }

  /** Compacting moves no byte in or out. */
  lemma {:induction false} CompactedTiles(f: seq<Block>, others: set<Block>, mapped: set<Addr>)
    requires Sorted(f) && Tiles(Members(f) + others, mapped) && Members(f) !! others
    ensures Tiles(Members(Compacted(f)) + others, mapped) && Members(Compacted(f)) !! others
    decreases |f|
  {
    hide Tiles;
    if |f| >= 2 {
      GoodMembers(f, others, mapped);
      if End(f[0]) == f[1].addr {
        var m := Joined(f[0], f[1]);
        JoinedSorted(f);
        MergeTiles(Members(f) + others, mapped, f[0], f[1]);
        assert Members(f) + others - {f[0], f[1]} + {m} == Members([m] + f[2..]) + others;
        CompactedTiles([m] + f[2..], others, mapped);
      } else {
        TailSorted(f);
        HeadOnce(f);
        assert Members(f) + others == Members(f[1..]) + (others + {f[0]});
        CompactedTiles(f[1..], others + {f[0]}, mapped);
        var g := Compacted(f[1..]);
        assert Members(Compacted(f)) == Members(g) + {f[0]} by {
          assert forall b :: b in [f[0]] + g <==> b == f[0] || b in g;
        }
        assert Members(Compacted(f)) + others == Members(g) + (others + {f[0]});
      }
    }
  }

  lemma GoodMembers(f: seq<Block>, others: set<Block>, mapped: set<Addr>)
    requires Tiles(Members(f) + others, mapped)
    ensures forall b :: b in f ==> Good(b)
  {
    assert forall b :: b in f ==> b in Members(f) + others;
  }

  lemma HeadOnce(f: seq<Block>)
    requires |f| > 0 && Sorted(f) && forall b :: b in f ==> Good(b)
    ensures f[0] !in f[1..]
  {
    assert forall i :: 0 <= i < |f[1..]| ==> f[1..][i] == f[i + 1];
    assert Good(f[0]);
  }
}
