/** The low-memory allocator: first fit, splitting, coalescing (src/dldbfd.c:1031-1142). */
module Arena {
  import opened ArenaBlocks

  /** The block a request of s bytes gets out of the i-th free block. */
  ghost function Taken(f: seq<Block>, i: nat, s: nat, perm: bool): Block
    requires i < |f| && s <= f[i].size
  {
    if s == f[i].size then f[i] else if perm then Block(End(f[i]) - s, s) else Block(f[i].addr, s)
  }

  /** What stays free. */
  ghost function Left(f: seq<Block>, i: nat, s: nat, perm: bool): seq<Block>
    requires i < |f| && s <= f[i].size
  {
    var c := f[i];
    if s == c.size then f[..i] + f[i + 1..]
    else f[i := if perm then Block(c.addr, c.size - s) else Block(c.addr + s, c.size - s)]
  }

  /** Free and used blocks tile the mapped bytes, the free list is in address order. */
  ghost predicate Sound(f: seq<Block>, used: set<Block>, mapped: set<Addr>) {
    Sorted(f) && Tiles(Members(f) + used, mapped) && Members(f) !! used
  }

  lemma SortedWithout(f: seq<Block>, i: nat)
    requires i < |f| && Sorted(f)
    ensures Sorted(f[..i] + f[i + 1..])
  {
    var g := f[..i] + f[i + 1..];
    assert forall k :: 0 <= k < |g| ==> g[k] == if k < i then f[k] else f[k + 1];
  }

  lemma MembersWithout(f: seq<Block>, i: nat)
    requires i < |f| && forall k :: 0 <= k < |f| && k != i ==> f[k] != f[i]
    ensures Members(f[..i] + f[i + 1..]) == Members(f) - {f[i]}
  {
    var g := f[..i] + f[i + 1..];
    assert f == f[..i] + [f[i]] + f[i + 1..];
    assert forall b :: b in f <==> b in f[..i] || b == f[i] || b in f[i + 1..];
    assert forall b :: b in g <==> b in f[..i] || b in f[i + 1..];
    assert f[i] !in f[..i] && f[i] !in f[i + 1..];
  }

  lemma SortedOnce(f: seq<Block>)
    requires Sorted(f) && forall b :: b in f ==> Good(b)
    ensures forall i, j :: 0 <= i < j < |f| ==> f[i].addr < f[j].addr && f[i] != f[j]
  {
    forall i, j | 0 <= i < j < |f| ensures f[i].addr < f[j].addr {
      assert Good(f[i]);
    }
  }

  lemma MembersSwap(f: seq<Block>, i: nat, b: Block)
    requires i < |f| && Sorted(f) && (forall b :: b in f ==> Good(b))
    requires f[i].addr <= b.addr && End(b) <= End(f[i])
    ensures Members(f[i := b]) == Members(f) - {f[i]} + {b}
    ensures Sorted(f[i := b])
  {
    var g := f[i := b];
    assert f[i] in f && forall k :: 0 <= k < |f| ==> f[k] in f;
    assert forall k :: 0 <= k < |f| && k != i ==> f[k] != f[i] && g[k] == f[k];
    assert g[i] == b;
    forall c | c in f && c != f[i] ensures c in g {
      var k :| 0 <= k < |f| && f[k] == c;
      assert g[k] == c;
    }
  }

  lemma FreeGood(f: seq<Block>, used: set<Block>, mapped: set<Addr>)
    requires Sound(f, used, mapped)
    ensures forall b :: b in f ==> Good(b)
    ensures forall b :: b in used ==> Good(b)
    ensures forall b, c :: b in f && c in used ==> Apart(b, c)
  {
    assert forall b :: b in f ==> b in Members(f) + used;
  }

  /** Allocation moves bytes from the free side to the used side, nothing else. */
  lemma CarveSound(f: seq<Block>, used: set<Block>, mapped: set<Addr>, i: nat, s: nat, perm: bool)
    requires Sound(f, used, mapped) && i < |f| && 0 < s <= f[i].size && s % 64 == 0
    ensures Sound(Left(f, i, s, perm), used + {Taken(f, i, s, perm)}, mapped)
    ensures Taken(f, i, s, perm) !in used
  {
    hide Tiles;
    FreeGood(f, used, mapped);
    var c, t, g := f[i], Taken(f, i, s, perm), Left(f, i, s, perm);
    assert c in f;
    if s == c.size {
      SortedOnce(f);
      SortedWithout(f, i);
      MembersWithout(f, i);
      assert Members(g) + (used + {t}) == Members(f) + used;
    } else {
      var r := if perm then Block(c.addr, c.size - s) else Block(c.addr + s, c.size - s);
      var lo, hi := if perm then r else t, if perm then t else r;
      SplitTiles(Members(f) + used, mapped, c, lo, hi);
      MembersSwap(f, i, r);
      assert Members(g) + (used + {t}) == Members(f) + used - {c} + {lo, hi};
    }
  }

  /** A freed block, or a new chunk, joins the list. */
  lemma InsertSound(f: seq<Block>, used: set<Block>, mapped: set<Addr>, b: Block)
    requires Sorted(f) && Members(f) !! used && b !in f && b !in used && Tiles(Members(f) + {b} + used, mapped)
    ensures Sound(Inserted(f, b), used, mapped)
  {
    var all := Members(f) + {b} + used;
    assert b in all && forall c :: c in f ==> c in all;
    hide Tiles;
    TilesBlocks(all, mapped, f, b);
    InsertedSorted(f, b);
    InsertedMembers(f, b);
    assert Members(Inserted(f, b)) + used == all;
  }

  lemma TilesBlocks(all: set<Block>, mapped: set<Addr>, f: seq<Block>, b: Block)
    requires Tiles(all, mapped) && b in all && b !in f && forall c :: c in f ==> c in all
    ensures Good(b) && forall c :: c in f ==> Good(c) && Apart(b, c)
  {
  }

  lemma CompactSound(f: seq<Block>, used: set<Block>, mapped: set<Addr>)
    requires Sound(f, used, mapped)
    ensures Sound(Compacted(f), used, mapped) && NoNeighbours(Compacted(f))
  {
    FreeGood(f, used, mapped);
    CompactedApart(f);
    CompactedTiles(f, used, mapped);
  }

  ghost function Start(f: seq<Block>, i: nat): Addr { if i < |f| then f[i].addr else 0 }

  /** The header words in memory spell the free list from its i-th block on. */
  ghost predicate Linked(next: map<Addr, Addr>, size: map<Addr, nat>, f: seq<Block>) {
    forall i :: 0 <= i < |f| ==>
      (f[i].addr in next && f[i].addr in size && size[f[i].addr] == f[i].size && next[f[i].addr] == Start(f, i + 1))
  }

  /** A used block's next word points at its own payload. */
  ghost predicate Marked(next: map<Addr, Addr>, size: map<Addr, nat>, used: set<Block>) {
    forall b :: b in used ==>
      b.addr in next && b.addr in size && size[b.addr] == b.size && next[b.addr] == b.addr + HEADER
  }

  /** Free blocks in order, none at the address of a used one. */
  ghost predicate ListOk(f: seq<Block>, used: set<Block>) {
    Sorted(f) && forall c :: c in f ==> Good(c) && forall d :: d in used ==> c.addr != d.addr
  }

  lemma SoundList(f: seq<Block>, used: set<Block>, mapped: set<Addr>)
    requires Sound(f, used, mapped)
    ensures ListOk(f, used)
  {
    FreeGood(f, used, mapped);
  }

  lemma PositiveAddrs(f: seq<Block>, used: set<Block>)
    requires ListOk(f, used)
    ensures forall i :: 0 <= i < |f| ==> f[i].addr > 0
  {
    forall i | 0 <= i < |f| ensures f[i].addr > 0 {
      assert f[i] in f;
    }
  }

  /** Two stores put block b in front of the i-th. */
  function Relinked(next: map<Addr, Addr>, f: seq<Block>, i: nat, a: Addr): map<Addr, Addr>
    requires i <= |f|
  {
    var n := next[a := if i < |f| then f[i].addr else 0];
    if i == 0 then n else n[f[i - 1].addr := a]
  }

  lemma LinkIn(next: map<Addr, Addr>, size: map<Addr, nat>, f: seq<Block>, i: nat, b: Block)
    requires i <= |f| && Linked(next, size, f) && b.addr in size && size[b.addr] == b.size
    requires i > 0 ==> forall k :: 0 <= k < |f| && k != i - 1 ==> f[k].addr != f[i - 1].addr
    requires forall k :: 0 <= k < |f| ==> f[k].addr != b.addr
    ensures Linked(Relinked(next, f, i, b.addr), size, f[..i] + [b] + f[i..])
  {
    var g, n' := f[..i] + [b] + f[i..], Relinked(next, f, i, b.addr);
    forall k | 0 <= k < |g|
      ensures g[k].addr in n' && g[k].addr in size && size[g[k].addr] == g[k].size && n'[g[k].addr] == Start(g, k + 1)
    {
      if k < i {
        assert g[k] == f[k];
        assert k + 1 < i ==> g[k + 1] == f[k + 1];
      } else if k > i {
        assert g[k] == f[k - 1];
        assert k + 1 < |g| ==> g[k + 1] == f[k];
      } else {
        assert k + 1 < |g| ==> g[k + 1] == f[k];
      }
    }
  }

  /** Linking a block where it belongs keeps used blocks marked. */
  lemma LinkInserted(next: map<Addr, Addr>, size: map<Addr, nat>, f: seq<Block>, used: set<Block>, i: nat, b: Block)
    requires i == Place(f, b.addr) && Linked(next, size, f) && Marked(next, size, used)
    requires b.addr in size && size[b.addr] == b.size && ListOk(f, used)
    requires forall c :: c in f || c in used ==> c.addr != b.addr
    ensures Linked(Relinked(next, f, i, b.addr), size, Inserted(f, b))
    ensures Marked(Relinked(next, f, i, b.addr), size, used)
    ensures Start(Inserted(f, b), 0) == if i == 0 then b.addr else Start(f, 0)
  {
    hide Linked, Place, Good, Sorted, Marked;
    LinkIn(next, size, f, i, b) by {
      Alone(f, i, b);
    }
    MarkedKept(next, size, used, b.addr, Start(f, i));
    if i > 0 {
      assert f[i - 1] in f;
      MarkedKept(next[b.addr := Start(f, i)], size, used, f[i - 1].addr, b.addr);
    }
  }

  lemma Alone(f: seq<Block>, i: nat, b: Block)
    requires i <= |f| && Sorted(f) && forall c :: c in f ==> Good(c) && c.addr != b.addr
    ensures i > 0 ==> forall k :: 0 <= k < |f| && k != i - 1 ==> f[k].addr != f[i - 1].addr
    ensures forall k :: 0 <= k < |f| ==> f[k].addr != b.addr
  {
    SortedOnce(f);
  }

  /** Writing a header that no used block has. */
  lemma MarkedKept(next: map<Addr, Addr>, size: map<Addr, nat>, used: set<Block>, a: Addr, v: Addr)
    requires Marked(next, size, used) && forall b :: b in used ==> b.addr != a
    ensures Marked(next[a := v], size, used)
  {
  }

  /** The smallest multiple of the chunk size that holds s bytes. */
  function ChunkSize(s: nat): nat { if s == 0 then CHUNK else (s + CHUNK - 1) / CHUNK * CHUNK }

  method RoundChunk(s: nat) returns (cs: nat)
    ensures cs == ChunkSize(s) && cs >= s && cs > 0 && cs % 64 == 0
  {
    cs := CHUNK;
    ghost var k := 1;
    while cs < s
      invariant cs == k * CHUNK && k >= 1 && (k == 1 || cs - CHUNK < s)
    {
      cs, k := cs + CHUNK, k + 1;
    }
    assert s > 0 ==> (s + CHUNK - 1) / CHUNK == k;
  }

  lemma ChunkSound(f: seq<Block>, used: set<Block>, mapped: set<Addr>, b: Block)
    requires Sound(f, used, mapped) && Good(b) && mapped !! Bytes(b)
    ensures Sound(Inserted(f, b), used, mapped + Bytes(b))
    ensures forall c :: c in f || c in used ==> c.addr != b.addr
  {
    var all := Members(f) + used;
    ChunkTiles(all, mapped, b);
    assert all + {b} == Members(f) + {b} + used;
    assert b in all + {b} && forall c :: c in f || c in used ==> c in all + {b} && c != b && Apart(c, b) && Good(c);
    InsertSound(f, used, mapped + Bytes(b), b);
  }

  /** A size word outside every block's header. */
  lemma SizeStill(next: map<Addr, Addr>, size: map<Addr, nat>, f: seq<Block>, used: set<Block>, a: Addr, s: nat)
    requires Linked(next, size, f) && Marked(next, size, used) && forall c :: c in f || c in used ==> c.addr != a
    ensures Linked(next, size[a := s], f) && Marked(next, size[a := s], used)
  {
    assert forall k :: 0 <= k < |f| ==> f[k] in f;
  }

  /** Sizes are multiples of 64, so a remainder too small for a header is no remainder. */
  lemma CarveWhole(f: seq<Block>, used: set<Block>, mapped: set<Addr>, i: nat, s: nat)
    requires Sound(f, used, mapped) && i < |f| && 0 < s <= f[i].size && s % 64 == 0
    ensures f[i].addr > 0 && (f[i].size < s + HEADER <==> s == f[i].size)
  {
    FreeGood(f, used, mapped);
    assert f[i] in f;
  }

  /** The header words once s bytes have been cut out of the i-th free block. */
  ghost function Recut(next: map<Addr, Addr>, f: seq<Block>, i: nat, s: nat, perm: bool): map<Addr, Addr>
    requires i < |f| && s <= f[i].size
  {
    var a, rest := f[i].addr, Start(f, i + 1);
    if s == f[i].size then
      (if i == 0 then next else next[f[i - 1].addr := rest])[a := a + HEADER]
    else if perm then
      next[End(f[i]) - s := rest][a := rest][End(f[i]) - s := End(f[i]) - s + HEADER]
    else
      var n := next[a + s := rest][a := a + s];
      (if i == 0 then n else n[f[i - 1].addr := a + s])[a := a + HEADER]
  }

  ghost function Resized(size: map<Addr, nat>, f: seq<Block>, i: nat, s: nat, perm: bool): map<Addr, nat>
    requires i < |f| && s <= f[i].size
  {
    var a, r := f[i].addr, f[i].size - s;
    if s == f[i].size then size
    else if perm then size[a := r][a + r := s]
    else size[a + s := r][a := s]
  }

  /** No other header lies inside the i-th free block, or at the header before it. */
  ghost predicate Lonely(f: seq<Block>, used: set<Block>, i: nat)
    requires i < |f|
  {
    && (forall k :: 0 <= k < |f| && k != i ==> !Within(f[i], f[k].addr))
    && (forall c :: c in used ==> !Within(f[i], c.addr))
    && (i > 0 ==> (forall k :: 0 <= k < |f| && k != i - 1 ==> f[k].addr != f[i - 1].addr))
    && (i > 0 ==> forall c :: c in used ==> c.addr != f[i - 1].addr)
  }

  lemma SoundLonely(f: seq<Block>, used: set<Block>, mapped: set<Addr>, i: nat)
    requires Sound(f, used, mapped) && i < |f|
    ensures Lonely(f, used, i) && Good(f[i]) && (i > 0 ==> f[i - 1].addr > 0)
  {
    FreeGood(f, used, mapped);
    SortedOnce(f);
    assert f[i] in f && (i > 0 ==> f[i - 1] in f);
    assert forall k :: 0 <= k < |f| ==> f[k] in f;
    hide Tiles;
    forall k | 0 <= k < |f| && k != i ensures !Within(f[i], f[k].addr) {
      assert Good(f[k]) && Good(f[i]);
    }
    forall c | c in used ensures !Within(f[i], c.addr) {
      assert Good(c) && Apart(f[i], c);
    }
    if i > 0 {
      forall c | c in used ensures c.addr != f[i - 1].addr {
        assert Good(c) && Apart(f[i - 1], c) && Good(f[i - 1]);
      }
    }
  }

  lemma CarveLinks(next: map<Addr, Addr>, size: map<Addr, nat>, f: seq<Block>, used: set<Block>, i: nat, s: nat,
                   perm: bool)
    requires i < |f| && 0 < s <= f[i].size && Lonely(f, used, i) && Linked(next, size, f)
    ensures Linked(Recut(next, f, i, s, perm), Resized(size, f, i, s, perm), Left(f, i, s, perm))
  {
    hide Linked, Recut, Resized, Left;
    if s == f[i].size {
      WholeLinks(next, size, f, used, i, perm);
    } else {
      PartLinks(next, size, f, used, i, s, perm);
    }
  }

  lemma WholeLinks(next: map<Addr, Addr>, size: map<Addr, nat>, f: seq<Block>, used: set<Block>, i: nat, perm: bool)
    requires i < |f| && 0 < f[i].size && Lonely(f, used, i) && Linked(next, size, f)
    ensures var s := f[i].size;
            Linked(Recut(next, f, i, s, perm), Resized(size, f, i, s, perm), Left(f, i, s, perm))
  {
    var g := Left(f, i, f[i].size, perm);
    var n := Recut(next, f, i, f[i].size, perm);
    assert Within(f[i], f[i].addr);
    forall k | 0 <= k < |g|
      ensures g[k].addr in n && g[k].addr in size && size[g[k].addr] == g[k].size && n[g[k].addr] == Start(g, k + 1)
    {
      assert g[k] == if k < i then f[k] else f[k + 1];
      assert k + 1 < |g| ==> g[k + 1] == if k + 1 < i then f[k + 1] else f[k + 2];
    }
  }

  lemma PartLinks(next: map<Addr, Addr>, size: map<Addr, nat>, f: seq<Block>, used: set<Block>, i: nat, s: nat,
                  perm: bool)
    requires i < |f| && 0 < s < f[i].size && Lonely(f, used, i) && Linked(next, size, f)
    ensures Linked(Recut(next, f, i, s, perm), Resized(size, f, i, s, perm), Left(f, i, s, perm))
  {
    var a, g := f[i].addr, Left(f, i, s, perm);
    var n, z := Recut(next, f, i, s, perm), Resized(size, f, i, s, perm);
    assert Within(f[i], a) && Within(f[i], End(f[i]) - s) && Within(f[i], a + s);
    forall k | 0 <= k < |g|
      ensures g[k].addr in n && g[k].addr in z && z[g[k].addr] == g[k].size && n[g[k].addr] == Start(g, k + 1)
    {
      assert k != i ==> g[k] == f[k];
      assert k + 1 < |g| && k + 1 != i ==> g[k + 1] == f[k + 1];
    }
  }

  lemma CarveMarks(next: map<Addr, Addr>, size: map<Addr, nat>, f: seq<Block>, used: set<Block>, i: nat, s: nat,
                   perm: bool)
    requires i < |f| && 0 < s <= f[i].size && Lonely(f, used, i) && Linked(next, size, f) && Marked(next, size, used)
    ensures Marked(Recut(next, f, i, s, perm), Resized(size, f, i, s, perm), used + {Taken(f, i, s, perm)})
  {
    var a := f[i].addr;
    assert Within(f[i], a) && Within(f[i], End(f[i]) - s) && (s < f[i].size ==> Within(f[i], a + s));
  }

  lemma CarveStart(f: seq<Block>, i: nat, s: nat, perm: bool)
    requires i < |f| && 0 < s <= f[i].size
    ensures Start(Left(f, i, s, perm), 0) ==
      if i > 0 || (perm && s < f[i].size) then Start(f, 0) else if s == f[i].size then Start(f, 1) else f[i].addr + s
  {
  }

  /** A used block goes back to the free list. */
  lemma ReleaseSound(f: seq<Block>, used: set<Block>, mapped: set<Addr>, b: Block)
    requires Sound(f, used, mapped) && b in used
    ensures Sound(Inserted(f, b), used - {b}, mapped) && ListOk(f, used - {b}) && ListOk(Inserted(f, b), used - {b})
    ensures forall c :: c in f || c in used - {b} ==> c.addr != b.addr
  {
    FreeGood(f, used, mapped);
    assert Members(f) + used == Members(f) + {b} + (used - {b});
    forall c | c in used && c != b ensures c.addr != b.addr {
      assert c in Members(f) + used && b in Members(f) + used && Apart(c, b) && Good(b) && Good(c);
    }
    InsertSound(f, used - {b}, mapped, b);
    SoundList(f, used, mapped);
    SoundList(Inserted(f, b), used - {b}, mapped);
  }

  lemma MarkedLess(next: map<Addr, Addr>, size: map<Addr, nat>, used: set<Block>, b: Block)
    requires Marked(next, size, used)
    ensures Marked(next, size, used - {b})
  {
  }

  /** BadStore: a header written where nothing is mapped. */
  datatype Result = Ok(x: Addr) | NoMemory | BadStore

  /** What a_chunk gives: an address, NULL when /dev/zero cannot be opened, or the
      MAP_FAILED of mmap, which dld_allocate does not tell from an address. */
  datatype Chunk = Mapped(a: Addr) | NoChunk | MapFailed

  class Allocator {
    var arenas: Addr
    var next: map<Addr, Addr>
    var size: map<Addr, nat>
    ghost var free: seq<Block>
    ghost var used: set<Block>
    ghost var mapped: set<Addr>

    ghost predicate Valid()
      reads this
    {
      && Sound(free, used, mapped)
      && arenas == Start(free, 0) && Linked(next, size, free) && Marked(next, size, used)
    }

    constructor ()
      ensures Valid() && free == [] && used == {} && mapped == {}
    {
      arenas, next, size := 0, map[], map[];
      free, used, mapped := [], {}, {};
    }

    /** dld_allocate; mmap says what a_chunk gives, should a chunk be needed; f is the
        free list searched and i the block chosen. */
    method Allocate(s0: nat, perm: bool, mmap: nat -> Chunk) returns (r: Result, ghost f: seq<Block>, ghost i: nat)
      requires Valid()
      requires forall cs: nat :: cs > 0 && mmap(cs).Mapped? ==>
        mmap(cs).a > 0 && mmap(cs).a % 64 == 0 && mapped !! Bytes(Block(mmap(cs).a, cs))
      modifies this
      ensures Valid()
      ensures r.NoMemory? <==> FirstFit(old(free), Rounded(s0)) == |old(free)| && mmap(ChunkSize(Rounded(s0))).NoChunk?
      ensures r.BadStore? <==>
        FirstFit(old(free), Rounded(s0)) == |old(free)| && mmap(ChunkSize(Rounded(s0))).MapFailed?
      ensures !r.Ok? ==> free == old(free) && used == old(used) && mapped == old(mapped)
      ensures FirstFit(old(free), Rounded(s0)) < |old(free)| ==>
        f == old(free) && i == FirstFit(f, Rounded(s0)) && mapped == old(mapped)
      ensures FirstFit(old(free), Rounded(s0)) == |old(free)| && r.Ok? ==>
        var c := Block(mmap(ChunkSize(Rounded(s0))).a, ChunkSize(Rounded(s0)));
        (f == Inserted(old(free), c) && i == Place(old(free), c.addr) && mapped == old(mapped) + Bytes(c))
      ensures r.Ok? ==> i < |f| && Rounded(s0) <= f[i].size && free == Left(f, i, Rounded(s0), perm)
      ensures r.Ok? ==> var t := Taken(f, i, Rounded(s0), perm);
        (used == old(used) + {t} && t !in old(used) && r.x == t.addr + HEADER && t.size == Rounded(s0))
    {
      hide Sound, Linked, Marked, Bytes, Place, Inserted, FirstFit, Left, Taken;
      var s := Rounded(s0);
      var ap, a;
      ap, a, i := Search(s);
      f := free;
      if a == 0 {
        var cs := RoundChunk(s);
        var chunk := mmap(cs);
        if chunk.NoChunk? {
          return NoMemory, f, i;
        }
        if chunk.MapFailed? {
          return BadStore, f, i;
        }
        a := chunk.a;
        ap, i := AddChunk(a, cs, s);
        f := free;
      }
      var t := Carve(ap, a, i, s, perm);
      return Ok(t + HEADER), f, i;
    }

    /** The first block of at least s bytes, and the slot that points at it. */
    method Search(s: nat) returns (ap: Addr, a: Addr, ghost i: nat)
      requires Valid()
      ensures i == FirstFit(free, s) && a == Start(free, i) && (a == 0 <==> i == |free|)
      ensures if i == 0 then ap == 0 else ap == free[i - 1].addr && ap > 0
    {
      hide ListOk, Linked, Sound, Marked, FirstFit;
      SoundList(free, used, mapped);
      ap, a, i := 0, arenas, 0;
      Header(next, size, free, used, i);
      while a != 0 && size[a] < s
        invariant 0 <= i <= |free| && a == Start(free, i) && (a == 0 <==> i == |free|)
        invariant a != 0 ==> a in size && size[a] == free[i].size && a in next && next[a] == Start(free, i + 1)
        invariant if i == 0 then ap == 0 else ap == free[i - 1].addr && ap > 0
        invariant forall j :: 0 <= j < i ==> free[j].size < s
        decreases |free| - i
      {
        ap, a, i := a, next[a], i + 1;
        Header(next, size, free, used, i);
      }
      FirstFitIs(free, s, i);
    }

    /** Links a chunk that mmap has just returned. */
    method AddChunk(a: Addr, cs: nat, ghost s: nat) returns (ap: Addr, ghost i: nat)
      requires Valid() && Good(Block(a, cs)) && mapped !! Bytes(Block(a, cs)) && s <= cs
      modifies this
      ensures Valid() && used == old(used) && mapped == old(mapped) + Bytes(Block(a, cs))
      ensures free == Inserted(old(free), Block(a, cs)) && i == Place(old(free), a) && i < |free|
      ensures free[i] == Block(a, cs)
      ensures if i == 0 then ap == 0 else ap == free[i - 1].addr && ap > 0
    {
      ghost var b := Block(a, cs);
      hide Sound, Linked, Marked, Bytes, ListOk, Good;
      ChunkSound(free, used, mapped, b);
      SoundList(free, used, mapped);
      SizeStill(next, size, free, used, a, cs);
      size := size[a := cs];
      var p;
      ap, p, i := FindSlot(a);
      Insert(a, b);
      mapped := mapped + Bytes(b);
    }

    /** Cuts s bytes out of free block a, from its high end for permanent data, and unlinks them. */
    method Carve(ap: Addr, a: Addr, ghost i: nat, s0: nat, perm: bool) returns (t: Addr)
      requires Valid() && i < |free| && a == free[i].addr && 0 < s0 <= free[i].size && s0 % 64 == 0
      requires if i == 0 then ap == 0 else ap == free[i - 1].addr && ap > 0
      modifies this
      ensures Valid() && mapped == old(mapped) && free == Left(old(free), i, s0, perm)
      ensures used == old(used) + {Taken(old(free), i, s0, perm)} && t == Taken(old(free), i, s0, perm).addr
      ensures Taken(old(free), i, s0, perm) !in old(used) && Taken(old(free), i, s0, perm).size == s0
    {
      hide Sound, Linked, Marked, Left, Lonely, Recut, Resized;
      CarveSound(free, used, mapped, i, s0, perm);
      FollowLink(next, size, free, i);
      CarveWhole(free, used, mapped, i, s0);
      SoundLonely(free, used, mapped, i);
      CarveLinks(next, size, free, used, i, s0, perm);
      CarveMarks(next, size, free, used, i, s0, perm);
      CarveStart(free, i, s0, perm);
      t := Cut(ap, a, s0, perm, free, i);
      free, used := Left(free, i, s0, perm), used + {Taken(free, i, s0, perm)};
    }

    /** The stores that do it. */
    method Cut(ap: Addr, a: Addr, s0: nat, perm: bool, ghost f: seq<Block>, ghost i: nat) returns (t: Addr)
      requires i < |f| && a == f[i].addr && a > 0 && 0 < s0 <= f[i].size && arenas == Start(f, 0)
      requires a in size && size[a] == f[i].size && a in next && next[a] == Start(f, i + 1)
      requires f[i].size < s0 + HEADER <==> s0 == f[i].size
      requires if i == 0 then ap == 0 else ap == f[i - 1].addr && ap > 0
      modifies this`arenas, this`next, this`size
      ensures next == Recut(old(next), f, i, s0, perm) && size == Resized(old(size), f, i, s0, perm)
      ensures t == Taken(f, i, s0, perm).addr
      ensures arenas == if i > 0 || (perm && s0 < f[i].size) then Start(f, 0)
                        else if s0 == f[i].size then Start(f, 1) else a + s0
    {
      var s, slot := s0, ap;
      t := a;
      if size[a] < s + HEADER {
        s := size[a];
      }
      if s < size[a] {
        if perm {
          var b := a;
          size := size[b := size[a] - s];
          t := b + size[b];
          size := size[t := s];
          next := next[t := next[b]];
          next := next[b := t];
          slot := b;
        } else {
          var b := a + s;
          next, size := next[b := next[a]], size[b := size[a] - s];
          size, next := size[a := s], next[a := b];
        }
      }
      if slot == 0 {
        arenas := next[t];
      } else {
        next := next[slot := next[t]];
      }
      next := next[t := t + HEADER];
    }

    /** dld_deallocate: false is the error for an address that does not carry the mark. */
    method Deallocate(x: Addr) returns (ok: bool)
      requires Valid() && (x != 0 ==> x >= HEADER && x - HEADER in next)
      requires x != 0 && next[x - HEADER] == x ==> x - HEADER in size && Block(x - HEADER, size[x - HEADER]) in used
      modifies this
      ensures Valid() && mapped == old(mapped)
      ensures ok <==> x == 0 || old(next)[x - HEADER] == x
      ensures x == 0 || !ok ==> free == old(free) && used == old(used)
      ensures x != 0 && ok ==> var b := Block(x - HEADER, old(size)[x - HEADER]);
        (b in old(used) && used == old(used) - {b} && free == Compacted(Inserted(old(free), b)) && NoNeighbours(free))
    {
      if x == 0 {
        return true;
      }
      var a := x - HEADER;
      if next[a] != x {
        return false;
      }
      Release(a);
      return true;
    }

    /** Puts a used block back on the free list and joins neighbours. */
    method Release(a: Addr)
      requires Valid() && a in size && Block(a, size[a]) in used
      modifies this
      ensures Valid() && mapped == old(mapped) && used == old(used) - {Block(a, old(size)[a])}
      ensures free == Compacted(Inserted(old(free), Block(a, old(size)[a]))) && NoNeighbours(free)
    {
      hide Sound, Linked, ListOk, Compacted, Inserted, Marked, NoNeighbours;
      ghost var b := Block(a, size[a]);
      ReleaseSound(free, used, mapped, b);
      CompactSound(Inserted(free, b), used - {b}, mapped);
      MarkedLess(next, size, used, b);
      used := used - {b};
      Insert(a, b);
      Compact();
    }

    /** Links block a in address order; its size word is already set. */
    method Insert(a: Addr, ghost b: Block)
      requires ListOk(free, used) && arenas == Start(free, 0) && Linked(next, size, free) && Marked(next, size, used)
      requires b.addr == a && a in size && size[a] == b.size
      requires forall c :: c in free || c in used ==> c.addr != a
      modifies this`arenas, this`next, this`free
      ensures free == Inserted(old(free), b)
      ensures arenas == Start(free, 0) && Linked(next, size, free) && Marked(next, size, used)
    {
      hide ListOk, Linked, Marked, Inserted, Place;
      var ap, p, i := FindSlot(a);
      LinkInserted(next, size, free, used, i, b);
      next := next[a := p];
      if ap == 0 {
        arenas := a;
      } else {
        next := next[ap := a];
      }
      free := Inserted(free, b);
    }

    /** The slot to store a new block's address in, and the address it holds. */
    method FindSlot(a: Addr) returns (ap: Addr, p: Addr, ghost i: nat)
      requires arenas == Start(free, 0) && Linked(next, size, free) && ListOk(free, used)
      ensures i == Place(free, a) && p == Start(free, i)
      ensures (if i == 0 then ap == 0 else ap == free[i - 1].addr && ap > 0)
    {
      PositiveAddrs(free, used);
      hide Linked, ListOk;
      ap, p, i := 0, arenas, 0;
      while p != 0 && a >= p
        invariant 0 <= i <= |free| && p == Start(free, i)
        invariant if i == 0 then ap == 0 else ap == free[i - 1].addr && ap > 0
        invariant forall j :: 0 <= j < i ==> free[j].addr <= a
        decreases |free| - i
      {
        FollowLink(next, size, free, i);
        ap, p, i := p, next[p], i + 1;
      }
      PlaceIs(free, a, i);
    }

    /** The pass after an insertion: each free block swallows the neighbours that follow it. */
    method Compact()
      requires ListOk(free, used) && arenas == Start(free, 0) && Linked(next, size, free) && Marked(next, size, used)
      modifies this`next, this`size, this`free
      ensures free == Compacted(old(free))
      ensures ListOk(free, used) && arenas == Start(free, 0) && Linked(next, size, free) && Marked(next, size, used)
    {
      hide ListOk, Linked, Marked, Compacted;
      var a := arenas;
      ghost var done: seq<Block>, rest := [], free;
      assert free == done + rest;
      while a != 0
        invariant free == done + rest && a == Start(rest, 0) && arenas == Start(free, 0)
        invariant Compacted(old(free)) == done + Compacted(rest)
        invariant ListOk(free, used) && Linked(next, size, free) && Marked(next, size, used)
        decreases |rest|
      {
        FollowRest(next, size, free, used, done, rest);
        while a + size[a] == next[a]
          invariant free == done + rest && rest != [] && a == rest[0].addr && arenas == Start(free, 0)
          invariant Compacted(old(free)) == done + Compacted(rest)
          invariant ListOk(free, used) && Linked(next, size, free) && Marked(next, size, used)
          invariant a in next && a in size && size[a] == rest[0].size && next[a] == Start(rest, 1) && a > 0
          decreases |rest|
        {
          assert |rest| > 1;
          FollowRest(next, size, free, used, done, rest);
          JoinAt(next, size, free, used, done, rest);
          assert size[a] + size[next[a]] == Joined(rest[0], rest[1]).size && next[next[a]] == Start(rest, 2);
          size, next := size[a := size[a] + size[next[a]]], next[a := next[next[a]]];
          rest := [Joined(rest[0], rest[1])] + rest[2..];
          free := done + rest;
          FollowRest(next, size, free, used, done, rest);
        }
        CompactedStep(rest);
        a := next[a];
        done, rest := done + [rest[0]], rest[1..];
        assert free == done + rest;
      }
      if rest != [] {
        FollowRest(next, size, free, used, done, rest);
      }
      CompactedNil(rest);
      assert done + Compacted(rest) == free;
    }
  }

  lemma CompactedNil(f: seq<Block>)
    ensures f == [] ==> Compacted(f) == []
  {
  }

  lemma CompactedStep(f: seq<Block>)
    requires f != [] && (|f| == 1 || End(f[0]) != f[1].addr)
    ensures Compacted(f) == [f[0]] + Compacted(f[1..])
  {
  }

  lemma FollowRest(next: map<Addr, Addr>, size: map<Addr, nat>, f: seq<Block>, used: set<Block>, done: seq<Block>,
                   rest: seq<Block>)
    requires ListOk(f, used) && Linked(next, size, f) && f == done + rest && rest != []
    ensures var a := rest[0].addr;
      a > 0 && a in next && a in size && size[a] == rest[0].size && next[a] == Start(rest, 1)
    ensures |rest| > 1 ==> rest[1].addr in next && rest[1].addr in size && size[rest[1].addr] == rest[1].size
    ensures |rest| > 1 ==> next[rest[1].addr] == Start(rest, 2) && rest[1].addr > 0
  {
    assert f[|done|] == rest[0] && rest[0] in f;
    if |rest| > 1 {
      assert f[|done| + 1] == rest[1] && rest[1] in f;
      assert |rest| > 2 ==> f[|done| + 2] == rest[2];
    }
  }

  lemma Header(next: map<Addr, Addr>, size: map<Addr, nat>, f: seq<Block>, used: set<Block>, i: nat)
    requires ListOk(f, used) && Linked(next, size, f)
    ensures i < |f| ==>
      && f[i].addr in next && f[i].addr in size && f[i].addr > 0
      && size[f[i].addr] == f[i].size && next[f[i].addr] == Start(f, i + 1)
  {
    if i < |f| {
      assert f[i] in f;
    }
  }

  lemma FollowLink(next: map<Addr, Addr>, size: map<Addr, nat>, f: seq<Block>, i: nat)
    requires Linked(next, size, f) && i < |f|
    ensures f[i].addr in next && f[i].addr in size && size[f[i].addr] == f[i].size && next[f[i].addr] == Start(f, i + 1)
  {
  }

  /** The first block of rest swallows the second. */
  lemma JoinAt(next: map<Addr, Addr>, size: map<Addr, nat>, f: seq<Block>, used: set<Block>, done: seq<Block>,
               rest: seq<Block>)
    requires ListOk(f, used) && Linked(next, size, f) && Marked(next, size, used) && f == done + rest
    requires |rest| > 1 && End(rest[0]) == rest[1].addr
    ensures var m, a := Joined(rest[0], rest[1]), rest[0].addr;
      var g := done + ([m] + rest[2..]);
      (ListOk(g, used) && Linked(next[a := Start(rest, 2)], size[a := m.size], g)
       && Marked(next[a := Start(rest, 2)], size[a := m.size], used))
    ensures Compacted([Joined(rest[0], rest[1])] + rest[2..]) == Compacted(rest)
  {
    hide ListOk, Linked, Marked, Compacted;
    JoinList(f, used, done, rest);
    JoinLinks(next, size, f, done, rest) by {
      JoinAlone(f, used, done, rest);
    }
    JoinUsed(f, used, done, rest);
    MarkedStill(next, size, used, rest[0].addr, Start(rest, 2), Joined(rest[0], rest[1]).size);
    CompactedJoin(rest);
  }

  lemma JoinUsed(f: seq<Block>, used: set<Block>, done: seq<Block>, rest: seq<Block>)
    requires ListOk(f, used) && f == done + rest && |rest| > 0
    ensures forall b :: b in used ==> b.addr != rest[0].addr
  {
    assert f[|done|] == rest[0] && f[|done|] in f;
  }

  lemma MarkedStill(next: map<Addr, Addr>, size: map<Addr, nat>, used: set<Block>, a: Addr, v: Addr, s: nat)
    requires Marked(next, size, used) && forall b :: b in used ==> b.addr != a
    ensures Marked(next[a := v], size[a := s], used)
  {
  }

  lemma CompactedJoin(f: seq<Block>)
    requires |f| > 1 && End(f[0]) == f[1].addr
    ensures Compacted([Joined(f[0], f[1])] + f[2..]) == Compacted(f)
  {
  }

  lemma JoinList(f: seq<Block>, used: set<Block>, done: seq<Block>, rest: seq<Block>)
    requires ListOk(f, used) && f == done + rest && |rest| > 1 && End(rest[0]) == rest[1].addr
    ensures ListOk(done + ([Joined(rest[0], rest[1])] + rest[2..]), used)
  {
    var g := [Joined(rest[0], rest[1])] + rest[2..];
    assert forall c :: c in f <==> c in done || c in rest;
    SortedParts(done, rest);
    JoinedSorted(rest);
    assert forall k :: 0 < k < |g| ==> g[k] == rest[k + 1];
    forall c | c in g ensures Good(c) && forall d :: d in used ==> c.addr != d.addr {
      assert rest[0] in rest && (c == g[0] || c in Members(rest));
    }
    hide Good;
    SortedWhole(done, g);
  }

  lemma SortedParts(lo: seq<Block>, hi: seq<Block>)
    requires Sorted(lo + hi)
    ensures Sorted(lo) && Sorted(hi) && forall j, k :: 0 <= j < |lo| && 0 <= k < |hi| ==> End(lo[j]) <= hi[k].addr
  {
    var f := lo + hi;
    assert forall j :: 0 <= j < |lo| ==> f[j] == lo[j];
    forall k | 0 <= k < |hi| ensures f[|lo| + k] == hi[k] && forall j :: 0 <= j < |lo| ==> End(lo[j]) <= hi[k].addr {
    }
    forall j, k | 0 <= j < k < |hi| ensures End(hi[j]) <= hi[k].addr {
      assert f[|lo| + j] == hi[j] && f[|lo| + k] == hi[k];
    }
  }

  lemma SortedWhole(lo: seq<Block>, hi: seq<Block>)
    requires Sorted(lo) && Sorted(hi) && forall j, k :: 0 <= j < |lo| && 0 <= k < |hi| ==> End(lo[j]) <= hi[k].addr
    ensures Sorted(lo + hi)
  {
    var f := lo + hi;
    assert forall k :: 0 <= k < |f| ==> f[k] == if k < |lo| then lo[k] else hi[k - |lo|];
  }

  lemma JoinAlone(f: seq<Block>, used: set<Block>, done: seq<Block>, rest: seq<Block>)
    requires ListOk(f, used) && f == done + rest && |rest| > 0
    ensures forall k :: 0 <= k < |f| && k != |done| ==> f[k].addr != rest[0].addr
  {
    SortedOnce(f);
    assert f[|done|] == rest[0];
  }

  lemma JoinLinks(next: map<Addr, Addr>, size: map<Addr, nat>, f: seq<Block>, done: seq<Block>, rest: seq<Block>)
    requires Linked(next, size, f) && f == done + rest && |rest| > 1
    requires forall k :: 0 <= k < |f| && k != |done| ==> f[k].addr != rest[0].addr
    ensures var m, a := Joined(rest[0], rest[1]), rest[0].addr;
      Linked(next[a := Start(rest, 2)], size[a := m.size], done + ([m] + rest[2..]))
  {
    var i, m, a := |done|, Joined(rest[0], rest[1]), rest[0].addr;
    var g, n, z := done + ([m] + rest[2..]), next[a := Start(rest, 2)], size[a := m.size];
    forall k | 0 <= k < |g|
      ensures g[k].addr in n && g[k].addr in z && z[g[k].addr] == g[k].size && n[g[k].addr] == Start(g, k + 1)
    {
      if k < i {
        assert g[k] == f[k];
        assert g[k + 1].addr == f[k + 1].addr;
      } else if k == i {
        assert g[k] == m;
        assert k + 1 < |g| ==> g[k + 1] == rest[2];
      } else {
        assert g[k] == f[k + 1];
        assert k + 1 < |g| ==> g[k + 1] == f[k + 2];
      }
    }
  }

  /** The mark on a header tells used from free, except for a free block of bare header size
      whose right neighbour is free too; after a deallocation there is none. */
  lemma MarkTells(next: map<Addr, Addr>, size: map<Addr, nat>, f: seq<Block>, used: set<Block>, mapped: set<Addr>,
                  i: nat)
    requires Sound(f, used, mapped) && Linked(next, size, f) && i < |f|
    ensures f[i].addr in next
    ensures next[f[i].addr] == f[i].addr + HEADER <==> i + 1 < |f| && End(f[i]) == f[i + 1].addr && f[i].size == HEADER
    ensures NoNeighbours(f) ==> next[f[i].addr] != f[i].addr + HEADER
  {
    FreeGood(f, used, mapped);
    assert f[i] in f;
    if i + 1 < |f| {
      assert End(f[i]) <= f[i + 1].addr;
    }
  }
}
