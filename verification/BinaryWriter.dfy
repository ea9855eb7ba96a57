/** The writer (src/binary.c:356-398, 796-860, 954-975). */
module BinaryWriter {
  import opened BinaryGraph
  import opened BinaryReloc

  datatype Token = REF(k: nat) | DEF(k: nat) | NIL | CONS | NUMBER(r: real) | STRING(s: string) | SYMBOL(name: string)

  /** A file: the number of relocations, then the tokens. */
  datatype Stream = Stream(relocn: nat, toks: seq<Token>)

  const CARD24 := 0x100_0000

  /** write_card24 keeps the low 24 bits of an index. */
  function Cut(tok: Token): Token {
    match tok
    case REF(k) => REF(k % CARD24)
    case DEF(k) => DEF(k % CARD24)
    case _ => tok
  }

  function CutAll(toks: seq<Token>): (r: seq<Token>)
    ensures |r| == |toks| && forall i :: 0 <= i < |toks| ==> r[i] == Cut(toks[i])
  {
    seq(|toks|, i requires 0 <= i < |toks| => Cut(toks[i]))
  }

  /** What is on file for n relocations and these tokens. */
  function File(n: nat, toks: seq<Token>): Stream { Stream(n % CARD24, CutAll(toks)) }

  function Index(t: seq<Ref>, n: Ref): (k: nat)
    requires n in t
    ensures k < |t| && t[k] == n
  {
    if t[0] == n then 0 else 1 + Index(t[1..], n)
  }

  function AtomToken(n: Node): Token
    requires !n.Cons?
  {
    match n
    case Number(r) => NUMBER(r)
    case Str(s) => STRING(s)
    case Symbol(name) => SYMBOL(name)
  }

  /** What is written for p when the nodes of V have been written. */
  ghost function Tokens(g: Graph, t: seq<Ref>, p: Ref, V: set<Ref>): seq<Token>
    requires Closed(g) && IsRef(g, p) && V <= g.Keys
    requires forall n :: n in Dfs(g, p, V).1 ==> n in t
    decreases g.Keys - V, 1
  {
    if p == 0 then [NIL]
    else if p in V then [REF(Index(t, p))]
    else if p in t then [DEF(Index(t, p))] + Body(g, t, p, V)
    else Body(g, t, p, V)
  }

  ghost function Body(g: Graph, t: seq<Ref>, p: Ref, V: set<Ref>): seq<Token>
    requires Closed(g) && p in g && p !in V && V <= g.Keys
    requires forall n :: n in Dfs(g, p, V).1 ==> n in t
    decreases g.Keys - V, 0
  {
    match g[p]
    case Cons(a, d) => [CONS] + Tokens(g, t, a, V + {p}) + Tokens(g, t, d, Dfs(g, a, V + {p}).0)
    case n => [AtomToken(n)]
  }

  /** What local_write itself emits for p. */
  ghost function Head(g: Graph, t: seq<Ref>, p: Ref, V: set<Ref>): seq<Token>
    requires IsRef(g, p) && (p in V ==> p in t)
  {
    if p == 0 then [NIL]
    else if p in V then [REF(Index(t, p))]
    else
      var tok := if g[p].Cons? then CONS else AtomToken(g[p]);
      if p in t then [DEF(Index(t, p)), tok] else [tok]
  }

  predicate Descends(g: Graph, p: Ref, V: set<Ref>) { p in g && p !in V && g[p].Cons? }

  lemma TokensAfterHead(g: Graph, t: seq<Ref>, p: Ref, V: set<Ref>)
    requires Closed(g) && IsRef(g, p) && V <= g.Keys
    requires forall n :: n in Dfs(g, p, V).1 ==> n in t
    ensures Tokens(g, t, p, V) == Head(g, t, p, V) +
      if !Descends(g, p, V) then [] else
        Tokens(g, t, g[p].car, V + {p}) + Tokens(g, t, g[p].cdr, Dfs(g, g[p].car, V + {p}).0)
  {
  }

  lemma Regroup<T>(a: seq<T>, b: seq<T>, c: seq<T>, d: seq<T>)
    ensures a + (b + (c + d)) == a + b + c + d
  {
  }

  /** The flags C_MARK and C_MULTIPLE of the objects, the relocation table and
      the file. */
  class Writer {
    const g: Graph
    const reloc: RelocTable
    var marked: set<Ref>
    var multiple: set<Ref>
    var out: seq<Token>

    ghost predicate Valid()
      reads this, reloc, reloc.relocp, reloc.relocf
    {
      && Closed(g) && marked <= g.Keys && multiple <= marked
      && reloc.Valid() && Sorted(reloc.Table())
      && forall n :: n in reloc.Table() <==> n in multiple
    }

    constructor (g: Graph)
      requires Closed(g)
      ensures Valid() && this.g == g && marked == {} && multiple == {} && out == []
      ensures fresh(reloc) && fresh(reloc.relocp) && fresh(reloc.relocf) && reloc.relocn == 0
    {
      this.g := g;
      var r := new RelocTable();
      reloc := r;
      marked, multiple, out := {}, {}, [];
    }

    /** cond_set_flags: true stops the recursion. */
    method CondSetFlags(p: Ref) returns (stop: bool)
      requires Valid() && IsRef(g, p) && AllEmpty(reloc.Flags())
      modifies this`marked, this`multiple, reloc, reloc.relocp, reloc.relocf
      ensures Valid() && AllEmpty(reloc.Flags())
      ensures stop == (p == 0 || p in old(marked))
      ensures marked == if stop then old(marked) else old(marked) + {p}
      ensures multiple == if stop && p != 0 then old(multiple) + {p} else old(multiple)
      ensures reloc.relocp == old(reloc.relocp) || fresh(reloc.relocp)
      ensures reloc.relocf == old(reloc.relocf) || fresh(reloc.relocf)
    {
      if p == 0 {
        return true;
      }
      if p in marked {
        if p !in multiple {
          var ok := reloc.Insert(p);
        }
        multiple := multiple + {p};
        return true;
      }
      marked := marked + {p};
      return false;
    }

    /** sweep(p, SRZ_SETFL) */
    method SetFlags(p0: Ref)
      requires Valid() && IsRef(g, p0) && AllEmpty(reloc.Flags())
      modifies this, reloc, reloc.relocp, reloc.relocf
      ensures Valid() && AllEmpty(reloc.Flags()) && out == old(out)
      ensures marked == Dfs(g, p0, old(marked)).0
      ensures multiple == old(multiple) + Dfs(g, p0, old(marked)).1
      ensures reloc.relocp == old(reloc.relocp) || fresh(reloc.relocp)
      ensures reloc.relocf == old(reloc.relocf) || fresh(reloc.relocf)
      decreases g.Keys - marked
    {
      var p := p0;
      while true
        invariant Valid() && IsRef(g, p) && AllEmpty(reloc.Flags()) && old(marked) <= marked && out == old(out)
        invariant marked == old(marked) ==> p == p0
        invariant Dfs(g, p0, old(marked)).0 == Dfs(g, p, marked).0
        invariant old(multiple) + Dfs(g, p0, old(marked)).1 == multiple + Dfs(g, p, marked).1
        invariant reloc.relocp == old(reloc.relocp) || fresh(reloc.relocp)
        invariant reloc.relocf == old(reloc.relocf) || fresh(reloc.relocf)
        decreases g.Keys - marked
      {
        var stop := CondSetFlags(p);
        if stop || !g[p].Cons? {
          return;
        }
        SetFlags(g[p].car);
        p := g[p].cdr;
      }
    }

    /** cond_clear_flags: true stops the recursion. */
    method CondClearFlags(p: Ref) returns (stop: bool)
      modifies this`marked, this`multiple
      ensures stop == (p == 0 || p !in old(marked))
      ensures marked == if stop then old(marked) else old(marked) - {p}
      ensures multiple == if stop then old(multiple) else old(multiple) - {p}
    {
      if p != 0 && p in marked {
        marked, multiple := marked - {p}, multiple - {p};
        return false;
      }
      return true;
    }

    /** sweep(p, SRZ_CLRFL): clears what a walk of the marked nodes meets. */
    method ClearFlags(p0: Ref)
      requires Closed(g) && IsRef(g, p0) && marked <= g.Keys
      modifies this`marked, this`multiple
      ensures marked == g.Keys - Dfs(g, p0, g.Keys - old(marked)).0
      ensures multiple == old(multiple) - (old(marked) - marked)
      decreases marked
    {
      var p := p0;
      while true
        invariant IsRef(g, p) && marked <= old(marked) && (marked == old(marked) ==> p == p0)
        invariant Dfs(g, p0, g.Keys - old(marked)).0 == Dfs(g, p, g.Keys - marked).0
        invariant multiple == old(multiple) - (old(marked) - marked)
        decreases marked
      {
        assert p in marked ==> g.Keys - (marked - {p}) == (g.Keys - marked) + {p};
        var stop := CondClearFlags(p);
        if stop || !g[p].Cons? {
          return;
        }
        ghost var V := g.Keys - marked;
        ClearFlags(g[p].car);
        assert g.Keys - marked == Dfs(g, g[p].car, V).0;
        p := g[p].cdr;
      }
    }

    /** The flag of a relocation says whether its node has been written. */
    ghost predicate FlagsSay(V: set<Ref>)
      requires reloc.Valid()
      reads this, reloc, reloc.relocp, reloc.relocf
    {
      forall k :: 0 <= k < reloc.relocn ==>
        (reloc.Flags()[k] == DEFD <==> reloc.Table()[k] in V) && reloc.Flags()[k] != REFD
    }

    /** A shared object is a definition the first time and a reference later. */
    method WriteMultiple(p: Ref, ghost W: set<Ref>) returns (seen: bool)
      requires Valid() && FlagsSay(W) && p in multiple
      modifies this`out, reloc.relocf
      ensures Valid() && reloc.Table() == old(reloc.Table()) && FlagsSay(W + {p})
      ensures p in reloc.Table() && seen == (p in W)
      ensures out == old(out) + [if seen then REF(Index(reloc.Table(), p)) else DEF(Index(reloc.Table(), p))]
    {
      var k := reloc.Search(p);
      SameIndex(reloc.Table(), k, p);
      assert reloc.Flags()[k] == reloc.relocf[k];
      if reloc.relocf[k] != EMPTY {
        out := out + [REF(k)];
        assert W == W + {p};
        return true;
      }
      out := out + [DEF(k)];
      MarkDefined(k, W, p);
      return false;
    }

    /** local_write: true stops the recursion. */
    method LocalWrite(p: Ref, ghost W: set<Ref>) returns (stop: bool)
      requires Valid() && IsRef(g, p) && W <= g.Keys && FlagsSay(W)
      requires p in W ==> p in multiple
      modifies this`out, reloc.relocf
      ensures Valid() && reloc.Table() == old(reloc.Table()) && FlagsSay(if p == 0 then W else W + {p})
      ensures out == old(out) + Head(g, reloc.Table(), p, W)
      ensures stop == !Descends(g, p, W)
    {
      if p == 0 {
        out := out + [NIL];
        return true;
      }
      if p in multiple {
        stop := WriteMultiple(p, W);
        if stop {
          return;
        }
      }
      if !g[p].Cons? {
        out := out + [AtomToken(g[p])];
        return true;
      }
      out := out + [CONS];
      return false;
    }

    /** sweep(p, SRZ_WRITE); V is the set of nodes already written. */
    method WriteTokens(p0: Ref, ghost V: set<Ref>)
      requires Valid() && IsRef(g, p0) && V <= g.Keys && FlagsSay(V)
      requires Dfs(g, p0, V).1 <= multiple
      modifies this`out, reloc.relocf
      ensures Valid() && FlagsSay(Dfs(g, p0, V).0) && reloc.Table() == old(reloc.Table())
      ensures out == old(out) + Tokens(g, reloc.Table(), p0, V)
      decreases g.Keys - V
    {
      var p := p0;
      ghost var W := V;
      ghost var t := reloc.Table();
      while true
        invariant Valid() && IsRef(g, p) && V <= W <= g.Keys && (W == V ==> p == p0) && FlagsSay(W)
        invariant reloc.Table() == t && Dfs(g, p, W).1 <= multiple
        invariant Dfs(g, p0, V).0 == Dfs(g, p, W).0
        invariant old(out) + Tokens(g, t, p0, V) == out + Tokens(g, t, p, W)
        decreases g.Keys - W
      {
        TokensAfterHead(g, t, p, W);
        assert p != 0 && p in W ==> W == W + {p};
        ghost var before := out;
        var stop := LocalWrite(p, W);
        if stop {
          return;
        }
        ghost var left, mid := Tokens(g, t, g[p].car, W + {p}), Dfs(g, g[p].car, W + {p}).0;
        ghost var right := Tokens(g, t, g[p].cdr, mid);
        WriteTokens(g[p].car, W + {p});
        Regroup(before, Head(g, t, p, W), left, right);
        p, W := g[p].cdr, mid;
      }
    }

    /** bwrite: marks, writes, and leaves every flag as it found it: clear. */
    method Bwrite(p: Ref) returns (f: Stream, ghost t: seq<Ref>)
      requires Closed(g) && IsRef(g, p) && marked == {} && multiple == {} && reloc.Valid()
      modifies this, reloc, reloc.relocp, reloc.relocf
      ensures marked == {} && multiple == {} && reloc.Valid()
      ensures Sorted(t) && Lists(t, Dfs(g, p, {}).1)
      ensures f == File(|t|, Tokens(g, t, p, {}))
    {
      out, reloc.relocn := [], 0;
      assert Valid() && AllEmpty(reloc.Flags());
      SetFlags(p);
      t := reloc.Table();
      WriteTokens(p, {});
      f := File(reloc.relocn, out);
      WrittenOnce(g, p);
      ClearFlags(p);
    }

    method MarkDefined(k: nat, ghost W: set<Ref>, ghost p: Ref)
      requires Valid() && k < reloc.relocn && FlagsSay(W) && reloc.Table()[k] == p
      modifies reloc.relocf
      ensures Valid() && FlagsSay(W + {p}) && reloc.Table() == old(reloc.Table())
    {
      reloc.relocf[k] := DEFD;
    }
  }

  lemma WrittenOnce(g: Graph, p: Ref)
    requires Closed(g) && IsRef(g, p)
    ensures g.Keys - Dfs(g, p, g.Keys - Reach(g, p)).0 == {}
  {
    var V := g.Keys - Reach(g, p);
    DfsCoversReach(g, p, V);
  }

  lemma SameIndex(t: seq<Ref>, k: int, n: Ref)
    requires Sorted(t) && 0 <= k < |t| && t[k] == n
    ensures Index(t, n) == k
  {
  }
}
