/** Hash tables keyed by eq_test or by address (src/htable.c:187-213, src/htable.c:332-363,
    src/htable.c:400-563, src/htable.c:584-600). */
module HashTable {
  import opened Basics
  import opened ObjectHash

  datatype Elt = Elt(hash: Word, key: Ref, value: Ref)

  datatype Key = Pointer(r: Ref) | Structure(t: Tree)

  /** The objects in use, none of which changes while it is a key, and the kind of table. */
  datatype World = World(env: Env, heap: Heap, rank: map<Ref, nat>, byPointer: bool)

  ghost predicate Settled(w: World) { Acyclic(w.heap, w.rank) && Lawful(w.env) }

  ghost function Shape(w: World, r: Ref): Tree
    requires Settled(w) && Known(w.heap, r)
  {
    TreeOf(w.env, w.heap, w.rank, r)
  }

  ghost function KeyOf(w: World, r: Ref): Key
    requires Settled(w) && Known(w.heap, r)
  {
    if w.byPointer then Pointer(r) else Structure(Shape(w, r))
  }

  ghost function HashOf(w: World, r: Ref): Word
    requires Settled(w) && Known(w.heap, r)
  {
    if w.byPointer then HashPointer(w.env, r) else HashTree(w.env, 0, Shape(w, r))
  }

  function Number(hash: Word): nat { hash as nat }

  function Remainder(n: nat, size: nat): (i: nat)
    requires size > 0
    ensures i < size
  {
    n % size
  }

  function Slot(hash: Word, size: nat): (i: nat)
    requires size > 0
    ensures i < size
  {
    Remainder(Number(hash), size)
  }

  /** One key, one hash: the bucket of a key is decided by what it is keyed by. */
  lemma SameKeySameHash(w: World, p: Ref, q: Ref)
    requires Settled(w) && Known(w.heap, p) && Known(w.heap, q) && KeyOf(w, p) == KeyOf(w, q)
    ensures HashOf(w, p) == HashOf(w, q)
  {
  }

  ghost function All(t: seq<seq<Elt>>): multiset<Elt> {
    if t == [] then multiset{} else All(t[..|t| - 1]) + multiset(t[|t| - 1])
  }

  lemma {:induction false} AllUpdate(t: seq<seq<Elt>>, i: nat, c: seq<Elt>)
    requires i < |t|
    ensures All(t[i := c]) + multiset(t[i]) == All(t) + multiset(c)
  {
    var n := |t| - 1;
    if i == n {
      assert t[i := c][..n] == t[..n];
    } else {
      AllUpdate(t[..n], i, c);
      var u := t[i := c];
      assert u[..n] == t[..n][i := c] && u[n] == t[n] && t[..n][i] == t[i];
      Regroup(All(u[..n]), multiset(t[n]), multiset(t[i]), All(t[..n]), multiset(c));
    }
  }

  lemma Regroup(a: multiset<Elt>, x: multiset<Elt>, y: multiset<Elt>, b: multiset<Elt>, z: multiset<Elt>)
    requires a + y == b + z
    ensures (a + x) + y == (b + x) + z
  {
    assert (a + x) + y == (a + y) + x && (b + x) + z == (b + z) + x;
  }

  lemma {:induction false} AllHas(t: seq<seq<Elt>>, i: nat, e: Elt)
    requires i < |t| && e in t[i]
    ensures e in All(t)
  {
    if i < |t| - 1 {
      AllHas(t[..|t| - 1], i, e);
    }
  }

  lemma {:induction false} AllAt(t: seq<seq<Elt>>, e: Elt) returns (i: nat)
    requires e in All(t)
    ensures i < |t| && e in t[i]
  {
    var n := |t| - 1;
    if e in t[n] {
      i := n;
    } else {
      i := AllAt(t[..n], e);
    }
  }

  lemma {:induction false} AllEmpty(t: seq<seq<Elt>>)
    requires forall i :: 0 <= i < |t| ==> t[i] == []
    ensures All(t) == multiset{}
  {
    if t != [] {
      AllEmpty(t[..|t| - 1]);
    }
  }

  /** The elements, one for each key of the map. */
  ghost predicate Stands(w: World, all: multiset<Elt>, m: map<Key, Elt>)
    requires Settled(w)
  {
    && (forall e :: e in all ==> all[e] == 1 && Sane(w, e) && KeyOf(w, e.key) in m && m[KeyOf(w, e.key)] == e)
    && (forall k :: k in m ==> m[k] in all && Known(w.heap, m[k].key) && KeyOf(w, m[k].key) == k)
    && |all| == |m|
  }

  ghost predicate Sane(w: World, e: Elt) { Known(w.heap, e.key) && Known(w.heap, e.value) && e.value != 0 }

  /** The map a table stands for. */
  ghost function Values(m: map<Key, Elt>): map<Key, Ref> { map k | k in m :: m[k].value }

  /** Every element carries its hash and sits in the bucket of that hash. */
  ghost predicate Placed(w: World, t: seq<seq<Elt>>)
    requires Settled(w) && |t| > 0
  {
    forall c, e :: 0 <= c < |t| && e in t[c] ==>
      (Known(w.heap, e.key) && e.hash == HashOf(w, e.key) && Slot(e.hash, |t|) == c)
  }

  lemma StandsInsert(w: World, all: multiset<Elt>, m: map<Key, Elt>, e: Elt)
    requires Settled(w) && Stands(w, all, m) && Sane(w, e) && KeyOf(w, e.key) !in m
    ensures Stands(w, all + multiset{e}, m[KeyOf(w, e.key) := e])
  {
    hide KeyOf;
    assert e !in all;
    assert forall f :: f in all + multiset{e} <==> f in all || f == e;
  }

  lemma StandsRemove(w: World, all: multiset<Elt>, m: map<Key, Elt>, e: Elt)
    requires Settled(w) && Stands(w, all, m) && e in all
    ensures Stands(w, all - multiset{e}, m - {KeyOf(w, e.key)})
  {
    hide KeyOf;
    var k := KeyOf(w, e.key);
    assert forall f :: f in all - multiset{e} <==> f in all && f != e;
    assert m == (m - {k})[k := e];
  }

  /** Rewriting the value or the stored hash of one element. */
  lemma StandsRewrite(w: World, all: multiset<Elt>, m: map<Key, Elt>, e: Elt, e': Elt)
    requires Settled(w) && Stands(w, all, m) && e in all && e'.key == e.key && Sane(w, e')
    ensures Known(w.heap, e.key) && Stands(w, all - multiset{e} + multiset{e'}, m[KeyOf(w, e.key) := e'])
  {
    hide Stands, KeyOf, Sane;
    StandsKey(w, all, m, e);
    SaneKey(w, e);
    SaneKey(w, e');
    StandsRemove(w, all, m, e);
    StandsInsert(w, all - multiset{e}, m - {KeyOf(w, e.key)}, e');
    assert (m - {KeyOf(w, e.key)})[KeyOf(w, e.key) := e'] == m[KeyOf(w, e.key) := e'];
  }

  lemma SaneKey(w: World, e: Elt)
    requires Sane(w, e)
    ensures Known(w.heap, e.key) && Known(w.heap, e.value) && e.value != 0
  {
  }

  lemma StandsKey(w: World, all: multiset<Elt>, m: map<Key, Elt>, e: Elt)
    requires Settled(w) && Stands(w, all, m) && e in all
    ensures Sane(w, e) && KeyOf(w, e.key) in m && m[KeyOf(w, e.key)] == e
  {
  }

  /** A bucket that loses or gains one element, or has one rewritten. */
  lemma BucketPush(t: seq<seq<Elt>>, i: nat, e: Elt)
    requires i < |t|
    ensures All(t[i := [e] + t[i]]) == All(t) + multiset{e}
  {
    AllUpdate(t, i, [e] + t[i]);
    assert multiset([e] + t[i]) == multiset{e} + multiset(t[i]);
    assert All(t[i := [e] + t[i]]) + multiset(t[i]) == All(t) + multiset{e} + multiset(t[i]);
    Cancel(All(t[i := [e] + t[i]]), All(t) + multiset{e}, multiset(t[i]));
  }

  lemma BucketDrop(t: seq<seq<Elt>>, i: nat, k: nat)
    requires i < |t| && k < |t[i]|
    ensures All(t[i := t[i][..k] + t[i][k + 1..]]) == All(t) - multiset{t[i][k]} && t[i][k] in All(t)
  {
    hide All;
    var rest := t[i][..k] + t[i][k + 1..];
    AllHas(t, i, t[i][k]);
    AllUpdate(t, i, rest);
    assert t[i] == t[i][..k] + [t[i][k]] + t[i][k + 1..];
    assert multiset(t[i]) == multiset(rest) + multiset{t[i][k]};
    assert All(t[i := rest]) + multiset{t[i][k]} + multiset(rest) == All(t) + multiset(rest);
    Cancel(All(t[i := rest]) + multiset{t[i][k]}, All(t), multiset(rest));
  }

  lemma BucketRewrite(t: seq<seq<Elt>>, i: nat, k: nat, e: Elt)
    requires i < |t| && k < |t[i]|
    ensures All(t[i := t[i][k := e]]) == All(t) - multiset{t[i][k]} + multiset{e} && t[i][k] in All(t)
  {
    hide All;
    var c := t[i][k := e];
    AllHas(t, i, t[i][k]);
    AllUpdate(t, i, c);
    SwapOne(t[i], k, e);
    Exchange(All(t[i := c]), All(t), multiset(t[i]), multiset(c), multiset{t[i][k]}, multiset{e});
  }

  lemma SwapOne(s: seq<Elt>, k: nat, e: Elt)
    requires k < |s|
    ensures multiset(s[k := e]) + multiset{s[k]} == multiset(s) + multiset{e}
  {
    var a, b := s[..k], s[k + 1..];
    assert s == a + ([s[k]] + b) && s[k := e] == a + ([e] + b);
  }

  lemma Exchange(u: multiset<Elt>, t: multiset<Elt>, m: multiset<Elt>, c: multiset<Elt>, x: multiset<Elt>,
                 e: multiset<Elt>)
    requires u + m == t + c && c + x == m + e && x <= t
    ensures u == t - x + e
  {
    assert (u + x) + m == (t + c) + x == t + (c + x) == (t + e) + m;
    Cancel(u + x, t + e, m);
    assert (u + x) - x == u && (t + e) - x == t - x + e;
  }

  lemma Cancel(a: multiset<Elt>, b: multiset<Elt>, x: multiset<Elt>)
    requires a + x == b + x
    ensures a == b
  {
    assert a == (a + x) - x && b == (b + x) - x;
  }

  class Table {
    const w: World
    var table: array<seq<Elt>>
    var nelems: nat
    var rehashp: bool
    ghost var model: map<Key, Elt>

    ghost predicate Valid()
      reads this, table
    {
      && table.Length >= 2 && Settled(w) && Stands(w, All(table[..]), model)
      && nelems == |model| && (!rehashp ==> Placed(w, table[..]))
    }

    /** new_htable. */
    constructor (w: World, n: int)
      requires Settled(w)
      ensures Valid() && this.w == w && model == map[] && !rehashp && fresh(table)
      ensures table.Length == if n < 16 then 31 else 2 * n - 1
    {
      this.w, nelems, rehashp, model := w, 0, false, map[];
      var size: nat := if n < 16 then 31 else n * 2 - 1;
      table := new seq<Elt>[size](i => []);
      new;
      AllEmpty(table[..]);
    }

    method Hash(key: Ref) returns (hash: Word)
      requires Settled(w) && Known(w.heap, key)
      ensures hash == HashOf(w, key)
    {
      if w.byPointer {
        hash := HashPointer(w.env, key);
      } else {
        hash := HashValue(w.env, w.heap, key, {}, w.rank);
      }
    }

    /** The walk along a bucket: the position of the key, or the end. */
    method Search(key: Ref, hash: Word) returns (c: nat, i: nat)
      requires Valid() && !rehashp && Known(w.heap, key) && hash == HashOf(w, key)
      ensures c < table.Length && c == Slot(hash, table.Length) && i <= |table[c]|
      ensures i < |table[c]| <==> KeyOf(w, key) in model
      ensures i < |table[c]| ==> table[c][i] == model[KeyOf(w, key)] && table[c][i] in All(table[..])
      ensures i < |table[c]| ==> Known(w.heap, table[c][i].key) && KeyOf(w, table[c][i].key) == KeyOf(w, key)
    {
      hide Stands, KeyOf, HashOf, All, Placed, Acyclic;
      c, i := Slot(hash, table.Length), 0;
      while i < |table[c]|
        invariant i <= |table[c]|
        invariant forall k :: 0 <= k < i ==>
          Known(w.heap, table[c][k].key) && KeyOf(w, table[c][k].key) != KeyOf(w, key)
      {
        var e := table[c][i];
        InBucket(w, table[..], model, c, i, key);
        if key == e.key {
          return;
        }
        if !w.byPointer && hash == e.hash {
          var same := EqTest(w.env, w.heap, key, e.key, {}, w.rank);
          SameKey(w, key, e.key);
          if same {
            return;
          }
        }
        DifferentKey(w, key, e.key, hash, e.hash);
        i := i + 1;
      }
      NotThere(w, table[..], model, key);
    }

    method Replace(c: nat, i: nat, value: Ref)
      requires Valid() && !rehashp && c < table.Length && i < |table[c]| && value != 0 && Known(w.heap, value)
      modifies this`model, table
      ensures Valid() && Known(w.heap, old(table[c][i]).key)
      ensures Values(model) == old(Values(model))[KeyOf(w, old(table[c][i]).key) := value]
    {
      hide Stands, KeyOf, HashOf, All, Placed, Acyclic, Lawful, Values;
      ghost var t, e := table[..], table[c][i];
      var e' := table[c][i].(value := value);
      BucketRewrite(t, c, i, e');
      StandsKey(w, All(t), model, e);
      SaneKey(w, e);
      StandsRewrite(w, All(t), model, e, e');
      PlacedAt(w, t, c, e);
      PlacedBucket(w, t, c, t[c][i := e']);
      ValuesPut(model, KeyOf(w, e.key), e');
      SameSize(model, KeyOf(w, e.key), e');
      table[c] := table[c][i := e'];
      assert table[..] == t[c := t[c][i := e']];
      model := model[KeyOf(w, e.key) := e'];
    }

    method Remove(c: nat, i: nat)
      requires Valid() && !rehashp && c < table.Length && i < |table[c]|
      modifies this`model, this`nelems, table
      ensures Valid() && Known(w.heap, old(table[c][i]).key)
      ensures Values(model) == old(Values(model)) - {KeyOf(w, old(table[c][i]).key)}
    {
      hide Stands, KeyOf, HashOf, All, Placed, Acyclic, Lawful, Values;
      ghost var t, e := table[..], table[c][i];
      var rest := table[c][..i] + table[c][i + 1..];
      BucketDrop(t, c, i);
      StandsKey(w, All(t), model, e);
      SaneKey(w, e);
      StandsRemove(w, All(t), model, e);
      PlacedBucket(w, t, c, rest);
      ValuesDrop(model, KeyOf(w, e.key));
      table[c] := rest;
      assert table[..] == t[c := rest];
      model := model - {KeyOf(w, e.key)};
      nelems := nelems - 1;
    }

    /** A new element goes in front of its bucket. */
    method Add(hash: Word, key: Ref, value: Ref)
      requires Valid() && !rehashp && Known(w.heap, key) && Known(w.heap, value) && value != 0
      requires hash == HashOf(w, key) && KeyOf(w, key) !in model
      modifies this`model, this`nelems, table
      ensures Valid() && Values(model) == old(Values(model))[KeyOf(w, key) := value]
    {
      hide Stands, KeyOf, HashOf, All, Placed, Acyclic, Lawful, Values;
      ghost var t := table[..];
      var e, c := Elt(hash, key, value), Slot(hash, table.Length);
      BucketPush(t, c, e);
      StandsInsert(w, All(t), model, e) by {
        assert Sane(w, e);
      }
      PlacedBucket(w, t, c, [e] + t[c]);
      ValuesPut(model, KeyOf(w, key), e);
      table[c] := [e] + table[c];
      assert table[..] == t[c := [e] + t[c]];
      model := model[KeyOf(w, key) := e];
      nelems := nelems + 1;
    }

    /** htable_resize: moves every element to its bucket in a table of another size. */
    method Resize(newsize: nat)
      requires table.Length > 0 && newsize > 0
      modifies this`table
      ensures fresh(table) && table.Length == newsize && All(table[..]) == old(All(table[..])) && Bucketed(table[..])
    {
      hide All;
      var newtable := new seq<Elt>[newsize](i => []);
      AllEmpty(newtable[..]);
      var i := 0;
      NoBuckets(table[..]);
      while i < table.Length
        invariant 0 <= i <= table.Length && fresh(newtable) && newtable.Length == newsize
        invariant table == old(table) && table[..] == old(table[..])
        invariant All(newtable[..]) == All(table[..][..i]) && Bucketed(newtable[..])
      {
        var n := table[i];
        MoveChain(newtable, n);
        NextBucket(table[..], i);
        i := i + 1;
      }
      assert table[..][..i] == table[..];
      table := newtable;
    }

    /** htable_rehash, for a table whose stored hash numbers may be stale. */
    method Rehash()
      requires Valid()
      modifies this, table
      ensures Valid() && !rehashp && fresh(table) && table.Length == old(table.Length) && nelems == old(nelems)
      ensures Values(model) == old(Values(model))
    {
      hide Stands, KeyOf, HashOf, All, Acyclic, Lawful, Values, Placed;
      var c := 0;
      while c < table.Length
        invariant 0 <= c <= table.Length && table == old(table)
        invariant Stands(w, All(table[..]), model) && nelems == old(nelems) == |model|
        invariant Values(model) == old(Values(model))
        invariant forall j, e :: 0 <= j < c && e in table[j] ==> Known(w.heap, e.key) && e.hash == HashOf(w, e.key)
        modifies this`model, table
      {
        RehashBucket(c);
        c := c + 1;
      }
      HashedAll(w, table[..]);
      Resize(table.Length);
      HashedPlaced(w, table[..]);
      rehashp := false;
    }

    method RehashBucket(c: nat)
      requires Settled(w) && c < table.Length && Stands(w, All(table[..]), model)
      modifies this`model, table
      ensures Stands(w, All(table[..]), model) && |model| == |old(model)| && Values(model) == old(Values(model))
      ensures forall j :: 0 <= j < table.Length && j != c ==> table[j] == old(table[j])
      ensures forall e :: e in table[c] ==> Known(w.heap, e.key) && e.hash == HashOf(w, e.key)
    {
      hide Stands, KeyOf, HashOf, All, Acyclic, Lawful, Values;
      var i := 0;
      while i < |table[c]|
        invariant 0 <= i <= |table[c]| && |table[c]| == |old(table[c])|
        invariant Stands(w, All(table[..]), model) && |model| == |old(model)| && Values(model) == old(Values(model))
        invariant forall j :: 0 <= j < table.Length && j != c ==> table[j] == old(table[j])
        invariant forall k :: 0 <= k < i ==>
          Known(w.heap, table[c][k].key) && table[c][k].hash == HashOf(w, table[c][k].key)
      {
        ghost var t := table[..];
        var e := table[c][i];
        AllHas(t, c, e);
        StandsKey(w, All(t), model, e);
        SaneKey(w, e);
        var hash := Hash(e.key);
        var e' := e.(hash := hash);
        BucketRewrite(t, c, i, e');
        StandsRewrite(w, All(t), model, e, e');
        ValuesPut(model, KeyOf(w, e.key), e');
        ValuesSame(model, KeyOf(w, e.key), e');
        SameSize(model, KeyOf(w, e.key), e');
        table[c] := table[c][i := e'];
        assert table[..] == t[c := t[c][i := e']];
        model := model[KeyOf(w, e.key) := e'];
        i := i + 1;
      }
    }

    /** Doubles the table while it is too full for one more element. */
    method Grow()
      requires Valid() && !rehashp
      modifies this`table
      ensures Valid() && (table == old(table) || fresh(table)) && 2 * table.Length >= 3 * nelems
    {
      hide Stands, KeyOf, HashOf, All, Placed, Acyclic, Lawful;
      while 2 * table.Length < 3 * nelems
        invariant Valid() && (table == old(table) || fresh(table))
        decreases 3 * nelems - 2 * table.Length
      {
        PlacedAll(w, table[..]);
        Resize(2 * table.Length - 1);
        HashedPlaced(w, table[..]);
      }
    }

    /** What the table stands for: keys to values. */
    ghost function Contents(): map<Key, Ref>
      reads this
    {
      Values(model)
    }

    /** htable_get; NIL when the key is not there. */
    method Get(key: Ref) returns (value: Ref)
      requires Valid() && Known(w.heap, key)
      modifies this, table
      ensures Valid() && Contents() == old(Contents()) && (table == old(table) || fresh(table)) && nelems == old(nelems)
      ensures KeyOf(w, key) in Contents() ==> value == Contents()[KeyOf(w, key)] && value != 0 && Known(w.heap, value)
      ensures KeyOf(w, key) !in Contents() ==> value == 0
    {
      hide Stands, KeyOf, HashOf, All, Placed, Acyclic, Lawful, Values;
      if rehashp {
        Rehash();
      }
      var hash := Hash(key);
      var c, i := Search(key, hash);
      ValuesAt(model, KeyOf(w, key));
      if i < |table[c]| {
        StandsKey(w, All(table[..]), model, table[c][i]);
        SaneKey(w, table[c][i]);
        return table[c][i].value;
      }
      return 0;
    }

    /** htable_set; NIL as a value removes the key. */
    method Set(key: Ref, value: Ref)
      requires Valid() && Known(w.heap, key) && Known(w.heap, value)
      modifies this, table
      ensures Valid() && (table == old(table) || fresh(table))
      ensures Contents() ==
        if value != 0 then old(Contents())[KeyOf(w, key) := value] else old(Contents()) - {KeyOf(w, key)}
    {
      hide Stands, KeyOf, HashOf, All, Placed, Acyclic, Lawful;
      if rehashp {
        Rehash();
      }
      var hash := Hash(key);
      var c, i := Search(key, hash);
      ghost var k := KeyOf(w, key);
      if i < |table[c]| {
        if value != 0 {
          Replace(c, i, value);
        } else {
          Remove(c, i);
        }
      } else if value != 0 {
        Grow();
        Add(hash, key, value);
      } else {
        ValuesAt(model, k);
        assert old(Contents()) - {k} == old(Contents());
      }
    }
  }

  /** Each element sits in the bucket of its stored hash. */
  ghost predicate Bucketed(t: seq<seq<Elt>>)
    requires |t| > 0
  {
    forall c, e :: 0 <= c < |t| && e in t[c] ==> Slot(e.hash, |t|) == c
  }

  /** Pushes the elements of a chain, front first, on the buckets of a new table. */
  method MoveChain(newtable: array<seq<Elt>>, n0: seq<Elt>)
    requires newtable.Length > 0 && Bucketed(newtable[..])
    modifies newtable
    ensures Bucketed(newtable[..]) && All(newtable[..]) == old(All(newtable[..])) + multiset(n0)
  {
    hide All, Slot;
    var k := 0;
    while k < |n0|
      invariant 0 <= k <= |n0| && Bucketed(newtable[..])
      invariant All(newtable[..]) == old(All(newtable[..])) + multiset(n0[..k])
    {
      ghost var t := newtable[..];
      var j := Slot(n0[k].hash, newtable.Length);
      BucketPush(t, j, n0[k]);
      newtable[j] := [n0[k]] + newtable[j];
      assert newtable[..] == t[j := [n0[k]] + t[j]];
      assert n0[..k + 1] == n0[..k] + [n0[k]];
      k := k + 1;
    }
    assert n0[..k] == n0;
  }

  lemma NoBuckets(t: seq<seq<Elt>>)
    ensures All(t[..0]) == multiset{}
  {
  }

  lemma NextBucket(t: seq<seq<Elt>>, i: nat)
    requires i < |t|
    ensures All(t[..i + 1]) == All(t[..i]) + multiset(t[i])
  {
    assert t[..i + 1][..i] == t[..i];
  }

  lemma HashedAll(w: World, t: seq<seq<Elt>>)
    requires Settled(w)
    requires forall j, e :: 0 <= j < |t| && e in t[j] ==> Known(w.heap, e.key) && e.hash == HashOf(w, e.key)
    ensures forall e :: e in All(t) ==> Known(w.heap, e.key) && e.hash == HashOf(w, e.key)
  {
    hide HashOf, All;
    forall e | e in All(t) ensures Known(w.heap, e.key) && e.hash == HashOf(w, e.key) {
      var j := AllAt(t, e);
    }
  }

  lemma HashedPlaced(w: World, t: seq<seq<Elt>>)
    requires Settled(w) && |t| > 0 && Bucketed(t)
    requires forall e :: e in All(t) ==> Known(w.heap, e.key) && e.hash == HashOf(w, e.key)
    ensures Placed(w, t)
  {
    hide HashOf, All, Slot;
    forall c, e | 0 <= c < |t| && e in t[c] ensures e in All(t) {
      AllHas(t, c, e);
    }
  }

  lemma PlacedAll(w: World, t: seq<seq<Elt>>)
    requires Settled(w) && |t| > 0 && Placed(w, t)
    ensures forall e :: e in All(t) ==> Known(w.heap, e.key) && e.hash == HashOf(w, e.key)
  {
    hide HashOf, All, Slot;
    forall e | e in All(t) ensures Known(w.heap, e.key) && e.hash == HashOf(w, e.key) {
      var j := AllAt(t, e);
    }
  }

  lemma PlacedAt(w: World, t: seq<seq<Elt>>, c: nat, e: Elt)
    requires Settled(w) && |t| > 0 && Placed(w, t) && c < |t| && e in t[c]
    ensures Known(w.heap, e.key) && e.hash == HashOf(w, e.key) && Slot(e.hash, |t|) == c
  {
  }

  lemma PlacedBucket(w: World, t: seq<seq<Elt>>, c: nat, chain: seq<Elt>)
    requires Settled(w) && |t| > 0 && Placed(w, t) && c < |t|
    requires forall e :: e in chain ==>
      e in t[c] || (Known(w.heap, e.key) && e.hash == HashOf(w, e.key) && Slot(e.hash, |t|) == c)
    ensures Placed(w, t[c := chain])
  {
  }

  lemma ValuesPut(m: map<Key, Elt>, k: Key, e: Elt)
    ensures Values(m[k := e]) == Values(m)[k := e.value]
  {
  }

  lemma ValuesSame(m: map<Key, Elt>, k: Key, e: Elt)
    requires k in m && m[k].value == e.value
    ensures Values(m)[k := e.value] == Values(m)
  {
  }

  lemma ValuesDrop(m: map<Key, Elt>, k: Key)
    requires k in m
    ensures Values(m - {k}) == Values(m) - {k} && |m - {k}| == |m| - 1
  {
    assert m == (m - {k})[k := m[k]];
  }

  lemma SameSize(m: map<Key, Elt>, k: Key, e: Elt)
    requires k in m
    ensures |m[k := e]| == |m|
  {
    assert m[k := e].Keys == m.Keys;
    MapSize(m);
    MapSize(m[k := e]);
  }

  lemma MapSize(m: map<Key, Elt>)
    ensures |m| == |m.Keys|
  {
  }

  lemma ValuesAt(m: map<Key, Elt>, k: Key)
    ensures (k in Values(m) <==> k in m) && (k in m ==> Values(m)[k] == m[k].value)
  {
  }

  /** What an element met in a bucket says about the map. */
  lemma InBucket(w: World, t: seq<seq<Elt>>, m: map<Key, Elt>, c: nat, i: nat, key: Ref)
    requires Settled(w) && Stands(w, All(t), m) && c < |t| && i < |t[c]| && Placed(w, t)
    ensures var e := t[c][i];
      && e in All(t) && Sane(w, e) && Known(w.heap, e.key) && KeyOf(w, e.key) in m && m[KeyOf(w, e.key)] == e
      && e.hash == HashOf(w, e.key)
    ensures Known(w.heap, key) && key == t[c][i].key ==> KeyOf(w, key) == KeyOf(w, t[c][i].key)
  {
    AllHas(t, c, t[c][i]);
    StandsKey(w, All(t), m, t[c][i]);
  }

  lemma SameKey(w: World, p: Ref, q: Ref)
    requires Settled(w) && Known(w.heap, p) && Known(w.heap, q) && !w.byPointer
    ensures KeyOf(w, p) == KeyOf(w, q) <==> TreeOf(w.env, w.heap, w.rank, p) == TreeOf(w.env, w.heap, w.rank, q)
  {
  }

  lemma DifferentKey(w: World, p: Ref, q: Ref, hp: Word, hq: Word)
    requires Settled(w) && Known(w.heap, p) && Known(w.heap, q) && hp == HashOf(w, p) && hq == HashOf(w, q) && p != q
    requires w.byPointer || hp != hq || KeyOf(w, p) != KeyOf(w, q)
    ensures KeyOf(w, p) != KeyOf(w, q)
  {
  }

  /** A key that its own bucket does not hold is nowhere in the table. */
  lemma NotThere(w: World, t: seq<seq<Elt>>, m: map<Key, Elt>, key: Ref)
    requires Settled(w) && Stands(w, All(t), m) && |t| > 0 && Placed(w, t) && Known(w.heap, key)
    requires forall e :: e in t[Slot(HashOf(w, key), |t|)] ==> Known(w.heap, e.key) && KeyOf(w, e.key) != KeyOf(w, key)
    ensures KeyOf(w, key) !in m
  {
    var k := KeyOf(w, key);
    if k in m {
      var e := m[k];
      var c := AllAt(t, e);
      SameKeySameHash(w, e.key, key);
    }
  }

  /** The table as a map from keys to structures. */
  ghost function Shapes(w: World, m: map<Key, Ref>): map<Key, Tree>
    requires Settled(w)
  {
    map k | k in m :: if Known(w.heap, m[k]) then Shape(w, m[k]) else Nil
  }

  /** The map m has, under the key of e, a value that equals e's. */
  ghost predicate Answered(w: World, m: map<Key, Ref>, e: Elt)
    requires Settled(w)
  {
    && Known(w.heap, e.key) && Known(w.heap, e.value)
    && KeyOf(w, e.key) in m && Known(w.heap, m[KeyOf(w, e.key)])
    && Shape(w, m[KeyOf(w, e.key)]) == Shape(w, e.value)
  }

  /** htable_compare, for tables of any two kinds: 0 exactly when they have as many
      elements and the second answers every key of the first with an equal value. For
      tables of one kind that is equality of the maps. */
  method Compare(p: Table, q: Table) returns (c: int)
    requires p != q && p.table != q.table && p.Valid() && q.Valid() && q.w == p.w.(byPointer := q.w.byPointer)
    modifies q, q.table
    ensures q.Valid() && q.Contents() == old(q.Contents()) && (c == 0 || c == 1)
    ensures c == 0 <==>
      |p.model| == |q.Contents()| && forall k :: k in p.model ==> Answered(q.w, q.Contents(), p.model[k])
    ensures p.w == q.w ==> (c == 0 <==> Shapes(p.w, p.Contents()) == Shapes(p.w, q.Contents()))
  {
    hide Stands, KeyOf, HashOf, All, Placed, Acyclic, Lawful, Values, Shapes, Answered;
    ghost var mq := q.Contents();
    ContentsSize(q.model);
    if p.w == q.w {
      AnsweredIff(p.w, All(p.table[..]), p.model, All(q.table[..]), q.model);
    }
    if p.nelems != q.nelems {
      return 1;
    }
    var i := 0;
    while i < p.table.Length
      invariant 0 <= i <= p.table.Length && q.Valid() && q.Contents() == mq
      invariant q.table == old(q.table) || fresh(q.table)
      invariant forall j, e :: 0 <= j < i && e in p.table[j] ==> Answered(q.w, mq, e)
    {
      var k := 0;
      while k < |p.table[i]|
        invariant 0 <= k <= |p.table[i]| && q.Valid() && q.Contents() == mq
        invariant q.table == old(q.table) || fresh(q.table)
        invariant forall e :: e in p.table[i][..k] ==> Answered(q.w, mq, e)
      {
        var n := p.table[i][k];
        AllHas(p.table[..], i, n);
        StandsKey(p.w, All(p.table[..]), p.model, n);
        SaneKey(p.w, n);
        AnsweredAt(q.w, mq, n);
        var val := q.Get(n.key);
        if val == 0 {
          return 1;
        }
        var same := EqTest(q.w.env, q.w.heap, val, n.value, {}, q.w.rank);
        if !same {
          return 1;
        }
        assert p.table[i][..k + 1] == p.table[i][..k] + [n];
        k := k + 1;
      }
      assert p.table[i][..k] == p.table[i];
      i := i + 1;
    }
    AllAnswered(p.w, q.w, p.table[..], p.model, mq);
    return 0;
  }

  lemma AnsweredAt(w: World, m: map<Key, Ref>, e: Elt)
    requires Settled(w) && Known(w.heap, e.key) && Known(w.heap, e.value)
    ensures Answered(w, m, e) ==> KeyOf(w, e.key) in m
    ensures KeyOf(w, e.key) in m && Known(w.heap, m[KeyOf(w, e.key)]) ==>
      (Answered(w, m, e) <==>
        TreeOf(w.env, w.heap, w.rank, m[KeyOf(w, e.key)]) == TreeOf(w.env, w.heap, w.rank, e.value))
  {
  }

  lemma ContentsSize(m: map<Key, Elt>)
    ensures |Values(m)| == |m|
  {
    assert Values(m).Keys == m.Keys;
    MapSize(m);
    assert |Values(m)| == |Values(m).Keys|;
  }

  lemma AllAnswered(w: World, wq: World, t: seq<seq<Elt>>, m: map<Key, Elt>, mq: map<Key, Ref>)
    requires Settled(w) && Settled(wq) && Stands(w, All(t), m)
    requires forall j, e :: 0 <= j < |t| && e in t[j] ==> Answered(wq, mq, e)
    ensures forall k :: k in m ==> Answered(wq, mq, m[k])
  {
    hide All, KeyOf, Answered, Stands;
    forall k | k in m ensures Answered(wq, mq, m[k]) {
      StandsAt(w, All(t), m, k);
      var c := AllAt(t, m[k]);
    }
  }

  /** For tables of one kind, answering every key is having the same map. */
  lemma AnsweredIff(w: World, all: multiset<Elt>, m: map<Key, Elt>, allq: multiset<Elt>, mq: map<Key, Elt>)
    requires Settled(w) && Stands(w, all, m) && Stands(w, allq, mq)
    ensures |m| == |Values(mq)| && (forall k :: k in m ==> Answered(w, Values(mq), m[k])) <==>
      Shapes(w, Values(m)) == Shapes(w, Values(mq))
  {
    hide Stands, KeyOf, Shapes, Values;
    SizeShapes(w, m);
    SizeShapes(w, mq);
    ContentsSize(mq);
    forall k | k in m
      ensures Answered(w, Values(mq), m[k]) <==> Matched(w, Values(m), Values(mq), k)
    {
      StandsValue(w, all, m, k);
      ValuesAt(m, k);
      ValuesAt(mq, k);
      ShapesAt(w, Values(m), k);
      ShapesAt(w, Values(mq), k);
      if k in mq {
        StandsValue(w, allq, mq, k);
      }
    }
    if |m| == |Values(mq)| && forall k :: k in m ==> Answered(w, Values(mq), m[k]) {
      MatchedAll(w, m, Values(mq));
    }
    if Shapes(w, Values(m)) == Shapes(w, Values(mq)) {
      forall k | k in m ensures Matched(w, Values(m), Values(mq), k) {
        ValuesAt(m, k);
        ShapesAt(w, Values(m), k);
      }
    }
  }

  lemma StandsValue(w: World, all: multiset<Elt>, m: map<Key, Elt>, k: Key)
    requires Settled(w) && Stands(w, all, m) && k in m
    ensures Known(w.heap, m[k].key) && Known(w.heap, m[k].value) && KeyOf(w, m[k].key) == k
  {
    assert m[k] in all;
  }

  /** A key with structurally equal values in both maps. */
  ghost predicate Matched(w: World, m1: map<Key, Ref>, m2: map<Key, Ref>, k: Key)
    requires Settled(w)
  {
    k in Shapes(w, m1) && k in Shapes(w, m2) && Shapes(w, m1)[k] == Shapes(w, m2)[k]
  }

  lemma ShapesAt(w: World, m: map<Key, Ref>, k: Key)
    requires Settled(w)
    ensures k in Shapes(w, m) <==> k in m
    ensures k in m && Known(w.heap, m[k]) ==> Shapes(w, m)[k] == TreeOf(w.env, w.heap, w.rank, m[k])
  {
  }

  lemma SizeShapes(w: World, m: map<Key, Elt>)
    requires Settled(w)
    ensures |Shapes(w, Values(m))| == |m|
  {
    assert Shapes(w, Values(m)).Keys == m.Keys;
    KeySize(Shapes(w, Values(m)));
    MapSize(m);
  }

  lemma KeySize(m: map<Key, Tree>)
    ensures |m| == |m.Keys|
  {
  }

  lemma MatchedAll(w: World, m: map<Key, Elt>, m2: map<Key, Ref>)
    requires Settled(w) && |Shapes(w, Values(m))| == |Shapes(w, m2)|
    requires forall k :: k in m ==> Matched(w, Values(m), m2, k)
    ensures Shapes(w, Values(m)) == Shapes(w, m2)
  {
    hide Shapes, Values;
    var s1, s2 := Shapes(w, Values(m)), Shapes(w, m2);
    forall k | k in s1 ensures k in s2 && s1[k] == s2[k] {
      ShapesAt(w, Values(m), k);
      ValuesAt(m, k);
    }
    KeySize(s1);
    KeySize(s2);
    SubsetOfSize(s1.Keys, s2.Keys);
  }

  lemma StandsAt(w: World, all: multiset<Elt>, m: map<Key, Elt>, k: Key)
    requires Settled(w) && Stands(w, all, m) && k in m
    ensures m[k] in all && Known(w.heap, m[k].key) && KeyOf(w, m[k].key) == k
  {
  }
}
