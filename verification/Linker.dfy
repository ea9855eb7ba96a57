/** Symbol bookkeeping of the dynamic linker (src/dldbfd.c:556-664, src/dldbfd.c:1277-1422,
    src/dldbfd.c:2405-2450, src/dldbfd.c:2833-2923). Names are already stripped of their
    leading character. */
module Linker {

  type Name = string
  type ModuleId = nat     // 0 is the null module

  datatype Value =
    | Nothing
    | Address(a: nat)
    | BfdSymbol(owner: ModuleId, at: nat)
    | OtherEntry(to: Name)

  /** One entry of the global symbol table. */
  datatype Entry = Entry(
    definedBy: ModuleId, definition: Value,
    defd: bool, refd: bool, bfd: bool, func: bool, alloc: bool, indirect: bool,
    refcount: int)

  const BLANK := Entry(0, Nothing, false, false, false, false, false, false, 0)

  datatype Kind =
    | Undefined
    | Defined(code: bool)        // a global, weak or indirect symbol with a value
    | Alias(to: Name)            // an indirect symbol whose target is undefined
    | Ignored                    // no flag that matters

  datatype Sym = Sym(name: Name, local: bool, kind: Kind)

  datatype Module = Module(id: ModuleId, symbols: seq<Sym>)

  type Table = map<Name, Entry>

  function At(t: Table, n: Name): Entry { if n in t then t[n] else BLANK }

  predicate Skipped(s: Sym) { s.local || s.name == "" }

  predicate Wanted(s: Sym) { !Skipped(s) && s.kind.Undefined? }

  predicate Given(s: Sym) { !Skipped(s) && (s.kind.Defined? || s.kind.Alias?) }

  /** 1 when the entry counts as undefined: referenced and not defined. */
  function Pending(e: Entry): int { if e.refd && !e.defd then 1 else 0 }

  ghost function Undef(t: Table): set<Name> { set n | n in t && t[n].refd && !t[n].defd }

  /** Undefined occurrences in a list of symbols, name by name. */
  ghost function Wants(s: seq<Sym>): multiset<Name> {
    if s == [] then multiset{}
    else if Wanted(s[0]) then multiset{s[0].name} + Wants(s[1..]) else Wants(s[1..])
  }

  ghost function AllWants(ms: seq<Module>): multiset<Name> {
    if ms == [] then multiset{} else Wants(ms[0].symbols) + AllWants(ms[1..])
  }

  /** A definition that a module offers for a name: where it is, and whether it is code. */
  datatype Def = Def(owner: ModuleId, name: Name, value: Value, code: bool)

  /** Symbol k is the first one from i on that gives its name a definition. */
  ghost predicate IsFirst(s: seq<Sym>, i: nat, k: nat) {
    i <= k < |s| && Given(s[k]) && forall j :: i <= j < k && Given(s[j]) ==> s[j].name != s[k].name
  }

  function Offer(m: ModuleId, s: seq<Sym>, k: nat): Def
    requires k < |s| && Given(s[k])
  {
    match s[k].kind
    case Defined(code) => Def(m, s[k].name, BfdSymbol(m, k), code)
    case Alias(to) => Def(m, s[k].name, OtherEntry(to), false)
  }

  /** The definitions offered by the symbols from i on: for each name by the first. */
  ghost function Gives(m: ModuleId, s: seq<Sym>, i: nat): set<Def> {
    set k: nat | k < |s| && IsFirst(s, i, k) :: Offer(m, s, k)
  }

  ghost function AllGives(ms: seq<Module>): set<Def> {
    if ms == [] then {} else Gives(ms[0].id, ms[0].symbols, 0) + AllGives(ms[1..])
  }

  /** Distinct non-null module addresses. */
  ghost predicate Separate(ms: seq<Module>) {
    && (forall i :: 0 <= i < |ms| ==> ms[i].id != 0)
    && forall i, j :: 0 <= i < j < |ms| ==> ms[i].id != ms[j].id
  }

  /** What holds of the entry of name n, which r loaded symbols want; gives are the
      definitions that loaded modules offer. */
  ghost predicate Fine(n: Name, e: Entry, r: nat, gives: set<Def>) {
    && e.refcount == r && (r > 0 ==> e.refd)
    && (e.definedBy != 0 ==> e.defd && !e.alloc && Def(e.definedBy, n, e.definition, e.func) in gives)
    && (e.bfd <==> e.definition.BfdSymbol?) && (e.indirect <==> e.definition.OtherEntry?)
    && (e.defd && e.definedBy == 0 ==> e.definition.Address?)
    && (!e.defd ==> !e.bfd && !e.func && !e.alloc && !e.indirect && e.definition == Nothing)
  }

  /** The state invariant, for what the loaded modules want and give. */
  ghost predicate Inv(t: Table, count: int, r: multiset<Name>, gives: set<Def>) {
    && count == |Undef(t)|
    && (forall n :: n in r ==> n in t)
    && forall n :: n in t ==> Fine(n, t[n], r[n], gives)
  }

  lemma UndefOne(t: Table, n: Name)
    ensures |Undef(t)| == |Undef(t) - {n}| + Pending(At(t, n))
  {
    assert n in Undef(t) <==> Pending(At(t, n)) == 1;
    if n in Undef(t) {
      assert Undef(t) == Undef(t) - {n} + {n};
    } else {
      assert Undef(t) == Undef(t) - {n};
    }
  }

  lemma PutCount(t: Table, n: Name, e: Entry)
    ensures |Undef(t[n := e])| == |Undef(t)| + Pending(e) - Pending(At(t, n))
  {
    var u := Undef(t) - {n};
    assert Undef(t[n := e]) - {n} == u;
    UndefOne(t, n);
    UndefOne(t[n := e], n);
  }

  /** Rewriting the entry of name n, while only n is wanted or given differently. */
  lemma Put(t: Table, count: int, r: multiset<Name>, gives: set<Def>, n: Name, e: Entry,
            r': multiset<Name>, gives': set<Def>)
    requires Inv(t, count, r, gives) && Fine(n, e, r'[n], gives')
    requires forall k :: k != n ==> r'[k] == r[k]
    requires forall g :: g in gives && g.name != n ==> g in gives'
    ensures Inv(t[n := e], count + Pending(e) - Pending(At(t, n)), r', gives')
  {
    hide Undef, Pending;
    PutCount(t, n, e);
    forall k | k in r' ensures k in t[n := e] {
      assert k == n || k in r;
    }
  }

  /** A name without an entry may stop being given. */
  lemma Absent(t: Table, count: int, r: multiset<Name>, gives: set<Def>, n: Name,
               gives': set<Def>)
    requires Inv(t, count, r, gives) && n !in t && forall g :: g in gives && g.name != n ==> g in gives'
    ensures Inv(t, count, r, gives')
  {
  }

  lemma FineAt(t: Table, count: int, r: multiset<Name>, gives: set<Def>, n: Name)
    requires Inv(t, count, r, gives)
    ensures Fine(n, At(t, n), r[n], gives) && count >= 0
    ensures n !in t ==> r[n] == 0
  {
  }

  /** A symbol of a module being loaded, seen by the entry of its own name; found is the
      address dlsym gives for that name, 0 for none. */
  function Load(e: Entry, s: Sym, m: ModuleId, at: nat, found: nat): Entry {
    if Wanted(s) then
      var e1 := if !e.defd && !e.refd && found != 0 then e.(defd := true, definition := Address(found)) else e;
      e1.(refd := true, refcount := e1.refcount + 1)
    else if Given(s) && !e.defd then
      if s.kind.Defined? then
        e.(definedBy := m, defd := true, bfd := true, definition := BfdSymbol(m, at), func := e.func || s.kind.code)
      else e.(definedBy := m, defd := true, indirect := true, definition := OtherEntry(s.kind.to))
    else e
  }

  /** The same when the module is unloaded. */
  function Unload(e: Entry, s: Sym, m: ModuleId): Entry {
    if Wanted(s) then
      e.(refcount := e.refcount - 1, refd := e.refd && e.refcount != 1)
    else if Given(s) && e.defd && e.definedBy == m then
      e.(bfd := false, defd := false, func := false, indirect := false, definition := Nothing, definedBy := 0,
         refd := e.refd && e.refcount > 0)
    else e
  }

  /** All symbols of a module, as seen by the entry of name n. */
  function LoadHere(e: Entry, s: Sym, n: Name, m: ModuleId, at: nat, found: nat): Entry {
    if s.name == n then Load(e, s, m, at, found) else e
  }

  function LoadAll(e: Entry, s: seq<Sym>, n: Name, m: ModuleId, found: nat): Entry {
    if s == [] then e
    else
      var p := |s| - 1;
      LoadHere(LoadAll(e, s[..p], n, m, found), s[p], n, m, p, found)
  }

  function UnloadHere(e: Entry, s: Sym, n: Name, m: ModuleId): Entry {
    if s.name == n then Unload(e, s, m) else e
  }

  function UnloadAll(e: Entry, s: seq<Sym>, n: Name, m: ModuleId): Entry {
    if s == [] then e
    else
      var p := |s| - 1;
      UnloadHere(UnloadAll(e, s[..p], n, m), s[p], n, m)
  }

  lemma LoadNone(s: seq<Sym>)
    ensures forall e, n, m, found :: LoadAll(e, s[..0], n, m, found) == e
    ensures forall e, n, m :: UnloadAll(e, s[..0], n, m) == e
  {
  }

  lemma LoadSnoc(s: seq<Sym>, i: nat)
    requires i < |s|
    ensures forall e, n, m, found ::
      LoadAll(e, s[..i + 1], n, m, found) == LoadHere(LoadAll(e, s[..i], n, m, found), s[i], n, m, i, found)
    ensures forall e, n, m ::
      UnloadAll(e, s[..i + 1], n, m) == UnloadHere(UnloadAll(e, s[..i], n, m), s[i], n, m)
  {
    assert s[..i + 1][..i] == s[..i];
  }

  class Linker {
    var table: Table
    var undefinedCount: int
    ghost var loaded: seq<Module>

    ghost predicate Valid()
      reads this
    {
      Inv(table, undefinedCount, AllWants(loaded), AllGives(loaded)) && Separate(loaded)
    }

    constructor ()
      ensures Valid() && table == map[] && loaded == []
    {
      table, undefinedCount, loaded := map[], 0, [];
    }

    /** insert_module_symbols. */
    method InsertModule(m: Module, dlsym: Name -> nat)
      requires Valid() && m.id != 0 && forall k :: k in loaded ==> k.id != m.id
      modifies this
      ensures Valid() && loaded == old(loaded) + [m]
      ensures forall n :: At(table, n) == LoadAll(At(old(table), n), m.symbols, n, m.id, dlsym(n))
    {
      hide Inv, Wants, AllWants, Gives, AllGives, LoadAll, LoadHere;
      ghost var r0, gives := AllWants(loaded), AllGives(loaded) + Gives(m.id, m.symbols, 0);
      MoreGives(table, undefinedCount, r0, AllGives(loaded), gives);
      LoadNone(m.symbols);
      var i := 0;
      while i < |m.symbols|
        invariant 0 <= i <= |m.symbols|
        invariant Inv(table, undefinedCount, r0 + Wants(m.symbols[..i]), gives)
        invariant forall n :: At(table, n) == LoadAll(At(old(table), n), m.symbols[..i], n, m.id, dlsym(n))
        invariant forall j :: 0 <= j < i && Given(m.symbols[j]) ==> At(table, m.symbols[j].name).defd
        modifies this`table, this`undefinedCount
      {
        ghost var t := table;
        InsertSymbol(m, i, dlsym, r0, gives);
        StaysDefined(m, i, t, table, dlsym);
        LoadSnoc(m.symbols, i);
        i := i + 1;
      }
      assert m.symbols[..i] == m.symbols;
      loaded := loaded + [m];
      OneMore(old(loaded), m);
      FineAt(table, undefinedCount, r0 + Wants(m.symbols), gives, "");
      assert undefinedCount >= 0;
    }

    method InsertSymbol(m: Module, i: nat, dlsym: Name -> nat, ghost r0: multiset<Name>,
                        ghost gives: set<Def>)
      requires i < |m.symbols| && m.id != 0 && Gives(m.id, m.symbols, 0) <= gives
      requires Inv(table, undefinedCount, r0 + Wants(m.symbols[..i]), gives)
      requires forall j :: 0 <= j < i && Given(m.symbols[j]) ==> At(table, m.symbols[j].name).defd
      modifies this`table, this`undefinedCount
      ensures Inv(table, undefinedCount, r0 + Wants(m.symbols[..i + 1]), gives)
      ensures forall n :: At(table, n) == LoadHere(At(old(table), n), m.symbols[i], n, m.id, i, dlsym(n))
    {
      hide Inv, Wants, Gives, IsFirst;
      var s := m.symbols[i];
      ghost var r, r' := r0 + Wants(m.symbols[..i]), r0 + Wants(m.symbols[..i + 1]);
      WantsSnoc(m.symbols, i);
      FineAt(table, undefinedCount, r, gives, s.name);
      assert !Wanted(s) ==> r' == r;
      if s.local || s.name == "" {
        return;
      }
      var e := At(table, s.name);
      if s.kind.Undefined? {
        if !e.defd && !e.refd {
          var found := dlsym(s.name);
          if found != 0 {
            e := e.(defd := true, definition := Address(found));
          }
        }
        var d := if !e.defd && !e.refd then 1 else 0;
        e := e.(refd := true, refcount := e.refcount + 1);
        Put(table, undefinedCount, r, gives, s.name, e, r', gives);
        table, undefinedCount := table[s.name := e], undefinedCount + d;
      } else if s.kind.Defined? || s.kind.Alias? {
        if e.defd {
          return;
        }
        var d := if e.refd then 1 else 0;
        e := e.(definedBy := m.id);
        if s.kind.Defined? {
          e := e.(defd := true, bfd := true, definition := BfdSymbol(m.id, i), func := e.func || s.kind.code);
        } else {
          e := e.(defd := true, indirect := true, definition := OtherEntry(s.kind.to));
        }
        FirstGiven(m.id, m.symbols, i);
        Put(table, undefinedCount, r, gives, s.name, e, r', gives);
        table, undefinedCount := table[s.name := e], undefinedCount - d;
        if s.kind.Alias? {
          Touch(s.kind.to, r', gives);
        }
      }
    }

    /** insert_symbol on a name whose entry is not changed: a missing entry becomes blank. */
    method Touch(n: Name, ghost r: multiset<Name>, ghost gives: set<Def>)
      requires Inv(table, undefinedCount, r, gives)
      modifies this`table
      ensures Inv(table, undefinedCount, r, gives) && n in table && forall k :: At(table, k) == At(old(table), k)
    {
      FineAt(table, undefinedCount, r, gives, n);
      Put(table, undefinedCount, r, gives, n, At(table, n), r, gives);
      table := table[n := At(table, n)];
    }

    /** remove_module_symbols, for the k-th loaded module. */
    method RemoveModule(m: Module, ghost k: nat)
      requires Valid() && k < |loaded| && m == loaded[k]
      modifies this
      ensures Valid() && loaded == old(loaded)[..k] + old(loaded)[k + 1..]
      ensures forall n :: At(table, n) == UnloadAll(At(old(table), n), m.symbols, n, m.id)
    {
      hide Inv, Wants, AllWants, Gives, AllGives, UnloadAll, UnloadHere;
      ghost var rest := loaded[..k] + loaded[k + 1..];
      ghost var r0, g0 := AllWants(rest), AllGives(rest);
      OneLess(loaded, k);
      LoadNone(m.symbols);
      var i := 0;
      assert m.symbols[0..] == m.symbols;
      while i < |m.symbols|
        invariant 0 <= i <= |m.symbols|
        invariant Inv(table, undefinedCount, r0 + Wants(m.symbols[i..]), g0 + Gives(m.id, m.symbols, i))
        invariant forall n :: At(table, n) == UnloadAll(At(old(table), n), m.symbols[..i], n, m.id)
        modifies this`table, this`undefinedCount
      {
        RemoveSymbol(m, i, r0, g0);
        LoadSnoc(m.symbols, i);
        i := i + 1;
      }
      assert m.symbols[..i] == m.symbols && m.symbols[i..] == [];
      NoSymbols(m.id, m.symbols);
      assert r0 + Wants([]) == r0 && g0 + Gives(m.id, m.symbols, |m.symbols|) == g0;
      loaded := rest;
      FineAt(table, undefinedCount, r0, g0, "");
      assert undefinedCount >= 0;
    }

    /** One symbol of a module being unloaded; the two inner assertions are the source's. */
    method RemoveSymbol(m: Module, i: nat, ghost r0: multiset<Name>, ghost g0: set<Def>)
      requires i < |m.symbols| && m.id != 0
      requires Inv(table, undefinedCount, r0 + Wants(m.symbols[i..]), g0 + Gives(m.id, m.symbols, i))
      modifies this`table, this`undefinedCount
      ensures Inv(table, undefinedCount, r0 + Wants(m.symbols[i + 1..]), g0 + Gives(m.id, m.symbols, i + 1))
      ensures forall n :: At(table, n) == UnloadHere(At(old(table), n), m.symbols[i], n, m.id)
    {
      hide Inv, Wants, Gives;
      var s := m.symbols[i];
      ghost var r, r' := r0 + Wants(m.symbols[i..]), r0 + Wants(m.symbols[i + 1..]);
      ghost var g, g' := g0 + Gives(m.id, m.symbols, i), g0 + Gives(m.id, m.symbols, i + 1);
      FirstSymbol(m.id, m.symbols, i);
      FineAt(table, undefinedCount, r, g, s.name);
      if s.local || s.name == "" {
        assert r == r' && g == g';
        return;
      }
      if s.kind.Undefined? {
        assert r == r' + multiset{s.name} && g == g';
        if s.name in table {
          var e := table[s.name];
          assert e.refcount > 0;
          assert e.refd;
          var d := 0;
          e := e.(refcount := e.refcount - 1);
          if e.refcount == 0 {
            e := e.(refd := false);
            if !e.defd {
              d := 1;
            }
          }
          Put(table, undefinedCount, r, g, s.name, e, r', g');
          table, undefinedCount := table[s.name := e], undefinedCount - d;
        }
      } else if s.kind.Defined? || s.kind.Alias? {
        assert r == r';
        var e, d := At(table, s.name), 0;
        if s.name in table && e.defd && e.definedBy == m.id {
          e := e.(bfd := false, defd := false, func := false, indirect := false, definition := Nothing, definedBy := 0);
          if e.refcount > 0 {
            d := 1;
          } else {
            e := e.(refd := false);
          }
        }
        if s.name in table {
          Put(table, undefinedCount, r, g, s.name, e, r', g');
          table, undefinedCount := table[s.name := e], undefinedCount + d;
        } else {
          Absent(table, undefinedCount, r, g, s.name, g');
        }
      } else {
        assert r == r' && g == g';
      }
    }

    /** dld_create_reference: a reference that no count records. */
    method CreateReference(n: Name)
      requires Valid()
      modifies this`table, this`undefinedCount
      ensures Valid() && n in table && At(table, n) == At(old(table), n).(refd := true)
      ensures forall k :: k != n ==> At(table, k) == At(old(table), k)
    {
      hide Inv, AllWants, AllGives;
      ghost var r, g := AllWants(loaded), AllGives(loaded);
      FineAt(table, undefinedCount, r, g, n);
      var e := At(table, n);
      var d := if !e.defd && !e.refd then 1 else 0;
      e := e.(refd := true);
      Put(table, undefinedCount, r, g, n, e, r, g);
      table, undefinedCount := table[n := e], undefinedCount + d;
    }

    /** dld_define_sym; a is what dld_allocate returns, 0 when it fails. */
    method DefineSym(n: Name, a: nat) returns (ok: bool)
      requires Valid()
      modifies this`table, this`undefinedCount
      ensures Valid() && n in table && (ok <==> !At(old(table), n).defd && a != 0)
      ensures forall k :: k != n ==> At(table, k) == At(old(table), k)
      ensures At(table, n) == At(old(table), n) ||
        (ok && At(table, n) == At(old(table), n).(defd := true, alloc := true, definition := Address(a)))
      ensures ok ==> At(table, n).defd && At(table, n).alloc
    {
      hide Inv, AllWants, AllGives;
      ghost var r, g := AllWants(loaded), AllGives(loaded);
      Touch(n, r, g);
      FineAt(table, undefinedCount, r, g, n);
      var e := At(table, n);
      if e.defd || a == 0 {
        return false;
      }
      var d := if e.refd then 1 else 0;
      e := e.(defd := true, alloc := true, definition := Address(a));
      Put(table, undefinedCount, r, g, n, e, r, g);
      table, undefinedCount := table[n := e], undefinedCount - d;
      return true;
    }

    /** dld_remove_defined_symbol; freed is the address given back to the arena, 0 for none. */
    method RemoveDefined(n: Name) returns (freed: Value)
      requires Valid()
      modifies this`table, this`undefinedCount
      ensures Valid() && forall k :: k != n ==> At(table, k) == At(old(table), k)
      ensures At(table, n) == Dropped(At(old(table), n))
      ensures freed == (if At(old(table), n).alloc then At(old(table), n).definition else Nothing)
    {
      hide Inv, AllWants, AllGives;
      ghost var r, g := AllWants(loaded), AllGives(loaded);
      FineAt(table, undefinedCount, r, g, n);
      freed := Nothing;
      if n in table && table[n].defd {
        var e, d := table[n], 0;
        if e.alloc {
          freed := e.definition;
        }
        e := e.(func := false, alloc := false, indirect := false, bfd := false, defd := false,
          definition := Nothing, definedBy := 0);
        if e.refcount > 0 {
          d := 1;
        } else {
          e := e.(refd := false);
        }
        Put(table, undefinedCount, r, g, n, e, r, g);
        table, undefinedCount := table[n := e], undefinedCount + d;
      }
    }

    /** The symbol loop of dld_dlopen: names with the addresses dlsym found for them, 0 for none. */
    method OpenShared(names: seq<(Name, bool, nat)>)
      requires Valid()
      modifies this`table, this`undefinedCount
      ensures Valid() && forall n :: At(table, n) == Shared(At(old(table), n), names, n)
    {
      hide Inv, AllWants, AllGives, Shared;
      ghost var r, g := AllWants(loaded), AllGives(loaded);
      SharedNone(names);
      var i := 0;
      while i < |names|
        invariant 0 <= i <= |names| && Inv(table, undefinedCount, r, g)
        invariant forall n :: At(table, n) == Shared(At(old(table), n), names[..i], n)
      {
        var (n, code, addr) := names[i];
        if addr != 0 {
          FineAt(table, undefinedCount, r, g, n);
          var e, d := At(table, n), 0;
          if !e.defd {
            if e.refd {
              d := 1;
            }
            e := e.(bfd := false, func := code, alloc := false, indirect := false, defd := true,
                    definition := Address(addr));
          }
          Put(table, undefinedCount, r, g, n, e, r, g);
          table, undefinedCount := table[n := e], undefinedCount - d;
        }
        SharedSnoc(names, i);
        i := i + 1;
      }
      assert names[..i] == names;
    }
  }

  /** What dld_remove_defined_symbol leaves of an entry. */
  function Dropped(e: Entry): Entry {
    if e.defd then Entry(0, Nothing, false, e.refd && e.refcount > 0, false, false, false, false, e.refcount) else e
  }

  /** A shared library defines the names that have no definition yet. */
  function SharedHere(e: Entry, x: (Name, bool, nat), n: Name): Entry {
    if x.0 == n && x.2 != 0 && !e.defd then
      Entry(e.definedBy, Address(x.2), true, e.refd, false, x.1, false, false, e.refcount)
    else e
  }

  function Shared(e: Entry, names: seq<(Name, bool, nat)>, n: Name): Entry {
    if names == [] then e
    else
      var p := |names| - 1;
      SharedHere(Shared(e, names[..p], n), names[p], n)
  }

  lemma SharedNone(names: seq<(Name, bool, nat)>)
    ensures forall e, n :: Shared(e, names[..0], n) == e
  {
  }

  lemma SharedSnoc(names: seq<(Name, bool, nat)>, i: nat)
    requires i < |names|
    ensures forall e, n :: Shared(e, names[..i + 1], n) == SharedHere(Shared(e, names[..i], n), names[i], n)
  {
    assert names[..i + 1][..i] == names[..i];
  }

  /** What a symbol of the module gives a definition has one from then on. */
  lemma StaysDefined(m: Module, i: nat, t: Table, u: Table, dlsym: Name -> nat)
    requires i < |m.symbols| && forall n :: At(u, n) == LoadHere(At(t, n), m.symbols[i], n, m.id, i, dlsym(n))
    requires forall j :: 0 <= j < i && Given(m.symbols[j]) ==> At(t, m.symbols[j].name).defd
    ensures forall j :: 0 <= j <= i && Given(m.symbols[j]) ==> At(u, m.symbols[j].name).defd
  {
    hide At;
  }

  lemma FirstGiven(m: ModuleId, s: seq<Sym>, i: nat)
    requires i < |s| && Given(s[i]) && forall j :: 0 <= j < i && Given(s[j]) ==> s[j].name != s[i].name
    ensures Offer(m, s, i) in Gives(m, s, 0)
  {
    assert IsFirst(s, 0, i);
  }

  lemma MoreGives(t: Table, count: int, r: multiset<Name>, g: set<Def>, g': set<Def>)
    requires Inv(t, count, r, g) && g <= g'
    ensures Inv(t, count, r, g') && r + Wants([]) == r
  {
  }

  lemma {:induction false} WantsSnoc(s: seq<Sym>, i: nat)
    requires i < |s|
    ensures Wants(s[..i + 1]) == Wants(s[..i]) + if Wanted(s[i]) then multiset{s[i].name} else multiset{}
    decreases i
  {
    if i > 0 {
      WantsSnoc(s[1..], i - 1);
      assert s[..i + 1][1..] == s[1..][..i] && s[..i][1..] == s[1..][..i - 1];
    }
  }

  lemma NoSymbols(m: ModuleId, s: seq<Sym>)
    ensures Wants([]) == multiset{} && Gives(m, s, |s|) == {}
  {
  }

  lemma FirstSymbol(m: ModuleId, s: seq<Sym>, i: nat)
    requires i < |s|
    ensures Wants(s[i..]) == (if Wanted(s[i]) then multiset{s[i].name} else multiset{}) + Wants(s[i + 1..])
    ensures !Given(s[i]) ==> Gives(m, s, i) == Gives(m, s, i + 1)
    ensures forall g :: g in Gives(m, s, i) ==> g.owner == m && (g.name != s[i].name ==> g in Gives(m, s, i + 1))
  {
    assert s[i..][1..] == s[i + 1..];
    assert forall k: nat :: k < |s| && IsFirst(s, i, k) && s[k].name != s[i].name ==> IsFirst(s, i + 1, k);
    if !Given(s[i]) {
      assert forall k: nat :: k < |s| ==> (IsFirst(s, i, k) <==> IsFirst(s, i + 1, k));
    }
  }

  lemma {:induction false} OneMore(ms: seq<Module>, m: Module)
    ensures AllWants(ms + [m]) == AllWants(ms) + Wants(m.symbols)
    ensures AllGives(ms + [m]) == AllGives(ms) + Gives(m.id, m.symbols, 0)
  {
    if ms == [] {
      assert [m][1..] == [];
    } else {
      OneMore(ms[1..], m);
      assert (ms + [m])[1..] == ms[1..] + [m];
    }
  }

  lemma {:induction false} OneLess(ms: seq<Module>, k: nat)
    requires k < |ms|
    ensures AllWants(ms) == AllWants(ms[..k] + ms[k + 1..]) + Wants(ms[k].symbols)
    ensures AllGives(ms) == AllGives(ms[..k] + ms[k + 1..]) + Gives(ms[k].id, ms[k].symbols, 0)
    decreases k
  {
    if k == 0 {
      assert ms[..0] + ms[1..] == ms[1..];
    } else {
      OneLess(ms[1..], k - 1);
      assert (ms[..k] + ms[k + 1..])[1..] == ms[1..][..k - 1] + ms[1..][k..];
    }
  }

  /** The count is zero exactly when no name is referenced without being defined; then
      every symbol that loaded modules want has a definition. */
  lemma AllResolved(t: Table, count: int, ms: seq<Module>)
    requires Inv(t, count, AllWants(ms), AllGives(ms))
    ensures count == 0 <==> forall n :: n in t ==> !t[n].refd || t[n].defd
    ensures count == 0 ==> forall n :: n in AllWants(ms) ==> n in t && t[n].defd
  {
    if count == 0 {
      assert Undef(t) == {};
      assert forall n :: n in t ==> n !in Undef(t);
      assert forall n :: n in AllWants(ms) ==> n in t && t[n].refcount > 0;
    } else {
      var n :| n in Undef(t);
    }
  }

  predicate Mentions(x: Sym, n: Name) { x.name == n && (Wanted(x) || Given(x)) }

  predicate Mentioned(s: seq<Sym>, n: Name) {
    s != [] && (Mentioned(s[..|s| - 1], n) || Mentions(s[|s| - 1], n))
  }

  predicate GivenIn(s: seq<Sym>, n: Name) {
    s != [] && (GivenIn(s[..|s| - 1], n) || (Given(s[|s| - 1]) && s[|s| - 1].name == n))
  }

  /** The first symbol that mentions n wants it. */
  predicate WantedFirst(s: seq<Sym>, n: Name) {
    && s != []
    && (WantedFirst(s[..|s| - 1], n) || (!Mentioned(s[..|s| - 1], n) && Wanted(s[|s| - 1]) && s[|s| - 1].name == n))
  }

  /** Loading takes this name's definition from the shared libraries already open. */
  predicate FromShared(e: Entry, s: seq<Sym>, n: Name, found: nat) {
    !e.defd && !e.refd && found != 0 && WantedFirst(s, n)
  }

  /** No reference but the counted ones. */
  predicate Honest(e: Entry) { e.refcount >= 0 && (e.refd <==> e.refcount > 0) }

  /** The definition half of an entry. */
  function Definition(e: Entry): Entry { e.(refd := false, refcount := 0) }

  function Cleared(e: Entry): Entry {
    e.(bfd := false, defd := false, func := false, indirect := false, definition := Nothing, definedBy := 0)
  }

  /** A fresh entry for module m to work on. */
  ghost predicate Outside(e: Entry, m: ModuleId) {
    m != 0 && e.definedBy != m && (!e.defd ==> Definition(e) == BLANK)
  }

  lemma {:induction false} LoadCounts(e: Entry, s: seq<Sym>, n: Name, m: ModuleId, found: nat)
    requires Honest(e)
    ensures var x := LoadAll(e, s, n, m, found); Honest(x) && x.refcount == e.refcount + Wants(s)[n]
    ensures !Mentioned(s, n) ==> LoadAll(e, s, n, m, found) == e && !WantedFirst(s, n) && !GivenIn(s, n)
    ensures Mentioned(s, n) ==> GivenIn(s, n) || Wants(s)[n] > 0
    ensures e.defd ==> Definition(LoadAll(e, s, n, m, found)) == Definition(e)
  {
    if s != [] {
      var p := |s| - 1;
      LoadCounts(e, s[..p], n, m, found);
      WantsSnoc(s, p);
      assert s[..p + 1] == s;
    }
  }

  /** Who defines a name once a module has been loaded. */
  lemma {:induction false} LoadDefines(e: Entry, s: seq<Sym>, n: Name, m: ModuleId, found: nat)
    requires Honest(e) && Outside(e, m) && !e.defd
    ensures var x := LoadAll(e, s, n, m, found);
      if FromShared(e, s, n, found) then x.defd && x.definedBy == 0 && x.definition == Address(found)
      else if GivenIn(s, n) then
        && x.defd && x.definedBy == m && Cleared(Definition(x)) == Definition(e)
        && Def(m, n, x.definition, x.func) in Gives(m, s, 0)
      else Definition(x) == Definition(e)
  {
    if s != [] {
      var p := |s| - 1;
      LoadDefines(e, s[..p], n, m, found);
      LoadCounts(e, s[..p], n, m, found);
      GivesMore(m, s, p);
      if !GivenIn(s[..p], n) && GivenIn(s, n) {
        NoneGiven(s[..p], n);
        assert IsFirst(s, 0, p);
        assert Offer(m, s, p) in Gives(m, s, 0);
      }
    }
  }

  lemma GivesMore(m: ModuleId, s: seq<Sym>, p: nat)
    requires p <= |s|
    ensures Gives(m, s[..p], 0) <= Gives(m, s, 0)
  {
    forall g | g in Gives(m, s[..p], 0) ensures g in Gives(m, s, 0) {
      var k: nat :| k < p && IsFirst(s[..p], 0, k) && Offer(m, s[..p], k) == g;
      assert IsFirst(s, 0, k) && Offer(m, s, k) == g;
    }
  }

  lemma {:induction false} NoneGiven(s: seq<Sym>, n: Name)
    requires !GivenIn(s, n)
    ensures forall j :: 0 <= j < |s| && Given(s[j]) ==> s[j].name != n
  {
    if s != [] {
      NoneGiven(s[..|s| - 1], n);
    }
  }

  lemma {:induction false} UnloadCounts(e: Entry, s: seq<Sym>, n: Name, m: ModuleId)
    requires Honest(e) && e.refcount >= Wants(s)[n] && (e.definedBy == m ==> e.defd) && m != 0
    ensures var y := UnloadAll(e, s, n, m);
      && Honest(y) && y.refcount == e.refcount - Wants(s)[n]
      && Definition(y) == (if e.definedBy == m && GivenIn(s, n) then Cleared(Definition(e)) else Definition(e))
  {
    if s != [] {
      var p := |s| - 1;
      WantsSnoc(s, p);
      assert s[..p + 1] == s;
      UnloadCounts(e, s[..p], n, m);
    }
  }

  /** A reference that no refcount records survives loading. */
  lemma {:induction false} LoadFaked(e: Entry, s: seq<Sym>, n: Name, m: ModuleId, found: nat)
    requires e.refd && e.refcount >= 0 && Outside(e, m)
    ensures var x := LoadAll(e, s, n, m, found);
      && x.refd && x.refcount == e.refcount + Wants(s)[n]
      && (if e.defd || !GivenIn(s, n) then Definition(x) == Definition(e)
          else x.defd && x.definedBy == m && Cleared(Definition(x)) == Definition(e))
  {
    if s != [] {
      var p := |s| - 1;
      LoadFaked(e, s[..p], n, m, found);
      WantsSnoc(s, p);
      assert s[..p + 1] == s;
    }
  }

  /** It is lost when the last counted reference or the module's definition goes. */
  lemma {:induction false} UnloadFaked(x: Entry, s: seq<Sym>, n: Name, m: ModuleId)
    requires x.refd && x.refcount >= Wants(s)[n] && (x.definedBy == m ==> x.defd) && m != 0
    ensures var y, gone := UnloadAll(x, s, n, m), x.definedBy == m && GivenIn(s, n);
      && y.refcount == x.refcount - Wants(s)[n]
      && (y.refcount > 0 ==> y.refd) && (Wants(s)[n] == 0 && !gone ==> y.refd)
      && (y.refd ==> y.refcount > 0 || (Wants(s)[n] == 0 && !gone))
      && Definition(y) == (if gone then Cleared(Definition(x)) else Definition(x))
  {
    if s != [] {
      var p := |s| - 1;
      WantsSnoc(s, p);
      assert s[..p + 1] == s;
      UnloadFaked(x, s[..p], n, m);
    }
  }

  lemma {:induction false} MentionIff(s: seq<Sym>, n: Name)
    ensures Mentioned(s, n) <==> GivenIn(s, n) || Wants(s)[n] > 0
  {
    if s != [] {
      var p := |s| - 1;
      MentionIff(s[..p], n);
      WantsSnoc(s, p);
      assert s[..p + 1] == s;
    }
  }

  /** Counts are not negative, and counted references are references. */
  predicate Sane(e: Entry) { e.refcount >= 0 && (e.refcount > 0 ==> e.refd) }

  /** Loading a module and unloading it again restores the entry of every name, except
      exactly those whose definition was fetched from a shared library on the way and,
      where a reference was faked, those the module wants, or so much as mentions while
      they have no definition. */
  lemma LoadThenUnload(e: Entry, s: seq<Sym>, n: Name, m: ModuleId, found: nat)
    requires Sane(e) && Outside(e, m)
    ensures UnloadAll(LoadAll(e, s, n, m, found), s, n, m) == e <==>
      if Honest(e) then !FromShared(e, s, n, found)
      else if e.defd then Wants(s)[n] == 0 else !Mentioned(s, n)
  {
    var x := LoadAll(e, s, n, m, found);
    if Honest(e) {
      LoadCounts(e, s, n, m, found);
      if !e.defd {
        LoadDefines(e, s, n, m, found);
      }
      UnloadCounts(x, s, n, m);
    } else {
      LoadFaked(e, s, n, m, found);
      UnloadFaked(x, s, n, m);
      MentionIff(s, n);
    }
  }

  /** Whatever defined a name since, a module, a shared library or dld_define_sym, removing the
      definition gives its entry back, exactly when no reference is faked. */
  lemma RemoveRestores(e: Entry, x: Entry)
    requires Sane(e) && !e.defd && Definition(e) == BLANK
    requires x.defd && x.refd == e.refd && x.refcount == e.refcount
    ensures Dropped(x) == e <==> Honest(e)
  {
  }

  /** In every state: a name with a module is defined by the first symbol of that loaded module
      that carries the name and has a definition; it is a function when that symbol is code, and
      goes on to another entry when that symbol is an alias. No other name has such a
      definition: its address comes from a shared library or from private memory. */
  lemma DefinedByFirst(t: Table, count: int, ms: seq<Module>, n: Name)
    requires Inv(t, count, AllWants(ms), AllGives(ms))
    ensures var e := At(t, n);
      if e.definedBy != 0 then
        exists m, k: nat :: m in ms && m.id == e.definedBy && k < |m.symbols| && IsFirst(m.symbols, 0, k) &&
          m.symbols[k].name == n && !e.alloc && e.defd && DefinedAs(e, m, k)
      else !e.bfd && !e.indirect && (e.defd ==> e.definition.Address?)
  {
    FineAt(t, count, AllWants(ms), AllGives(ms), n);
    var e := At(t, n);
    if e.definedBy != 0 {
      var m, k := Giver(ms, Def(e.definedBy, n, e.definition, e.func));
      assert DefinedAs(e, m, k);
    }
  }

  /** The entry holds the definition that symbol k of the module offers. */
  predicate DefinedAs(e: Entry, m: Module, k: nat)
    requires k < |m.symbols| && Given(m.symbols[k])
  {
    match m.symbols[k].kind
    case Defined(code) => e.bfd && !e.indirect && e.definition == BfdSymbol(m.id, k) && e.func == code
    case Alias(to) => e.indirect && !e.bfd && e.definition == OtherEntry(to) && !e.func
  }

  lemma {:induction false} Giver(ms: seq<Module>, g: Def) returns (m: Module, k: nat)
    requires g in AllGives(ms)
    ensures m in ms && k < |m.symbols| && IsFirst(m.symbols, 0, k) && Offer(m.id, m.symbols, k) == g
  {
    if g in Gives(ms[0].id, ms[0].symbols, 0) {
      m := ms[0];
      k :| k < |m.symbols| && IsFirst(m.symbols, 0, k) && Offer(m.id, m.symbols, k) == g;
    } else {
      m, k := Giver(ms[1..], g);
    }
  }

  /** Names that shared libraries define: by the first that has them, unless they are
      defined already. */
  lemma {:induction false} SharedDefines(e: Entry, names: seq<(Name, bool, nat)>, n: Name)
    requires !e.defd ==> Definition(e) == BLANK
    ensures var x := Shared(e, names, n);
      if e.defd || forall i :: 0 <= i < |names| && names[i].0 == n ==> names[i].2 == 0 then x == e
      else exists i :: 0 <= i < |names| && Finds(names, i, n) &&
             x == e.(defd := true, definition := Address(names[i].2), func := names[i].1)
  {
    hide Finds;
    if names != [] {
      var p := |names| - 1;
      var y := Shared(e, names[..p], n);
      SharedDefines(e, names[..p], n);
      if e.defd {
      } else if y.defd {
        var i :| 0 <= i < p && Finds(names[..p], i, n) &&
          y == e.(defd := true, definition := Address(names[..p][i].2), func := names[..p][i].1);
        FindsMore(names, p, i, n);
      } else if names[p].0 == n && names[p].2 != 0 {
        FindsLast(names, n);
      }
    }
  }

  lemma FindsMore(names: seq<(Name, bool, nat)>, p: nat, i: nat, n: Name)
    requires i < p <= |names| && Finds(names[..p], i, n)
    ensures Finds(names, i, n) && names[..p][i] == names[i]
    ensures !forall j :: 0 <= j < |names| && names[j].0 == n ==> names[j].2 == 0
  {
    assert forall j :: 0 <= j <= i ==> names[..p][j] == names[j];
  }

  lemma FindsLast(names: seq<(Name, bool, nat)>, n: Name)
    requires names != []
    requires var p := |names| - 1;
      names[p].0 == n && names[p].2 != 0 && forall j :: 0 <= j < p && names[..p][j].0 == n ==> names[..p][j].2 == 0
    ensures Finds(names, |names| - 1, n)
  {
    assert forall j :: 0 <= j < |names| - 1 ==> names[..|names| - 1][j] == names[j];
  }

  /** Name n is found at place i and at no place before. */
  predicate Finds(names: seq<(Name, bool, nat)>, i: nat, n: Name)
    requires i < |names|
  {
    names[i].0 == n && names[i].2 != 0 && forall j :: 0 <= j < i && names[j].0 == n ==> names[j].2 == 0
  }

  /** In every state the entries qualify; none is faked that some loaded symbol wants. */
  lemma StateOutside(t: Table, count: int, ms: seq<Module>, n: Name, m: ModuleId)
    requires Inv(t, count, AllWants(ms), AllGives(ms)) && m != 0 && forall k :: k in ms ==> k.id != m
    ensures Outside(At(t, n), m) && Sane(At(t, n))
    ensures Honest(At(t, n)) <==> (At(t, n).refd ==> n in AllWants(ms))
  {
    FineAt(t, count, AllWants(ms), AllGives(ms), n);
    GiversLoaded(ms, m, n);
  }

  lemma {:induction false} GiversLoaded(ms: seq<Module>, m: ModuleId, n: Name)
    requires forall k :: k in ms ==> k.id != m
    ensures forall g :: g in AllGives(ms) ==> g.owner != m
  {
    if ms != [] {
      GiversLoaded(ms[1..], m, n);
    }
  }
}
