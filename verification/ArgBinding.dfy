/** Binding of actual to formal arguments on symbol stacks (src/function.c:123-245). */
module ArgBinding {
  import opened Basics

  type Name = nat

  /** Lisp structure without cycles; an atom is anything that is neither a symbol nor a cons. */
  datatype Tree = Nil | Sym(n: Name) | Pair(car: Tree, cdr: Tree) | Atom(id: nat)

  const OPTIONAL: Name := 0
  const REST: Name := 1

  type Binds = seq<(Name, Tree)>

  /** Each symbol has a stack of values, the current one first; the last is never popped. */
  type Stacks = map<Name, seq<Tree>>

  predicate Marked(f: Tree) { f.Pair? && (f.car == Sym(OPTIONAL) || f.car == Sym(REST)) }

  /** (symbol default) in an optional part. */
  predicate Defaulted(f: Tree) { f.Pair? && f.car.Sym? && f.cdr.Pair? && f.cdr.cdr.Nil? }

  function Prepend(d: Binds, o: Option<Binds>): Option<Binds> { if o.Some? then Some(d + o.value) else None }

  /** The bindings of a formal tree, None when the source signals an error. */
  function Bind(f: Tree, r: Tree): Option<Binds>
    decreases f
  {
    if f.Pair? && r.Pair? && !Marked(f) then
      var a := Bind(f.car, r.car);
      if a.None? then None else Prepend(a.value, Bind(f.cdr, r.cdr))
    else if f.Sym? then Some([(f.n, r)])
    else if Marked(f) && f.car == Sym(OPTIONAL) then Prepend([(OPTIONAL, Nil)], Optionals(f.cdr, r))
    else if Marked(f) then Rest(f, r)
    else if f.Nil? && r.Nil? then Some([])
    else None
  }

  function Optionals(f: Tree, r: Tree): Option<Binds>
    decreases f
  {
    if f.Pair? && f.car != Sym(REST) then
      if f.car.Sym? then
        Prepend([(f.car.n, if r.Pair? then r.car else Nil)], Optionals(f.cdr, if r.Pair? then r.cdr else r))
      else if Defaulted(f.car) then
        Prepend([(f.car.car.n, if r.Pair? then r.car else f.car.cdr.car)],
                Optionals(f.cdr, if r.Pair? then r.cdr else r))
      else None
    else Rest(f, r)
  }

  function Rest(f: Tree, r: Tree): Option<Binds> {
    if f.Pair? && f.car == Sym(REST) then
      if f.cdr.Pair? && f.cdr.cdr.Nil? && f.cdr.car.Sym? then Some([(REST, Nil), (f.cdr.car.n, r)]) else None
    else if f.Nil? && r.Nil? then Some([])
    else None
  }

  function Names(f: Tree): set<Name> {
    match f
    case Sym(n) => {n}
    case Pair(a, d) => Names(a) + Names(d)
    case Nil => {}
    case Atom(_) => {}
  }

  /** The symbols of the tree exist, and no stack is empty. */
  ghost predicate Ready(s: Stacks, f: Tree) {
    (forall n :: n in Names(f) ==> n in s) && forall n :: n in s ==> s[n] != []
  }

  /** Pushing bindings one after the other. */
  function Pushed(s: Stacks, b: Binds): Stacks
    decreases |b|
  {
    if b == [] then s
    else
      var (n, v) := b[|b| - 1];
      var t := Pushed(s, b[..|b| - 1]);
      t[n := [v] + if n in t then t[n] else []]
  }

  lemma {:induction false} PushedConcat(s: Stacks, a: Binds, b: Binds)
    ensures Pushed(s, a + b) == Pushed(Pushed(s, a), b)
    decreases |b|
  {
    if b == [] {
      assert a + b == a;
    } else {
      var p := |b| - 1;
      PushedConcat(s, a, b[..p]);
      assert (a + b)[..|a| + p] == a + b[..p];
    }
  }

  /** pop_args on one symbol. */
  function Pop(s: Stacks, n: Name): Stacks { if n in s && |s[n]| > 1 then s[n := s[n][1..]] else s }

  function Popped(s: Stacks, ns: seq<Name>): Stacks
    decreases |ns|
  {
    if ns == [] then s else Pop(Popped(s, ns[..|ns| - 1]), ns[|ns| - 1])
  }

  lemma {:induction false} PoppedConcat(s: Stacks, a: seq<Name>, b: seq<Name>)
    ensures Popped(s, a + b) == Popped(Popped(s, a), b)
    decreases |b|
  {
    if b == [] {
      assert a + b == a;
    } else {
      var p := |b| - 1;
      PoppedConcat(s, a, b[..p]);
      assert (a + b)[..|a| + p] == a + b[..p];
    }
  }

  lemma PoppedFew(s: Stacks, n: Name)
    ensures Popped(s, []) == s && Popped(s, [n]) == Pop(s, n)
  {
    assert [n][..0] == [];
  }

  /** Every symbol of a tree, in the order pop_args meets them. */
  function Symbols(f: Tree): seq<Name> {
    match f
    case Sym(n) => [n]
    case Pair(a, d) => Symbols(a) + Symbols(d)
    case Nil => []
    case Atom(_) => []
  }

  lemma SymbolsOf(f: Tree)
    ensures f.Pair? ==> Symbols(f) == Symbols(f.car) + Symbols(f.cdr)
    ensures !f.Pair? ==> Symbols(f) == if f.Sym? then [f.n] else []
  {
  }

  class Interpreter {
    var stacks: Stacks

    method SymbolPush(n: Name, v: Tree)
      modifies this
      ensures stacks == Pushed(old(stacks), [(n, v)])
    {
      assert [(n, v)][..0] == [];
      stacks := stacks[n := [v] + if n in stacks then stacks[n] else []];
    }

    /** pop_args. */
    method PopArgs(f0: Tree)
      modifies this
      ensures stacks == Popped(old(stacks), Symbols(f0))
      decreases f0
    {
      hide Popped, Symbols;
      var f := f0;
      ghost var done: seq<Name> := [];
      PoppedFew(old(stacks), 0);
      while f.Pair?
        invariant stacks == Popped(old(stacks), done) && Symbols(f0) == done + Symbols(f)
        invariant f == f0 || f < f0
        decreases f
      {
        PopArgs(f.car);
        SymbolsOf(f);
        PoppedConcat(old(stacks), done, Symbols(f.car));
        assert done + (Symbols(f.car) + Symbols(f.cdr)) == (done + Symbols(f.car)) + Symbols(f.cdr);
        done := done + Symbols(f.car);
        f := f.cdr;
      }
      SymbolsOf(f);
      PoppedConcat(old(stacks), done, Symbols(f));
      PoppedFew(stacks, if f.Sym? then f.n else 0);
      if f.Sym? {
        if f.n in stacks && |stacks[f.n]| > 1 {
          stacks := stacks[f.n := stacks[f.n][1..]];
        }
      }
    }

    /** push_args; false is the error case. */
    method PushArgs(f0: Tree, r0: Tree) returns (ok: bool)
      modifies this
      ensures ok <==> Bind(f0, r0).Some?
      ensures ok ==> stacks == Pushed(old(stacks), Bind(f0, r0).value)
      decreases f0, 1
    {
      hide Pushed;
      PushedNone(stacks);
      PrependNone(Bind(f0, r0));
      var f, r := f0, r0;
      ghost var done: Binds := [];
      while f.Pair? && r.Pair? && f.car != Sym(REST) && f.car != Sym(OPTIONAL)
        invariant stacks == Pushed(old(stacks), done) && Bind(f0, r0) == Prepend(done, Bind(f, r))
        invariant f == f0 || f < f0
        decreases f
      {
        ok := PushArgs(f.car, r.car);
        if !ok {
          return;
        }
        PushedConcat(old(stacks), done, Bind(f.car, r.car).value);
        PrependTwice(done, Bind(f.car, r.car).value, Bind(f.cdr, r.cdr));
        done := done + Bind(f.car, r.car).value;
        f, r := f.cdr, r.cdr;
      }
      if Bind(f, r).Some? {
        PushedConcat(old(stacks), done, Bind(f, r).value);
      }
      if !f.Nil? {
        if f.Sym? {
          SymbolPush(f.n, r);
          return true;
        } else if f.Pair? && f.car == Sym(OPTIONAL) {
          ok := ParseOptionalStuff(f, r);
          return;
        } else if f.Pair? && f.car == Sym(REST) {
          ok := ParseOptionalStuff(f, r);
          return;
        } else {
          return false;
        }
      }
      PushedNone(stacks);
      return r.Nil?;
    }

    /** parse_optional_stuff. */
    method ParseOptionalStuff(f0: Tree, r0: Tree) returns (ok: bool)
      requires Marked(f0)
      modifies this
      ensures ok <==> Bind(f0, r0).Some?
      ensures ok ==> stacks == Pushed(old(stacks), Bind(f0, r0).value)
      decreases f0, 0
    {
      hide Pushed;
      PushedNone(stacks);
      PrependNone(Bind(f0, r0));
      var f, r := f0, r0;
      ghost var done: Binds := [];
      if f.car == Sym(OPTIONAL) {
        SymbolPush(OPTIONAL, Nil);
        f, done := f.cdr, [(OPTIONAL, Nil)];
        while f.Pair? && f.car != Sym(REST)
          invariant stacks == Pushed(old(stacks), done) && Bind(f0, r0) == Prepend(done, Optionals(f, r))
          decreases f
        {
          if f.car.Sym? {
            ghost var b := [(f.car.n, if r.Pair? then r.car else Nil)];
            PushedConcat(old(stacks), done, b);
            PrependTwice(done, b, Optionals(f.cdr, if r.Pair? then r.cdr else r));
            done := done + b;
            if r.Pair? {
              SymbolPush(f.car.n, r.car);
              r := r.cdr;
            } else {
              SymbolPush(f.car.n, Nil);
            }
          } else if f.car.Pair? && f.car.car.Sym? && f.car.cdr.Pair? && f.car.cdr.cdr.Nil? {
            ghost var b := [(f.car.car.n, if r.Pair? then r.car else f.car.cdr.car)];
            PushedConcat(old(stacks), done, b);
            PrependTwice(done, b, Optionals(f.cdr, if r.Pair? then r.cdr else r));
            done := done + b;
            if r.Pair? {
              SymbolPush(f.car.car.n, r.car);
              r := r.cdr;
            } else {
              SymbolPush(f.car.car.n, f.car.cdr.car);
            }
          } else {
            return false;
          }
          f := f.cdr;
        }
      }
      if f.Pair? && f.car == Sym(REST) {
        SymbolPush(REST, Nil);
        f := f.cdr;
        if f.Pair? && f.cdr.Nil? && f.car.Sym? {
          PushedConcat(old(stacks), done, [(REST, Nil)]);
          PushedConcat(old(stacks), done + [(REST, Nil)], [(f.car.n, r)]);
          assert done + [(REST, Nil)] + [(f.car.n, r)] == done + [(REST, Nil), (f.car.n, r)];
          SymbolPush(f.car.n, r);
          return true;
        }
        return false;
      }
      assert done + [] == done;
      return f.Nil? && r.Nil?;
    }
  }

  lemma PrependNone(o: Option<Binds>)
    ensures Prepend([], o) == o
  {
    if o.Some? {
      assert [] + o.value == o.value;
    }
  }

  lemma PushedNone(s: Stacks)
    ensures Pushed(s, []) == s
  {
  }

  lemma PrependTwice(a: Binds, b: Binds, o: Option<Binds>)
    ensures Prepend(a, Prepend(b, o)) == Prepend(a + b, o)
  {
    if o.Some? {
      assert a + (b + o.value) == (a + b) + o.value;
    }
  }

  // ---------- what is popped and what was pushed ----------

  function Times(b: Binds, n: Name): nat {
    if b == [] then 0 else Times(b[..|b| - 1], n) + if b[|b| - 1].0 == n then 1 else 0
  }

  function Count(s: seq<Name>, n: Name): nat {
    if s == [] then 0 else Count(s[..|s| - 1], n) + if s[|s| - 1] == n then 1 else 0
  }

  lemma {:induction false} TimesConcat(a: Binds, b: Binds, n: Name)
    ensures Times(a + b, n) == Times(a, n) + Times(b, n)
  {
    if b == [] {
      assert a + b == a;
    } else {
      TimesConcat(a, b[..|b| - 1], n);
      assert (a + b)[..|a| + |b| - 1] == a + b[..|b| - 1];
    }
  }

  lemma {:induction false} CountConcat(a: seq<Name>, b: seq<Name>, n: Name)
    ensures Count(a + b, n) == Count(a, n) + Count(b, n)
  {
    if b == [] {
      assert a + b == a;
    } else {
      CountConcat(a, b[..|b| - 1], n);
      assert (a + b)[..|a| + |b| - 1] == a + b[..|b| - 1];
    }
  }

  /** Pushing adds one value for each binding, on top of what was there. */
  lemma {:induction false} PushedStack(s: Stacks, b: Binds, n: Name)
    ensures n in Pushed(s, b) <==> n in s || Times(b, n) > 0
    ensures n in s ==> |Pushed(s, b)[n]| == |s[n]| + Times(b, n) && Pushed(s, b)[n][Times(b, n)..] == s[n]
    decreases |b|
  {
    if b != [] {
      var p := |b| - 1;
      PushedStack(s, b[..p], n);
      if n in s && b[p].0 == n {
        assert Pushed(s, b)[n][1..] == Pushed(s, b[..p])[n];
        assert Pushed(s, b)[n][Times(b, n)..] == Pushed(s, b[..p])[n][Times(b[..p], n)..];
      }
    }
  }

  /** Popping removes values from the top, but never the last one. */
  lemma {:induction false} PoppedStack(s: Stacks, ns: seq<Name>, n: Name)
    requires n in s ==> s[n] != []
    ensures n in Popped(s, ns) <==> n in s
    ensures n in s ==> Popped(s, ns)[n] == s[n][if Count(ns, n) < |s[n]| then Count(ns, n) else |s[n]| - 1..]
    decreases |ns|
  {
    if ns != [] {
      PoppedStack(s, ns[..|ns| - 1], n);
    }
  }

  /** The symbols inside default values, which pop_args pops although nothing pushed them. */
  function Defaults(f: Tree): seq<Name>
    decreases f
  {
    if f.Pair? && Marked(f) then OptionalDefaults(f.cdr)
    else if f.Pair? then Defaults(f.car) + Defaults(f.cdr)
    else []
  }

  function OptionalDefaults(f: Tree): seq<Name>
    decreases f
  {
    if f.Pair? then (if Defaulted(f.car) then Symbols(f.car.cdr.car) else []) + OptionalDefaults(f.cdr) else []
  }

  lemma {:induction false} SymbolsBalance(f: Tree, r: Tree, n: Name)
    requires Bind(f, r).Some?
    ensures Count(Symbols(f), n) == Times(Bind(f, r).value, n) + Count(Defaults(f), n)
    decreases f
  {
    if f.Pair? && r.Pair? && !Marked(f) {
      SymbolsBalance(f.car, r.car, n);
      SymbolsBalance(f.cdr, r.cdr, n);
      CountConcat(Symbols(f.car), Symbols(f.cdr), n);
      CountConcat(Defaults(f.car), Defaults(f.cdr), n);
      TimesConcat(Bind(f.car, r.car).value, Bind(f.cdr, r.cdr).value, n);
    } else if Marked(f) && f.car == Sym(OPTIONAL) {
      OptionalsBalance(f.cdr, r, n);
      CountConcat([OPTIONAL], Symbols(f.cdr), n);
      TimesConcat([(OPTIONAL, Nil)], Optionals(f.cdr, r).value, n);
      OneOf(OPTIONAL, Nil, n);
    } else if Marked(f) {
      RestBalance(f, r, n);
    } else if f.Sym? {
      OneOf(f.n, r, n);
    }
  }

  lemma OneOf(m: Name, v: Tree, n: Name)
    ensures Count([m], n) == Times([(m, v)], n) == if m == n then 1 else 0
  {
    assert [m][..0] == [] && [(m, v)][..0] == [];
  }

  lemma RestBalance(f: Tree, r: Tree, n: Name)
    requires Rest(f, r).Some?
    ensures Count(Symbols(f), n) == Times(Rest(f, r).value, n) && Count(OptionalDefaults(f), n) == 0
    ensures f.Pair? ==> OptionalDefaults(f.cdr) == []
  {
    if f.Pair? {
      var m := f.cdr.car.n;
      assert Symbols(f.cdr) == [m] + Symbols(Nil) == [m] && Symbols(f) == [REST] + [m];
      assert OptionalDefaults(f.cdr.cdr) == [] && OptionalDefaults(f.cdr) == [] + [] && OptionalDefaults(f) == [] + [];
      assert Rest(f, r).value == [(REST, Nil)] + [(m, r)];
      CountConcat([REST], [m], n);
      TimesConcat([(REST, Nil)], [(m, r)], n);
      OneOf(REST, Nil, n);
      OneOf(m, r, n);
    }
  }

  lemma CountNone(n: Name)
    ensures Count([], n) == 0
  {
  }

  lemma DefaultedSymbols(f: Tree, n: Name)
    ensures Defaulted(f) ==> Count(Symbols(f), n) == (if f.car.n == n then 1 else 0) + Count(Symbols(f.cdr.car), n)
    ensures f.Sym? ==> Count(Symbols(f), n) == if f.n == n then 1 else 0
  {
    if Defaulted(f) {
      var d := Symbols(f.cdr.car);
      assert Symbols(f.cdr) == d + [] == d && Symbols(f) == [f.car.n] + d;
      CountConcat([f.car.n], d, n);
      OneOf(f.car.n, Nil, n);
    } else if f.Sym? {
      OneOf(f.n, Nil, n);
    }
  }

  lemma {:induction false} OptionalsBalance(f: Tree, r: Tree, n: Name)
    requires Optionals(f, r).Some?
    ensures Count(Symbols(f), n) == Times(Optionals(f, r).value, n) + Count(OptionalDefaults(f), n)
    decreases f
  {
    hide Count, Times;
    if f.Pair? && f.car != Sym(REST) {
      var rest := if r.Pair? then r.cdr else r;
      OptionalsBalance(f.cdr, rest, n);
      CountConcat(Symbols(f.car), Symbols(f.cdr), n);
      CountConcat(if Defaulted(f.car) then Symbols(f.car.cdr.car) else [], OptionalDefaults(f.cdr), n);
      var m := if f.car.Sym? then f.car.n else f.car.car.n;
      var v := if r.Pair? then r.car else if f.car.Sym? then Nil else f.car.cdr.car;
      TimesConcat([(m, v)], Optionals(f.cdr, rest).value, n);
      OneOf(m, v, n);
      DefaultedSymbols(f.car, n);
      CountNone(n);
      assert Optionals(f, r).value == [(m, v)] + Optionals(f.cdr, rest).value;
    } else {
      RestBalance(f, r, n);
    }
  }

  lemma {:induction false} CountNames(f: Tree, n: Name)
    ensures Count(Symbols(f), n) > 0 ==> n in Names(f)
  {
    match f
    case Pair(a, d) =>
      CountConcat(Symbols(a), Symbols(d), n);
      CountNames(a, n);
      CountNames(d, n);
    case Sym(m) => OneOf(m, Nil, n);
    case Nil =>
    case Atom(_) =>
  }

  /** One symbol, before and after. */
  lemma StackBack(f: Tree, r: Tree, s: Stacks, n: Name)
    requires Bind(f, r).Some? && Ready(s, f)
    ensures var t := Popped(Pushed(s, Bind(f, r).value), Symbols(f));
      (n in t <==> n in s) && (n in s ==> (t[n] == s[n] <==> Count(Defaults(f), n) == 0 || |s[n]| == 1))
  {
    hide Bind, Symbols, Defaults, Popped, Pushed, Times, Count;
    var b := Bind(f, r).value;
    var p := Pushed(s, b);
    SymbolsBalance(f, r, n);
    CountNames(f, n);
    PushedStack(s, b, n);
    PoppedStack(p, Symbols(f), n);
    if n in s {
      var d, x := Count(Defaults(f), n), Times(b, n);
      assert d < |s[n]| ==> p[n][x + d..] == s[n][d..];
    }
  }

  /** A successful push followed by a pop puts every stack back, unless a default value mentions
      a symbol that had a value to lose: the exact condition. */
  lemma Balanced(f: Tree, r: Tree, s: Stacks)
    requires Bind(f, r).Some? && Ready(s, f)
    ensures Popped(Pushed(s, Bind(f, r).value), Symbols(f)) == s <==>
      forall n :: n in s && Count(Defaults(f), n) > 0 ==> |s[n]| == 1
  {
    hide Bind, Symbols, Defaults, Popped, Pushed, Count;
    var t := Popped(Pushed(s, Bind(f, r).value), Symbols(f));
    forall n
      ensures (n in t <==> n in s) && (n in s ==> (t[n] == s[n] <==> Count(Defaults(f), n) == 0 || |s[n]| == 1))
    {
      StackBack(f, r, s, n);
    }
    if forall n :: n in s && Count(Defaults(f), n) > 0 ==> |s[n]| == 1 {
      assert forall n :: n in s ==> t[n] == s[n];
    }
  }

  /** (&optional (a b)) called without arguments loses the binding of b. */
  lemma DefaultSymbolIsPopped()
    ensures var f := Pair(Sym(OPTIONAL), Pair(Pair(Sym(2), Pair(Sym(3), Nil)), Nil));
      var s: Stacks := map[OPTIONAL := [Nil], 2 := [Nil], 3 := [Atom(7), Nil]];
      Bind(f, Nil).Some? && Ready(s, f) && Popped(Pushed(s, Bind(f, Nil).value), Symbols(f)) != s
  {
    var inner := Pair(Sym(2), Pair(Sym(3), Nil));
    var f := Pair(Sym(OPTIONAL), Pair(inner, Nil));
    var s: Stacks := map[OPTIONAL := [Nil], 2 := [Nil], 3 := [Atom(7), Nil]];
    assert Optionals(Nil, Nil) == Some([]);
    assert Bind(f, Nil).Some?;
    assert Defaults(f) == OptionalDefaults(Pair(inner, Nil)) == Symbols(Sym(3)) + OptionalDefaults(Nil) == [3];
    OneOf(3, Nil, 3);
    Balanced(f, Nil, s);
  }

  // ---------- which part of the actuals a symbol gets ----------

  datatype Step = Car | Cdr | Skip      // Skip: a cdr if there is one

  function Sub(t: Tree, p: seq<Step>): Option<Tree>
    decreases |p|
  {
    if p == [] then Some(t)
    else if p[0] == Skip then Sub(if t.Pair? then t.cdr else t, p[1..])
    else if !t.Pair? then None
    else Sub(if p[0] == Car then t.car else t.cdr, p[1..])
  }

  function Under(st: Step, ls: seq<(Name, seq<Step>)>): seq<(Name, seq<Step>)> {
    seq(|ls|, i requires 0 <= i < |ls| => (ls[i].0, [st] + ls[i].1))
  }

  /** The required and rest symbols of a formal tree, with their places. */
  function Places(f: Tree): seq<(Name, seq<Step>)>
    decreases f
  {
    if f.Sym? then [(f.n, [])]
    else if Marked(f) then (if f.car == Sym(OPTIONAL) then AfterOptional(f.cdr) else RestPlace(f))
    else if f.Pair? then Under(Car, Places(f.car)) + Under(Cdr, Places(f.cdr))
    else []
  }

  function AfterOptional(f: Tree): seq<(Name, seq<Step>)>
    decreases f
  {
    if f.Pair? && f.car != Sym(REST) then Under(Skip, AfterOptional(f.cdr)) else RestPlace(f)
  }

  function RestPlace(f: Tree): seq<(Name, seq<Step>)> {
    if f.Pair? && f.cdr.Pair? && f.cdr.car.Sym? then [(f.cdr.car.n, [])] else []
  }

  ghost predicate Gets(b: Binds, r: Tree, x: (Name, seq<Step>)) {
    Sub(r, x.1).Some? && (x.0, Sub(r, x.1).value) in b
  }

  /** Each required or rest symbol is bound to the part of the actuals at its own place. */
  lemma {:induction false} BoundToPlace(f: Tree, r: Tree, x: (Name, seq<Step>))
    requires Bind(f, r).Some? && x in Places(f)
    ensures Gets(Bind(f, r).value, r, x)
    decreases f
  {
    if f.Pair? && r.Pair? && !Marked(f) {
      if x in Under(Car, Places(f.car)) {
        var i :| 0 <= i < |Places(f.car)| && Under(Car, Places(f.car))[i] == x;
        BoundToPlace(f.car, r.car, Places(f.car)[i]);
        assert x.1[1..] == Places(f.car)[i].1;
      } else {
        var i :| 0 <= i < |Places(f.cdr)| && Under(Cdr, Places(f.cdr))[i] == x;
        BoundToPlace(f.cdr, r.cdr, Places(f.cdr)[i]);
        assert x.1[1..] == Places(f.cdr)[i].1;
      }
    } else if Marked(f) && f.car == Sym(OPTIONAL) {
      AfterOptionalPlace(f.cdr, r, x);
    }
  }

  lemma {:induction false} AfterOptionalPlace(f: Tree, r: Tree, x: (Name, seq<Step>))
    requires Optionals(f, r).Some? && x in AfterOptional(f)
    ensures Gets(Optionals(f, r).value, r, x)
    decreases f
  {
    if f.Pair? && f.car != Sym(REST) {
      var i :| 0 <= i < |AfterOptional(f.cdr)| && Under(Skip, AfterOptional(f.cdr))[i] == x;
      AfterOptionalPlace(f.cdr, if r.Pair? then r.cdr else r, AfterOptional(f.cdr)[i]);
      assert x.1[1..] == AfterOptional(f.cdr)[i].1;
    }
  }

  // ---------- what an optional symbol gets ----------

  /** An optional symbol: where its actual argument would be, and what stands in for it. */
  datatype Choice = Choice(n: Name, place: seq<Step>, default: Tree)

  function Below(st: Step, cs: seq<Choice>): seq<Choice> {
    seq(|cs|, i requires 0 <= i < |cs| => cs[i].(place := [st] + cs[i].place))
  }

  /** The optional symbols of a formal tree. */
  function Choices(f: Tree): seq<Choice>
    decreases f
  {
    if Marked(f) then (if f.car == Sym(OPTIONAL) then Optional(f.cdr) else [])
    else if f.Pair? then Below(Car, Choices(f.car)) + Below(Cdr, Choices(f.cdr))
    else []
  }

  function Optional(f: Tree): seq<Choice>
    decreases f
  {
    if f.Pair? && f.car != Sym(REST) then
      (if f.car.Sym? then [Choice(f.car.n, [], Nil)]
       else if Defaulted(f.car) then [Choice(f.car.car.n, [], f.car.cdr.car)] else [])
      + Below(Skip, Optional(f.cdr))
    else []
  }

  /** Bound to the actual argument at its place, or to its default when there is none. */
  ghost predicate Chosen(b: Binds, r: Tree, x: Choice) {
    var at := Sub(r, x.place);
    at.Some? && (x.n, if at.value.Pair? then at.value.car else x.default) in b
  }

  lemma {:induction false} BoundOrDefault(f: Tree, r: Tree, x: Choice)
    requires Bind(f, r).Some? && x in Choices(f)
    ensures Chosen(Bind(f, r).value, r, x)
    decreases f
  {
    if f.Pair? && r.Pair? && !Marked(f) {
      if x in Below(Car, Choices(f.car)) {
        var i :| 0 <= i < |Choices(f.car)| && Below(Car, Choices(f.car))[i] == x;
        BoundOrDefault(f.car, r.car, Choices(f.car)[i]);
        assert x.place[1..] == Choices(f.car)[i].place;
      } else {
        var i :| 0 <= i < |Choices(f.cdr)| && Below(Cdr, Choices(f.cdr))[i] == x;
        BoundOrDefault(f.cdr, r.cdr, Choices(f.cdr)[i]);
        assert x.place[1..] == Choices(f.cdr)[i].place;
      }
    } else if Marked(f) && f.car == Sym(OPTIONAL) {
      OptionalChosen(f.cdr, r, x);
    }
  }

  lemma {:induction false} OptionalChosen(f: Tree, r: Tree, x: Choice)
    requires Optionals(f, r).Some? && x in Optional(f)
    ensures Chosen(Optionals(f, r).value, r, x)
    decreases f
  {
    if x in Below(Skip, Optional(f.cdr)) {
      var i :| 0 <= i < |Optional(f.cdr)| && Below(Skip, Optional(f.cdr))[i] == x;
      OptionalChosen(f.cdr, if r.Pair? then r.cdr else r, Optional(f.cdr)[i]);
      assert x.place[1..] == Optional(f.cdr)[i].place;
    }
  }
}
