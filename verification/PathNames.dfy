/** File names as stacks of components (src/fileio.c:496-575). */
module PathNames {
  import opened Basics

  /** One component: not empty, no slash. */
  predicate Component(c: string) { c != "" && '/' !in c }

  /** A component of a normalised name. */
  predicate Normal(c: string) { Component(c) && c != "." && c != ".." }

  predicate NormalStack(st: seq<string>) { forall c :: c in st ==> Normal(c) }

  const STRING_BUFFER := 4096
  const LIMIT := STRING_BUFFER - 10
  const FILELEN := 1024

  function Joined(st: seq<string>): string {
    if st == [] then "" else Joined(st[..|st| - 1]) + "/" + st[|st| - 1]
  }

  function Render(st: seq<string>): string { if st == [] then "/" else Joined(st) }

  /** Length of the part of t before its first slash. */
  function Run(t: string): (n: nat)
    ensures n <= |t| && (forall i :: 0 <= i < n ==> t[i] != '/') && (n < |t| ==> t[n] == '/')
  {
    if t == "" || t[0] == '/' then 0 else 1 + Run(t[1..])
  }

  /** The components of a name, empty ones left out. */
  function Comps(t: string): (cs: seq<string>)
    ensures forall c :: c in cs ==> Component(c)
    decreases |t|
  {
    if t == "" then []
    else if t[0] == '/' then Comps(t[1..])
    else
      assert '/' !in t[..Run(t)];
      [t[..Run(t)]] + Comps(t[Run(t)..])
  }

  function Parent(st: seq<string>): seq<string> { if st == [] then [] else st[..|st| - 1] }

  /** The component-stack semantics; None when the name outgrows the buffer. */
  function Walk(st: seq<string>, cs: seq<string>): Option<seq<string>>
    decreases |cs|
  {
    if cs == [] then Some(st)
    else if cs[0] == "." then Walk(st, cs[1..])
    else if cs[0] == ".." then Walk(Parent(st), cs[1..])
    else if |Render(st + [cs[0]])| > LIMIT then None
    else Walk(st + [cs[0]], cs[1..])
  }

  predicate Absolute(f: Option<string>) { f.Some? && f.value != "" && f.value[0] == '/' }

  function Text(f: Option<string>): string { if f.Some? then f.value else "" }

  /** A normalised absolute directory that fits. */
  predicate GoodDir(d: string) { d == Render(Comps(d)) && NormalStack(Comps(d)) && |d| <= LIMIT }

  /** What concat_fname stands for, as a stack. */
  function Concat(from: Option<string>, fname: Option<string>, cwd: string): Option<seq<string>>
    decreases from.Some?
  {
    if Absolute(fname) then Walk([], Comps(Text(fname)))
    else if from.Some? then
      var st := Concat(None, from, cwd);
      if st.None? then None else Walk(st.value, Comps(Text(fname)))
    else Walk(Comps(cwd), Comps(Text(fname)))
  }

  /** No empty, dot or dot-dot component survives, and the result fits. */
  lemma {:induction false} WalkNormal(st: seq<string>, cs: seq<string>)
    requires NormalStack(st) && (forall c :: c in cs ==> Component(c)) && |Render(st)| <= LIMIT
    ensures Walk(st, cs).Some? ==> NormalStack(Walk(st, cs).value) && |Render(Walk(st, cs).value)| <= LIMIT
    decreases |cs|
  {
    if cs != [] {
      assert cs[0] in cs && forall c :: c in cs[1..] ==> c in cs;
      ParentShorter(st);
      if cs[0] == "." {
        WalkNormal(st, cs[1..]);
      } else if cs[0] == ".." {
        WalkNormal(Parent(st), cs[1..]);
      } else if |Render(st + [cs[0]])| <= LIMIT {
        WalkNormal(st + [cs[0]], cs[1..]);
      }
    }
  }

  lemma ParentShorter(st: seq<string>)
    ensures |Render(Parent(st))| <= |Render(st)|
    ensures NormalStack(st) ==> NormalStack(Parent(st))
  {
  }

  lemma ConcatNormal(from: Option<string>, fname: Option<string>, cwd: string)
    requires GoodDir(cwd)
    ensures var r := Concat(from, fname, cwd); r.Some? ==> NormalStack(r.value) && |Render(r.value)| <= LIMIT
    decreases from.Some?
  {
    var cs := Comps(Text(fname));
    if Absolute(fname) {
      WalkNormal([], cs);
    } else if from.Some? {
      ConcatNormal(None, from, cwd);
      var st := Concat(None, from, cwd);
      if st.Some? {
        WalkNormal(st.value, cs);
      }
    } else {
      WalkNormal(Comps(cwd), cs);
    }
  }

  /** Splitting what was joined gives the components back. */
  lemma {:induction false} CompsAfter(t: string, u: string)
    requires u == "" || u[0] == '/'
    ensures Comps(t + u) == Comps(t) + Comps(u)
    decreases |t|
  {
    if t == "" {
      assert t + u == u;
    } else if t[0] == '/' {
      CompsAfter(t[1..], u);
      assert (t + u)[1..] == t[1..] + u;
    } else {
      RunAfter(t, u);
      hide Run;
      var n := Run(t);
      CompsAfter(t[n..], u);
      assert (t + u)[..n] == t[..n] && (t + u)[n..] == t[n..] + u;
    }
  }

  lemma {:induction false} RunAfter(t: string, u: string)
    requires u == "" || u[0] == '/'
    ensures Run(t + u) == Run(t) && (t != "" && t[0] != '/' ==> Run(t) >= 1)
  {
    if t == "" {
      assert t + u == u;
    } else {
      assert (t + u)[1..] == t[1..] + u;
      RunAfter(t[1..], u);
    }
  }

  lemma CompsOne(c: string)
    requires Component(c)
    ensures Comps("/" + c) == [c] && Comps(c) == [c]
  {
    var t := "/" + c;
    assert t[0] == '/' && t[1..] == c && c[0] in c;
    assert forall i :: 0 <= i < |c| ==> c[i] in c;
    assert c[..Run(c)] == c && c[Run(c)..] == "" && Comps("") == [];
    assert Comps(t) == Comps(t[1..]);
  }

  lemma {:induction false} CompsJoined(st: seq<string>)
    requires forall c :: c in st ==> Component(c)
    ensures Comps(Joined(st)) == st && Comps(Render(st)) == st
  {
    hide Comps, Run, Joined;
    RootComps();
    JoinedLast(st);
    if st != [] {
      var p := |st| - 1;
      assert st[p] in st && forall c :: c in st[..p] ==> c in st;
      CompsJoined(st[..p]);
      CompsAfter(Joined(st[..p]), "/" + st[p]);
      CompsOne(st[p]);
      assert st == st[..p] + [st[p]];
    }
  }

  lemma JoinedLast(st: seq<string>)
    ensures st == [] ==> Joined(st) == ""
    ensures st != [] ==> Joined(st) == Joined(st[..|st| - 1]) + ("/" + st[|st| - 1])
  {
  }

  lemma RootComps()
    ensures Comps("") == [] && Comps("/") == []
  {
    assert "/"[1..] == "";
  }

  /** A normalised name walks to itself. */
  lemma {:induction false} WalkSelf(st: seq<string>, cs: seq<string>)
    requires NormalStack(cs) && |Render(st + cs)| <= LIMIT
    ensures Walk(st, cs) == Some(st + cs)
    decreases |cs|
  {
    if cs == [] {
      assert st + cs == st;
    } else {
      assert cs[0] in cs && forall c :: c in cs[1..] ==> c in cs;
      assert st + cs == (st + [cs[0]]) + cs[1..];
      JoinedGrows(st + [cs[0]], cs[1..]);
      WalkSelf(st + [cs[0]], cs[1..]);
    }
  }

  lemma JoinedPush(a: seq<string>, c: string)
    ensures Joined(a + [c]) == Joined(a) + "/" + c
  {
    assert (a + [c])[..|a|] == a;
  }

  lemma {:induction false} JoinedSum(a: seq<string>, b: seq<string>)
    ensures Joined(a + b) == Joined(a) + Joined(b)
    decreases |b|
  {
    if b == [] {
      assert a + b == a;
    } else {
      hide Joined;
      var p, c := b[..|b| - 1], b[|b| - 1];
      assert b == p + [c] && a + b == (a + p) + [c];
      JoinedSum(a, p);
      JoinedPush(a + p, c);
      JoinedPush(p, c);
    }
  }

  lemma JoinedGrows(a: seq<string>, b: seq<string>)
    ensures |Joined(a + b)| >= |Joined(a)| && (a != [] ==> |Render(a + b)| >= |Render(a)|)
    ensures Joined(a + b) == Joined(a) + Joined(b)
  {
    JoinedSum(a, b);
    hide Joined;
  }

  lemma RenderAbsolute(st: seq<string>)
    ensures Render(st) != "" && Render(st)[0] == '/'
  {
    if st != [] {
      JoinedGrows([st[0]], st[1..]);
      assert [st[0]] + st[1..] == st && [st[0]][..0] == [];
    }
  }

  /** Normalising twice is normalising once. */
  lemma Idempotent(from: Option<string>, fname: Option<string>, cwd: string)
    requires GoodDir(cwd)
    ensures var r := Concat(from, fname, cwd); r.Some? ==> Concat(None, Some(Render(r.value)), cwd) == r
  {
    var r := Concat(from, fname, cwd);
    ConcatNormal(from, fname, cwd);
    if r.Some? {
      RenderAbsolute(r.value);
      CompsJoined(r.value);
      assert [] + r.value == r.value;
      WalkSelf([], r.value);
    }
  }

  // ---------- what a name is relative to ----------

  lemma {:induction false} WalkMore(st: seq<string>, a: seq<string>, b: seq<string>)
    ensures Walk(st, a + b) == if Walk(st, a).None? then None else Walk(Walk(st, a).value, b)
    decreases |a|
  {
    if a == [] {
      assert a + b == b;
    } else {
      assert (a + b)[1..] == a[1..] + b;
      if a[0] == "." {
        WalkMore(st, a[1..], b);
      } else if a[0] == ".." {
        WalkMore(Parent(st), a[1..], b);
      } else if |Render(st + [a[0]])| <= LIMIT {
        WalkMore(st + [a[0]], a[1..], b);
      }
    }
  }

  lemma CompsBeside(t: string, u: string)
    ensures Comps(t + "/" + u) == Comps(t) + Comps(u)
  {
    CompsAfter(t, "/" + u);
    CompsSlash("/" + u);
    assert ("/" + u)[1..] == u && t + "/" + u == t + ("/" + u);
  }

  /** A relative name starts at the working directory, an absolute one at the root, whatever
      the working directory is. */
  lemma RelativeToCwd(t: string, cwd: string)
    requires GoodDir(cwd)
    ensures Absolute(Some(t)) ==> forall d, from :: Concat(from, Some(t), d) == Concat(None, Some(t), cwd)
    ensures !Absolute(Some(t)) ==> Concat(None, Some(t), cwd) == Concat(None, Some(cwd + "/" + t), cwd)
  {
    if !Absolute(Some(t)) {
      var st := Comps(cwd);
      CompsBeside(cwd, t);
      RenderAbsolute(st);
      WalkMore([], st, Comps(t));
      assert [] + st == st;
      WalkSelf([], st);
    }
  }

  /** And with a first name, at what that one stands for; when that one is too long there is
      no result. */
  lemma RelativeToFrom(from: string, t: string, cwd: string)
    requires GoodDir(cwd) && !Absolute(Some(t))
    ensures var st := Concat(None, Some(from), cwd);
      Concat(Some(from), Some(t), cwd) ==
        if st.None? then None else Concat(None, Some(Render(st.value) + "/" + t), cwd)
  {
    var st := Concat(None, Some(from), cwd);
    if st.Some? {
      ConcatNormal(None, Some(from), cwd);
      CompsJoined(st.value);
      CompsBeside(Render(st.value), t);
      RenderAbsolute(st.value);
      WalkMore([], st.value, Comps(t));
      assert [] + st.value == st.value;
      WalkSelf([], st.value);
    }
  }

  /** Joining two names does what writing them one behind the other does. */
  lemma JoinIsText(t: string, u: string, cwd: string)
    requires t != "" && !Absolute(Some(u))
    ensures Concat(Some(t), Some(u), cwd) == Concat(None, Some(t + "/" + u), cwd)
  {
    CompsBeside(t, u);
    WalkMore(if t[0] == '/' then [] else Comps(cwd), Comps(t), Comps(u));
  }

  /** What one more component does to a name: dot stays, dot-dot goes up and stays at the
      root, and any other is entered unless the result is too long. */
  lemma OneMore(t: string, c: string, cwd: string)
    requires t != "" && Component(c)
    ensures var st := Concat(None, Some(t), cwd);
      Concat(None, Some(t + "/" + c), cwd) ==
        if st.None? || c == "." then st
        else if c == ".." then Some(if st.value == [] then [] else st.value[..|st.value| - 1])
        else if |Render(st.value)| + |c| + (if st.value == [] then 0 else 1) > LIMIT then None
        else Some(st.value + [c])
  {
    CompsBeside(t, c);
    CompsOne(c);
    WalkMore(if t[0] == '/' then [] else Comps(cwd), Comps(t), [c]);
    var st := Concat(None, Some(t), cwd);
    if st.Some? {
      WalkStep(st.value, c, []);
      assert [c] + [] == [c];
      JoinedPush(st.value, c);
      assert Joined([]) == "";
    }
  }

  /** No name at all, an empty one or slashes alone: the directory itself. */
  lemma NoName(cwd: string)
    ensures Concat(None, None, cwd) == Concat(None, Some(""), cwd) == Some(Comps(cwd))
    ensures forall t: string :: (forall i :: 0 <= i < |t| ==> t[i] == '/') && t != "" ==>
      Concat(None, Some(t), cwd) == Some([])
  {
    forall t: string | (forall i :: 0 <= i < |t| ==> t[i] == '/') && t != ""
      ensures Concat(None, Some(t), cwd) == Some([])
    {
      SlashesAlone(t);
    }
  }

  lemma {:induction false} SlashesAlone(t: string)
    requires forall i :: 0 <= i < |t| ==> t[i] == '/'
    ensures Comps(t) == []
    decreases |t|
  {
    if t != "" {
      SlashesAlone(t[1..]);
    }
  }

  // ---------- the scan in the buffer ----------

  /** The buffer holds a stack, with or without a trailing slash. */
  ghost predicate Spells(b: string, st: seq<string>) {
    b == Render(st) || (st != [] && b == Joined(st) + "/")
  }

  /** Slashes between components mean nothing. */
  lemma CompsSlash(t: string)
    ensures t != "" && t[0] == '/' ==> Comps(t) == Comps(t[1..])
    ensures t == "" ==> Comps(t) == []
  {
  }

  /** The next component, and how the scan tells the two special ones apart. */
  lemma NextComp(t: string)
    requires t != "" && t[0] != '/'
    ensures var n := Run(t); n >= 1 && Component(t[..n]) && Comps(t) == [t[..n]] + Comps(t[n..])
    ensures t[..Run(t)] == "." <==> t[0] == '.' && (|t| == 1 || t[1] == '/')
    ensures t[..Run(t)] == ".." <==> t[0] == '.' && |t| > 1 && t[1] == '.' && (|t| == 2 || t[2] == '/')
  {
    var n := Run(t);
    assert |t[..n]| == n;
    if n >= 1 { assert t[..n][0] == t[0]; }
    if n >= 2 { assert t[..n][1] == t[1]; }
  }

  lemma WalkStep(st: seq<string>, c: string, cs: seq<string>)
    ensures Walk(st, [c] + cs) ==
      if c == "." then Walk(st, cs)
      else if c == ".." then Walk(Parent(st), cs)
      else if |Render(st + [c])| > LIMIT then None else Walk(st + [c], cs)
  {
    assert ([c] + cs)[1..] == cs;
  }

  lemma JoinedEnds(st: seq<string>)
    requires NormalStack(st) && st != []
    ensures var p, c := Joined(Parent(st)), st[|st| - 1];
      && Component(c) && Joined(st) == p + "/" + c && |Joined(st)| == |p| + 1 + |c|
      && (Parent(st) == [] <==> p == "")
    ensures var p, b := Joined(Parent(st)), Joined(st);
      |b| >= |p| + 2 && b[|p|] == '/' && forall i :: |p| < i < |b| ==> b[i] != '/'
  {
    var p, b, c := Joined(Parent(st)), Joined(st), st[|st| - 1];
    assert c in st;
    forall i | |p| < i < |b| ensures b[i] != '/' {
      assert b[i] == c[i - |p| - 1] && c[i - |p| - 1] in c;
    }
    if |st| > 1 {
      JoinedGrows([st[0]], Parent(st)[1..]);
      assert [st[0]] + Parent(st)[1..] == Parent(st) && [st[0]][..0] == [];
    }
  }

  class FileNames {
    const buffer: array<char>

    constructor ()
      ensures buffer.Length == STRING_BUFFER && fresh(buffer)
    {
      buffer := new char[STRING_BUFFER](i => '0');
    }

    /** Drops trailing slashes. */
    method Strip(s0: nat, ghost st: seq<string>) returns (s: nat)
      requires s0 <= buffer.Length && NormalStack(st) && Spells(buffer[..s0], st)
      ensures s <= s0 && buffer[..s] == Render(st)
    {
      hide NormalStack;
      ghost var b := buffer[..s0];
      if st != [] {
        JoinedEnds(st);
      }
      hide Joined;
      s := s0;
      while s > 1 && buffer[s - 1] == '/'
        invariant |Render(st)| <= s <= s0 && buffer[..s] == b[..s]
        invariant b[..|Render(st)|] == Render(st)
      {
        assert buffer[s - 1] == b[s - 1];
        s := s - 1;
      }
    }

    /** Drops the last component, leaving a slash. */
    method DropLast(s0: nat, ghost st: seq<string>) returns (s: nat)
      requires s0 <= buffer.Length && NormalStack(st) && Spells(buffer[..s0], st)
      ensures s <= s0 && Spells(buffer[..s], Parent(st))
    {
      s := Strip(s0, st);
      ghost var b := buffer[..s];
      if st != [] {
        JoinedEnds(st);
      }
      ghost var k := if st == [] then 1 else |Joined(Parent(st))| + 1;
      hide Joined;
      while s > 1 && buffer[s - 1] != '/'
        invariant k <= s <= |b| && buffer[..s] == b[..s]
      {
        assert b[s - 1] == buffer[s - 1];
        s := s - 1;
      }
    }

    /** Appends one component; false when the name becomes too long. Writes stay in the buffer. */
    method Append(s0: nat, c: string, ghost st: seq<string>) returns (ok: bool, s: nat)
      requires buffer.Length == STRING_BUFFER && s0 <= LIMIT + 1 && Spells(buffer[..s0], st) && Normal(c)
      requires NormalStack(st)
      modifies buffer
      ensures ok <==> |Render(st + [c])| <= LIMIT
      ensures ok ==> s <= LIMIT && buffer[..s] == Render(st + [c])
    {
      ghost var base := if st == [] then "/" else Joined(st) + "/";
      RenderMore(st, c);
      LastSlash(st);
      hide Joined, Render, NormalStack;
      s := s0;
      if s == 0 || buffer[s - 1] != '/' {
        buffer[s] := '/';
        s := s + 1;
      }
      assert buffer[..s] == base;
      var i := 0;
      while i < |c|
        invariant 0 <= i <= |c| && s == |base| + i && s <= LIMIT + 2 && (i > 0 ==> s <= LIMIT)
        invariant buffer[..s] == base + c[..i]
      {
        buffer[s] := c[i];
        s, i := s + 1, i + 1;
        assert buffer[..s] == base + c[..i];
        if s > STRING_BUFFER - 10 {
          return false, s;
        }
      }
      assert c[..i] == c;
      return true, s;
    }

    /** The loop over the second name, behind a normalised first one. */
    method Scan(f: string, s0: nat, ghost st0: seq<string>) returns (ok: bool, s: nat)
      requires buffer.Length == STRING_BUFFER && s0 <= LIMIT && buffer[..s0] == Render(st0) && NormalStack(st0)
      modifies buffer
      ensures ok <==> Walk(st0, Comps(f)).Some?
      ensures ok ==> s <= LIMIT && buffer[..s] == Render(Walk(st0, Comps(f)).value)
    {
      hide Joined, Render, Comps, Run, Walk, NormalStack;
      s := s0;
      var i := 0;
      ghost var st := st0;
      assert f[0..] == f;
      while true
        invariant 0 <= i <= |f| && Walk(st0, Comps(f)) == Walk(st, Comps(f[i..]))
        invariant s <= LIMIT + 1 && Spells(buffer[..s], st) && NormalStack(st) && |Render(st)| <= LIMIT
        decreases |f| - i
      {
        i := SkipSlashes(f, i);
        if i == |f| {
          CompsSlash(f[i..]);
          WalkEnd(st);
          s := Strip(s, st);
          return true, s;
        }
        ghost var n := Run(f[i..]);
        NextComp(f[i..]);
        WalkStep(st, f[i..][..n], Comps(f[i..][n..]));
        assert f[i..][n..] == f[i + n..];
        if f[i] == '.' {
          if i + 1 == |f| || f[i + 1] == '/' {
            assert n == 1;
            i := i + 1;
            continue;
          }
          if f[i + 1] == '.' {
            if i + 2 == |f| || f[i + 2] == '/' {
              assert n == 2;
              i := i + 2;
              ParentShorter(st);
              s := DropLast(s, st);
              st := Parent(st);
              continue;
            }
          }
        }
        var e := i;
        while e < |f| && f[e] != '/'
          invariant i <= e <= |f| && forall k :: i <= k < e ==> f[k] != '/'
        {
          e := e + 1;
        }
        RunIs(f[i..], e - i);
        ok, s := Append(s, f[i..e], st);
        assert f[i..][..n] == f[i..e];
        if !ok {
          return false, s;
        }
        MoreNormal(st, f[i..e]);
        st := st + [f[i..e]];
        i := e;
      }
    }

    method SkipSlashes(f: string, i0: nat) returns (i: nat)
      requires i0 <= |f|
      ensures i0 <= i <= |f| && Comps(f[i..]) == Comps(f[i0..]) && (i < |f| ==> f[i] != '/')
    {
      hide Comps;
      i := i0;
      while i < |f| && f[i] == '/'
        invariant i0 <= i <= |f| && Comps(f[i..]) == Comps(f[i0..])
      {
        CompsSlash(f[i..]);
        assert f[i..][1..] == f[i + 1..];
        i := i + 1;
      }
    }

    /** concat_fname: the result stands at the front of the buffer; false is the length error. */
    method ConcatFname(from: Option<string>, fname: Option<string>, cwd: string) returns (ok: bool, s: nat)
      requires buffer.Length == STRING_BUFFER && GoodDir(cwd)
      modifies buffer
      ensures ok <==> Concat(from, fname, cwd).Some?
      ensures ok ==> s <= LIMIT && buffer[..s] == Render(Concat(from, fname, cwd).value)
      decreases from.Some?
    {
      hide Walk, Comps, Joined;
      ghost var st: seq<string> := [];
      if fname.Some? && fname.value != "" && fname.value[0] == '/' {
        buffer[0] := '/';
        s := 1;
      } else if from.Some? {
        ok, s := ConcatFname(None, from, cwd);
        if !ok {
          return;
        }
        ConcatNormal(None, from, cwd);
        st := Concat(None, from, cwd).value;
      } else {
        var i := 0;
        while i < |cwd|
          invariant 0 <= i <= |cwd| && buffer[..i] == cwd[..i]
        {
          buffer[i] := cwd[i];
          i := i + 1;
        }
        assert cwd[..i] == cwd;
        s, st := i, Comps(cwd);
      }
      ok, s := Scan(if fname.Some? then fname.value else "", s, st);
    }

    /** relative_fname: the tail of the second name, None when it does not lie under the first
        or the first is too long to keep. */
    method RelativeFname(from: string, fname: string, cwd: string) returns (r: Option<string>, tooLong: bool)
      requires buffer.Length == STRING_BUFFER && GoodDir(cwd)
      modifies buffer
      ensures var p, q := Concat(None, Some(from), cwd), Concat(None, Some(fname), cwd);
        && (tooLong <==> p.None? || (|Render(p.value)| < FILELEN && q.None?))
        && (r.Some? <==> p.Some? && |Render(p.value)| < FILELEN && q.Some? && p.value <= q.value)
      ensures r.Some? ==> Concat(Some(from), r, cwd) == Concat(None, Some(fname), cwd)
    {
      hide Walk, Comps, Joined, Render, NormalStack;
      r, tooLong := None, false;
      var ok, n := ConcatFname(None, Some(from), cwd);
      if !ok {
        return None, true;
      }
      ghost var p := Concat(None, Some(from), cwd).value;
      if n > FILELEN - 1 {
        return None, false;
      }
      var a := buffer[..n];
      var m;
      ok, m := ConcatFname(None, Some(fname), cwd);
      if !ok {
        return None, true;
      }
      var b := buffer[..m];
      ghost var q := Concat(None, Some(fname), cwd).value;
      ConcatNormal(None, Some(from), cwd);
      ConcatNormal(None, Some(fname), cwd);
      UnderIff(p, q);
      if n > 0 && n <= m && a == b[..n] {
        if n == m {
          assert a == b;
          StayHere(p);
          return Some("."), false;
        }
        if b[n] == '/' {
          BackAgain(p, q, b[n + 1..]);
          return Some(b[n + 1..]), false;
        }
        if b[n - 1] == '/' {
          BackAgain(p, q, b[n..]);
          return Some(b[n..]), false;
        }
      }
      return None, false;
    }
  }

  /** The string test of relative_fname says that one stack is a prefix of the other. */
  ghost predicate StringUnder(a: string, b: string) {
    && 0 < |a| <= |b| && a == b[..|a|]
    && (|a| == |b| || b[|a|] == '/' || b[|a| - 1] == '/')
  }

  /** What follows the first slash of a joined stack. */
  lemma FrontOf(d: seq<string>)
    requires NormalStack(d) && d != []
    ensures var b := Joined(d); |b| >= 2 && b[0] == '/' && b[1] != '/' && Comps(b[1..]) == d
  {
    var c := d[0];
    assert c in d && c[0] in c;
    JoinedGrows([c], d[1..]);
    assert d == [c] + d[1..] && [c][..0] == [];
    assert Joined([c]) == "/" + c;
    CompsJoined(d);
    CompsSlash(Joined(d));
  }

  lemma UnderIff(p: seq<string>, q: seq<string>)
    requires NormalStack(p) && NormalStack(q)
    ensures p <= q <==> StringUnder(Render(p), Render(q))
    ensures p <= q && p != q ==> Continues(p, q, Render(p), Render(q))
  {
    hide Joined, Comps, NormalStack, StringUnder;
    if p <= q {
      TailUnder(p, q);
    }
    if StringUnder(Render(p), Render(q)) {
      NotUnder(p, q);
    }
  }

  /** The written form of q goes on after that of p with the components beyond p. */
  ghost predicate Continues(p: seq<string>, q: seq<string>, a: string, b: string) {
    && 0 < |a| < |b|
    && if b[|a|] == '/' then TailOf(p, q, b[|a| + 1..]) else b[|a| - 1] == '/' && TailOf(p, q, b[|a|..])
  }

  lemma TailUnder(p: seq<string>, q: seq<string>)
    requires NormalStack(p) && NormalStack(q) && p <= q
    ensures StringUnder(Render(p), Render(q))
    ensures p != q ==> Continues(p, q, Render(p), Render(q))
  {
    hide Joined, Comps;
    var d := q[|p|..];
    assert q == p + d && forall c :: c in d ==> c in q;
    RenderAbsolute(q);
    if d == [] {
      assert p == q;
    } else {
      FrontOf(d);
      JoinedGrows(p, d);
      LastSlash(p);
      if p == [] {
        assert d == q;
      } else {
        var a, b := Render(p), Render(q);
        assert b == a + Joined(d) && b[|a|] == Joined(d)[0] && b[|a| + 1..] == Joined(d)[1..];
      }
    }
  }

  lemma NotUnder(p: seq<string>, q: seq<string>)
    requires NormalStack(p) && NormalStack(q) && StringUnder(Render(p), Render(q))
    ensures p <= q
  {
    var a, b := Render(p), Render(q);
    LastSlash(p);
    CompsJoined(p);
    CompsJoined(q);
    hide Joined, Comps;
    var u := b[|a|..];
    assert b == a + u;
    if p != [] && |u| > 0 {
      assert b[|a| - 1] == a[|a| - 1] && u[0] == b[|a|];
      CompsAfter(a, u);
    } else if |u| == 0 {
      assert a == b;
    }
  }

  /** The components of q beyond p, written out. */
  ghost predicate TailOf(p: seq<string>, q: seq<string>, t: string) {
    p <= q && t != "" && t[0] != '/' && Comps(t) == q[|p|..]
  }

  lemma StayHere(p: seq<string>)
    ensures Walk(p, Comps(".")) == Some(p)
  {
    CompsDot();
    WalkStep(p, ".", []);
    assert ["."] + [] == ["."];
  }

  lemma CompsDot()
    ensures Comps(".") == ["."]
  {
    assert Component(".");
    CompsOne(".");
  }

  lemma BackAgain(p: seq<string>, q: seq<string>, t: string)
    requires TailOf(p, q, t) && NormalStack(q) && |Render(q)| <= LIMIT
    ensures t[0] != '/' && Walk(p, Comps(t)) == Some(q)
  {
    assert p + q[|p|..] == q;
    assert forall c :: c in q[|p|..] ==> c in q;
    WalkSelf(p, q[|p|..]);
  }

  lemma WalkEnd(st: seq<string>)
    ensures Walk(st, []) == Some(st)
  {
  }

  lemma RenderMore(st: seq<string>, c: string)
    ensures Render(st + [c]) == (if st == [] then "/" else Joined(st) + "/") + c
  {
    JoinedLast(st + [c]);
    assert (st + [c])[..|st|] == st && (st + [c])[|st|] == c;
    assert Joined(st) + ("/" + c) == (Joined(st) + "/") + c;
    assert st == [] ==> Joined(st) + "/" == "/";
  }

  lemma LastSlash(st: seq<string>)
    requires NormalStack(st)
    ensures st != [] ==> |Joined(st)| >= 2 && Joined(st)[|Joined(st)| - 1] != '/'
  {
    if st != [] {
      JoinedEnds(st);
    }
  }

  lemma MoreNormal(st: seq<string>, c: string)
    requires NormalStack(st) && Normal(c)
    ensures NormalStack(st + [c])
  {
  }

  lemma RunIs(t: string, n: nat)
    requires n <= |t| && (forall i :: 0 <= i < n ==> t[i] != '/') && (n < |t| ==> t[n] == '/')
    ensures Run(t) == n
  {
    var k := Run(t);
    assert forall i :: 0 <= i < |t| ==> (i < k ==> t[i] != '/') && (i < n ==> t[i] != '/');
  }
}
