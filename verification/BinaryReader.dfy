/** The reader (src/binary.c:182-209, 1166-1256, 1324-1345). A reference met before
    its object is complete is threaded: the slot holds the address of the previous
    slot waiting for the same object, until the definition patches them all. */
module BinaryReader {
  import opened Basics
  import opened BinaryGraph
  import opened BinaryReloc
  import opened BinaryWriter

  const MAX_RELOCS := 10000000

  /** Where an object pointer can be stored: the answer, or a field of a new cons. */
  datatype Slot = Root | Car(a: nat) | Cdr(a: nat)

  datatype Word = Null | At(a: nat) | Link(s: Slot)

  datatype Kind = KCons | KAtom(n: Node)

  datatype Memory = Memory(
    mem: map<Slot, Word>,
    count: map<nat, int>,
    kind: map<nat, Kind>,
    symtab: map<string, nat>,
    next: nat,                 // next address the allocator hands out
    relocp: seq<Word>,         // the relocations in use
    relocf: seq<Flag>,
    spare: seq<Flag>,          // flags behind them, which an earlier run or malloc left
    garbage: seq<Flag>)        // what malloc leaves in new arrays

  /** Wild: an access outside the relocation arrays, or through a pointer left in them,
      which the code does not prevent. */
  datatype Read = Done(st: Memory, rest: seq<Token>, ret: int) | Corrupted | Wild

  function Lock(count: map<nat, int>, w: Word): map<nat, int> {
    if w.At? && w.a in count then count[w.a := count[w.a] + 1] else count
  }

  function Store(st: Memory, pp: Slot, w: Word): Memory { st.(mem := st.mem[pp := w]) }

  /** *pp = new_cons(NIL,NIL) */
  function NewCons(st: Memory, pp: Slot): Memory {
    var a := st.next;
    st.(mem := st.mem[Car(a) := Null][Cdr(a) := Null][pp := At(a)],
        count := st.count[a := 1], kind := st.kind[a := KCons], next := a + 1)
  }

  /** *pp = new_number(..) or new_string(..) */
  function NewAtom(st: Memory, pp: Slot, n: Node): Memory {
    var a := st.next;
    st.(mem := st.mem[pp := At(a)], count := st.count[a := 1], kind := st.kind[a := KAtom(n)], next := a + 1)
  }

  /** *pp = named(s): the symbol table keeps one reference of its own. */
  function Named(st: Memory, pp: Slot, s: string): Memory {
    if s in st.symtab then
      var w := At(st.symtab[s]);
      st.(mem := st.mem[pp := w], count := Lock(st.count, w))
    else
      var a := st.next;
      st.(mem := st.mem[pp := At(a)], count := st.count[a := 2], kind := st.kind[a := KAtom(Symbol(s))],
          symtab := st.symtab[s := a], next := a + 1)
  }

  ghost function Links(mem: map<Slot, Word>): set<Slot> { set s | s in mem && mem[s].Link? }

  /** define_refd_reloc: walks the chain from h, replacing every slot by w. */
  function Patch(mem: map<Slot, Word>, count: map<nat, int>, h: Word, w: Word): (map<Slot, Word>, map<nat, int>)
    requires !w.Link?
    decreases |Links(mem)|
  {
    if !h.Link? || h.s !in mem then (mem, count)
    else
      var f := mem[h.s];
      var mem' := mem[h.s := w];
      if !f.Link? then (mem', Lock(count, w))
      else
        assert Links(mem') < Links(mem) by { assert h.s in Links(mem) && h.s !in Links(mem'); }
        LinksShrink(mem, mem');
        Patch(mem', Lock(count, w), f, w)
  }

  lemma LinksShrink(m: map<Slot, Word>, n: map<Slot, Word>)
    requires Links(n) < Links(m)
    ensures |Links(n)| < |Links(m)|
  {
    var s :| s in Links(m) && s !in Links(n);
    assert Links(n) <= Links(m) - {s};
    SubsetSize(Links(n), Links(m) - {s});
  }

  function Complete(st: Memory, k: nat, w: Word): Memory
    requires k < |st.relocp| && k < |st.relocf| && !w.Link?
  {
    var st' := if st.relocf[k] == REFD
      then var r := Patch(st.mem, st.count, st.relocp[k], w); st.(mem := r.0, count := r.1)
      else st;
    st'.(relocf := st.relocf[k := DEFD], relocp := st.relocp[k := w])
  }

  /** A definition of a relocation that is not in use: the code asks the arrays, which
      may be longer than the table, and finds what was left there. */
  function CompleteSpare(st: Memory, k: nat, rest: seq<Token>): Read {
    var i := k - |st.relocf|;
    if !(0 <= i < |st.spare|) then Wild
    else if st.spare[i] == DEFD then Corrupted
    else if st.spare[i] == REFD then Wild
    else Done(st.(spare := st.spare[i := DEFD]), rest, 0)
  }

  /** local_bread(pp); ret is what a dangling reference returns: 1, or 0 once the
      loop has gone through a cons. */
  function Bread(toks: seq<Token>, st: Memory, pp: Slot, ret: int): (r: Read)
    ensures r.Done? ==> |r.rest| < |toks|
    decreases |toks|
  {
    if toks == [] then Corrupted
    else
      var rest := toks[1..];
      match toks[0]
      case DEF(k) =>
        var body := Bread(rest, st, pp, 1);
        if !body.Done? then body
        else if body.ret != 0 then Corrupted
        else
          var st' := body.st;
          if !(k < |st'.relocf| == |st'.relocp|) then CompleteSpare(st', k, body.rest)
          else if st'.relocf[k] == DEFD then Corrupted
          else if pp !in st'.mem || st'.mem[pp].Link? then Wild // never: SlotFilled
          else Done(Complete(st', k, st'.mem[pp]), body.rest, 0)
      case REF(k) =>
        if !(k < |st.relocf| == |st.relocp|) then Corrupted
        else if st.relocf[k] == DEFD then
          Done(Store(st, pp, st.relocp[k]).(count := Lock(st.count, st.relocp[k])), rest, 0)
        else
          Done(Store(st, pp, st.relocp[k]).(relocp := st.relocp[k := Link(pp)], relocf := st.relocf[k := REFD]),
               rest, ret)
      case NIL => Done(Store(st, pp, Null), rest, 0)
      case CONS =>
        var left := Bread(rest, NewCons(st, pp), Car(st.next), 1);
        if !left.Done? then left
        else Bread(left.rest, left.st, Cdr(st.next), 0)
      case NUMBER(r) => Done(NewAtom(st, pp, Number(r)), rest, 0)
      case STRING(s) => Done(NewAtom(st, pp, Str(s)), rest, 0)
      case SYMBOL(s) => Done(Named(st, pp, s), rest, 0)
  }

  datatype Answer = Answer(st: Memory) | Refused | Crash

  /** Length of the relocation arrays once they hold n: check_reloc_size never shrinks
      them, and grows them to 1 + (n | 0x3ff). */
  function Capacity(have: nat, n: nat): (c: nat)
    ensures c >= n && c >= have
  {
    if have >= n then have else 1024 * (n / 1024 + 1)
  }

  /** clear_reloc(n): what stands behind the first n entries is left as it is. */
  function Begin(st: Memory, n: nat): Memory {
    var was := st.relocf + st.spare;
    var cap := Capacity(|was|, n);
    st.(mem := map[Root := Null], relocp := seq(n, _ => Null), relocf := seq(n, _ => EMPTY),
        spare := seq(cap - n, i requires 0 <= i < cap - n =>
          if n + i < |was| then was[n + i] else if n + i < |st.garbage| then st.garbage[n + i] else EMPTY))
  }

  /** bread: the answer is in slot Root; every relocation must have been defined. */
  function ReadStream(f: Stream, st: Memory): Answer {
    if f.relocn > MAX_RELOCS then Refused
    else
      var r := Bread(f.toks, Begin(st, f.relocn), Root, 1);
      if r.Wild? then Crash
      else if r.Corrupted? || exists k :: 0 <= k < |r.st.relocf| && r.st.relocf[k] != DEFD then Refused
      else Answer(r.st)
  }

  datatype Status = Fine | Error | OutOfBounds

  /** The reader with its memory, relocation arrays and input updated in place. */
  class Reader {
    var st: Memory
    var toks: seq<Token>

    constructor (st: Memory, toks: seq<Token>)
      ensures this.st == st && this.toks == toks
    {
      this.st, this.toks := st, toks;
    }

    /** define_refd_reloc */
    method DefineRefd(h0: Word, w: Word)
      requires !w.Link?
      modifies this`st
      ensures var r := Patch(old(st.mem), old(st.count), h0, w);
              st == old(st).(mem := r.0, count := r.1)
    {
      var h := h0;
      while h.Link? && h.s in st.mem
        invariant Patch(old(st.mem), old(st.count), h0, w) == Patch(st.mem, st.count, h, w)
        invariant st == old(st).(mem := st.mem, count := st.count)
        decreases h.Link?, |Links(st.mem)|
      {
        var f := st.mem[h.s];
        if f.Link? {
          assert Links(st.mem[h.s := w]) < Links(st.mem) by { assert h.s in Links(st.mem); }
          LinksShrink(st.mem, st.mem[h.s := w]);
        }
        st := st.(count := Lock(st.count, w), mem := st.mem[h.s := w]);
        h := f;
        if !f.Link? {
          break;
        }
      }
    }

    /** local_bread, with the value returned. */
    method LocalBread(pp0: Slot, ret0: int) returns (status: Status, ret: int)
      modifies this
      ensures var r := Bread(old(toks), old(st), pp0, ret0);
              match status
              case Fine => r == Done(st, toks, ret)
              case Error => r == Corrupted
              case OutOfBounds => r == Wild
      decreases |toks|
    {
      var pp := pp0;
      ret := ret0;
      while true
        invariant |toks| <= |old(toks)|
        invariant Bread(old(toks), old(st), pp0, ret0) == Bread(toks, st, pp, ret)
        decreases |toks|
      {
        if toks == [] {
          return Error, 0;
        }
        var tok := toks[0];
        toks := toks[1..];
        match tok {
          case DEF(k) =>
            var s1, ret1 := LocalBread(pp, 1);
            if !s1.Fine? {
              return s1, 0;
            }
            if ret1 != 0 {
              return Error, 0;
            }
            if !(k < |st.relocf| == |st.relocp|) {
              var i := k - |st.relocf|;
              if !(0 <= i < |st.spare|) {
                return OutOfBounds, 0;
              }
              if st.spare[i] != EMPTY {
                return if st.spare[i] == DEFD then Error else OutOfBounds, 0;
              }
              st := st.(spare := st.spare[i := DEFD]);
              return Fine, 0;
            }
            if st.relocf[k] == DEFD {
              return Error, 0;
            }
            if pp !in st.mem || st.mem[pp].Link? {
              return OutOfBounds, 0;
            }
            var w := st.mem[pp];
            if st.relocf[k] == REFD {
              DefineRefd(st.relocp[k], w);
            }
            st := st.(relocf := st.relocf[k := DEFD], relocp := st.relocp[k := w]);
            return Fine, 0;
          case REF(k) =>
            if !(k < |st.relocf| == |st.relocp|) {
              return Error, 0;
            }
            if st.relocf[k] == DEFD {
              st := Store(st, pp, st.relocp[k]).(count := Lock(st.count, st.relocp[k]));
              return Fine, 0;
            }
            st := Store(st, pp, st.relocp[k]);
            st := st.(relocp := st.relocp[k := Link(pp)], relocf := st.relocf[k := REFD]);
            return Fine, ret;
          case NIL =>
            st := Store(st, pp, Null);
            return Fine, 0;
          case CONS =>
            var a := st.next;
            st := NewCons(st, pp);
            var s1, ret1 := LocalBread(Car(a), 1);
            if !s1.Fine? {
              return s1, 0;
            }
            pp, ret := Cdr(a), 0;
          case NUMBER(r) =>
            st := NewAtom(st, pp, Number(r));
            return Fine, 0;
          case STRING(s) =>
            st := NewAtom(st, pp, Str(s));
            return Fine, 0;
          case SYMBOL(s) =>
            st := Named(st, pp, s);
            return Fine, 0;
        }
      }
    }

    /** forbid_refd_reloc: dangling slots become NIL; true if something was undefined. */
    method ForbidRefd() returns (bad: bool)
      requires |st.relocf| == |st.relocp|
      modifies this`st
      ensures bad <==> exists k :: 0 <= k < |old(st.relocf)| && old(st.relocf)[k] != DEFD
      ensures !bad ==> st == old(st)
    {
      var i := 0;
      bad := false;
      while i < |st.relocf|
        invariant 0 <= i <= |st.relocf| && st.relocf == old(st.relocf) && st.relocp == old(st.relocp)
        invariant bad <==> exists k :: 0 <= k < i && st.relocf[k] != DEFD
        invariant !bad ==> st == old(st)
      {
        if st.relocf[i] != DEFD {
          bad := true;
        }
        if st.relocf[i] == REFD {
          DefineRefd(st.relocp[i], Null);
        }
        i := i + 1;
      }
    }

    /** bread */
    method BreadFile(f: Stream) returns (status: Status)
      modifies this
      ensures ReadStream(f, old(st)) ==
              match status
              case Fine => Answer(st)
              case Error => Refused
              case OutOfBounds => Crash
    {
      if f.relocn > MAX_RELOCS {
        return Error;
      }
      st, toks := Begin(st, f.relocn), f.toks;
      RelocsStay(toks, st, Root, 1);
      var ret;
      status, ret := LocalBread(Root, 1);
      if status.Fine? {
        var bad := ForbidRefd();
        status := if bad then Error else Fine;
      }
    }
  }

  lemma {:induction false} RelocsStay(toks: seq<Token>, st: Memory, pp: Slot, ret: int)
    requires |st.relocf| == |st.relocp|
    ensures var r := Bread(toks, st, pp, ret);
            r.Done? ==> |r.st.relocf| == |r.st.relocp|
    decreases |toks|
  {
    hide Patch;
    if toks != [] && Bread(toks, st, pp, ret).Done? {
      if toks[0].DEF? {
        RelocsStay(toks[1..], st, pp, 1);
      } else if toks[0].CONS? {
        RelocsStay(toks[1..], NewCons(st, pp), Car(st.next), 1);
        var left := Bread(toks[1..], NewCons(st, pp), Car(st.next), 1);
        RelocsStay(left.rest, left.st, Cdr(st.next), 0);
      }
    }
  }
}
