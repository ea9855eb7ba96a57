/** What the operands of a DZ program designate: values of the stack by number, by label or by
    argument, and elements of the program by label or by distance (src/dz.c:594-668). */
module DzNames {
  import opened Basics
  import opened DzProgram
  import opened DzAnalysis
  import opened DzSoundness

  /** argN names argument N; any other string names none. */
  function ArgNumber(s: string): int { if |s| >= 3 && s[..3] == "arg" then Atoi(s[3..]) else 0 }

  ghost predicate FirstLabel(pm: seq<Entry>, imax: int, s: string, i: int)
    requires imax < |pm|
  {
    0 <= i <= imax && pm[i].tag == Some(s) && forall j :: 0 <= j < i ==> pm[j].tag != Some(s)
  }

  /** The operand designates value i of the stack, counted from the bottom: the argument it
      names, the value that was last at its label, or the value so many below the last. */
  ghost predicate Designates(args: seq<Arg>, pm: seq<Entry>, imax: int, numArg: int, k: nat, i: int)
    requires imax < |pm| && k < |pm|
  {
    && |args| == 1
    && match args[0]
       case Str(s) =>
         if 1 <= ArgNumber(s) <= numArg then i == ArgNumber(s) - 1
         else exists l :: FirstLabel(pm, imax, s, l) && i == pm[l].sp - 1
       case Num(r) => IsInteger(r) && i == pm[k].sp - 1 - r.Floor && (pm[k].sg == 0 ==> 0 <= r.Floor < pm[k].sp)
       case _ => false
  }

  /** The branch goes to address a: that of its label, or so many cells behind the next instruction. */
  ghost predicate GoesTo(args: seq<Arg>, pm: seq<Entry>, imax: int, k: nat, a: int)
    requires imax < |pm| && k < |pm|
  {
    && |args| == 1
    && match args[0]
       case Str(s) => exists l :: FirstLabel(pm, imax, s, l) && a == pm[l].pc
       case Num(r) => IsInteger(r) && a == pm[k].pc + 1 + r.Floor
       case _ => false
  }

  lemma {:induction false} LabelSearch(pm: seq<Entry>, imax: int, s: string, i: nat)
    requires imax < |pm| && forall j :: 0 <= j < i && j <= imax ==> pm[j].tag != Some(s)
    ensures var r := LabelIndex(pm, imax, s, i);
      (r.Ok? ==> FirstLabel(pm, imax, s, r.value)) && (r.Err? ==> forall l :: !FirstLabel(pm, imax, s, l))
    decreases imax + 1 - i
  {
    if i <= imax && pm[i].tag != Some(s) {
      LabelSearch(pm, imax, s, i + 1);
    }
  }

  /** The loader counts a value down from the last one. */
  lemma DesignatesIff(args: seq<Arg>, pm: seq<Entry>, imax: int, numArg: int, k: nat, i: int)
    requires imax < |pm| && k < |pm|
    ensures Designates(args, pm, imax, numArg, k, i) <==> RelativeArg(args, pm, imax, k, numArg) == Ok(pm[k].sp - 1 - i)
  {
    if |args| == 1 && args[0].Str? {
      LabelSearch(pm, imax, args[0].s, 0);
      LabelIndexFound(pm, imax, args[0].s, 0);
    }
  }

  lemma GoesToIff(args: seq<Arg>, pm: seq<Entry>, imax: int, k: nat, a: int)
    requires imax < |pm| && k < |pm|
    ensures GoesTo(args, pm, imax, k, a) <==> BranchArg(args, pm, imax, k) == Ok(a - pm[k].pc - 1)
  {
    if |args| == 1 && args[0].Str? {
      LabelSearch(pm, imax, args[0].s, 0);
      LabelIndexFound(pm, imax, args[0].s, 0);
    }
  }

  // ------------------------------------------------- names of arguments

  function Digit(d: int): char
    requires 0 <= d <= 9
  {
    (d + '0' as int) as char
  }

  function Decimal(n: nat): (s: string)
    ensures s != "" && IsDigit(s[0])
  {
    if n < 10 then [Digit(n)] else Decimal(n / 10) + [Digit(n % 10)]
  }

  lemma {:induction false} DigitsMore(s: string, d: int, acc: int)
    requires 0 <= d <= 9 && forall i :: 0 <= i < |s| ==> IsDigit(s[i])
    ensures Digits(s + [Digit(d)], acc) == 10 * Digits(s, acc) + d
    decreases |s|
  {
    if s == "" {
      assert s + [Digit(d)] == [Digit(d)] && [Digit(d)][1..] == "";
    } else {
      assert (s + [Digit(d)])[1..] == s[1..] + [Digit(d)];
      DigitsMore(s[1..], d, 10 * acc + (s[0] as int - '0' as int));
    }
  }

  lemma {:induction false} DecimalDigits(n: nat)
    ensures Digits(Decimal(n), 0) == n && forall i :: 0 <= i < |Decimal(n)| ==> IsDigit(Decimal(n)[i])
  {
    if n < 10 {
      assert Decimal(n)[1..] == "";
    } else {
      DecimalDigits(n / 10);
      DigitsMore(Decimal(n / 10), n % 10, 0);
    }
  }

  /** arg1, arg2 and so on name the arguments in the order they are passed: argN is value N - 1
      from the bottom of the stack, wherever in the program it is named. */
  lemma ArgDesignates(n: nat, pm: seq<Entry>, imax: int, numArg: int, k: nat, i: int)
    requires imax < |pm| && k < |pm| && 1 <= n <= numArg
    ensures Designates([Str("arg" + Decimal(n))], pm, imax, numArg, k, i) <==> i == n - 1
  {
    var s := "arg" + Decimal(n);
    assert s[..3] == "arg" && s[3..] == Decimal(n);
    DecimalDigits(n);
  }
}
