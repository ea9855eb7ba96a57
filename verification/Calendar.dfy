/** Day numbers and dates (src/date.c:75-99, src/date.c:450-512, src/date.c:528-575). Years
    count from 1900, day numbers from 1970. */
module Calendar {
  import opened Basics

  datatype Date = Date(year: int, month: int, day: int, hour: int, minute: int, second: int)

  predicate Leap(y: int) { y % 4 == 0 && (y % 100 != 0 || y % 400 == 100) }

  function YearLength(y: int): nat { if Leap(y) then 366 else 365 }

  const MLEN := [31, 29, 31, 30, 31, 30, 31, 31, 30, 31, 30, 31]

  /** Days of a leap year before each month. */
  const MONTH := [0, 31, 60, 91, 121, 152, 182, 213, 244, 274, 305, 335, 366]

  function MonthLength(y: int, m: int): nat
    requires 1 <= m <= 12
  {
    if m == 2 && !Leap(y) then 28 else MLEN[m - 1]
  }

  /** April, June, September and November have 30 days, February 28 or 29, all others 31. */
  lemma MonthRule(y: int, m: int)
    requires 1 <= m <= 12
    ensures MonthLength(y, m) ==
      if m == 2 then (if Leap(y) then 29 else 28) else if m in {4, 6, 9, 11} then 30 else 31
    ensures DaysBeforeMonth(y, 1) == 0 && DaysBeforeMonth(y, m + 1) == DaysBeforeMonth(y, m) + MonthLength(y, m)
    ensures DaysBeforeMonth(y, 13) == YearLength(y)
  {
  }

  /** Leap years of the calendar, for the year as people write it. */
  lemma LeapRule(y: nat)
    ensures var year := y + 1900;
      Leap(y) <==> year % 4 == 0 && (year % 100 == 0 ==> year % 400 == 0)
  {
    var q := y / 400;
    DivIs(y + 1900, 4, y / 4 + 475, y % 4);
    DivIs(y + 1900, 100, y / 100 + 19, y % 100);
    var r := y % 400;
    if r >= 100 {
      DivIs(y + 1900, 400, q + 5, r - 100);
    } else {
      DivIs(y + 1900, 400, q + 4, r + 300);
    }
  }

  /** Days of year y before month m; month 13 stands for the end of the year. */
  function DaysBeforeMonth(y: int, m: int): nat
    requires 1 <= m <= 13
  {
    if m > 2 && !Leap(y) then MONTH[m - 1] - 1 else MONTH[m - 1]
  }

  /** The calendar's own count of the days before a year. */
  function DaysBeforeYear(y: nat): nat { if y == 0 then 0 else DaysBeforeYear(y - 1) + YearLength(y - 1) }

  function LeapCount(y: int): int
    requires y >= 0
  {
    (y + 3) / 4 - (y + 99) / 100 + (y + 299) / 400
  }

  /** The closed formula counts leap years right, for every year from 1900 on. */
  lemma {:induction false} LeapCountRight(y: nat)
    ensures DaysBeforeYear(y) == 365 * y + LeapCount(y)
  {
    if y > 0 {
      LeapCountRight(y - 1);
      LeapCountStep(y - 1);
    }
  }

  lemma LeapCountStep(x: nat)
    ensures LeapCount(x + 1) == LeapCount(x) + if Leap(x) then 1 else 0
  {
    Quotient(x, 3, 4);
    Quotient(x, 99, 100);
    Quotient(x, 299, 400);
    LeapBits(x);
  }

  lemma LeapBits(x: nat)
    ensures (x + 4) % 4 == 0 <==> x % 4 == 0
    ensures (x + 100) % 100 == 0 <==> x % 100 == 0
    ensures (x + 300) % 400 == 0 <==> x % 400 == 100
    ensures (x % 100 == 0 ==> x % 4 == 0) && (x % 400 == 100 ==> x % 100 == 0)
  {
    ShiftMod(x, 4, 4);
    ShiftMod(x, 100, 100);
    var p, q, r := x / 100, x / 400, x % 400;
    if x % 100 == 0 {
      DivIs(x, 4, 25 * p, 0);
    }
    if r >= 100 {
      DivIs(x + 300, 400, q + 1, r - 100);
    } else {
      DivIs(x + 300, 400, q, r + 300);
    }
    if r == 100 {
      DivIs(x, 100, 4 * q + 1, 0);
    }
  }

  lemma ShiftMod(x: nat, a: nat, m: nat)
    requires m > 0 && a == m
    ensures (x + a) % m == x % m
  {
    DivIs(x + a, m, x / m + 1, x % m);
  }

  /** A quotient goes up by one exactly at the numbers it counts. */
  lemma Quotient(x: nat, a: nat, m: nat)
    requires m > 0
    ensures (x + 1 + a) / m == (x + a) / m + if (x + 1 + a) % m == 0 then 1 else 0
  {
    var q, r := (x + a) / m, (x + a) % m;
    assert x + a == q * m + r;
    if r + 1 < m {
      DivIs(x + a + 1, m, q, r + 1);
    } else {
      assert x + a + 1 == (q + 1) * m;
      DivIs(x + a + 1, m, q + 1, 0);
    }
  }

  lemma DivIs(n: int, m: int, q: int, r: int)
    requires m > 0 && n == q * m + r && 0 <= r < m
    ensures n / m == q && n % m == r
  {
    assert n == (n / m) * m + n % m;
    var d := n / m - q;
    assert d * m == r - n % m;
    Small(d, m);
  }

  lemma Small(d: int, m: int)
    requires m > 0 && -m < d * m < m
    ensures d == 0
  {
  }

  /** The fields as the reader leaves them before it checks the day. */
  predicate InFields(d: Date) {
    && 0 <= d.year <= 255 && 1 <= d.month <= 12 && 1 <= d.day <= 31
    && 0 <= d.hour <= 23 && 0 <= d.minute <= 59 && 0 <= d.second <= 59
  }

  predicate ValidDate(d: Date) { InFields(d) && d.day <= MonthLength(d.year, d.month) }

  const DATE_YEAR := 0
  const DATE_MONTH := 1
  const DATE_DAY := 2
  const DATE_HOUR := 3
  const DATE_MINUTE := 4
  const DATE_SECOND := 5

  /** The fields a partial date has are in their ranges. */
  predicate PartInFields(d: Date, from: int, to: int) {
    && (from <= DATE_YEAR <= to ==> 0 <= d.year <= 255)
    && (from <= DATE_MONTH <= to ==> 1 <= d.month <= 12)
    && (from <= DATE_DAY <= to ==> 1 <= d.day <= 31)
    && (from <= DATE_HOUR <= to ==> 0 <= d.hour <= 23)
    && (from <= DATE_MINUTE <= to ==> 0 <= d.minute <= 59)
    && (from <= DATE_SECOND <= to ==> 0 <= d.second <= 59)
  }

  /** Two dates that are the same as far as the fields from..to go. */
  predicate Agrees(d: Date, e: Date, from: int, to: int) {
    && (from <= DATE_YEAR <= to ==> e.year == d.year)
    && (from <= DATE_MONTH <= to ==> e.month == d.month)
    && (from <= DATE_DAY <= to ==> e.day == d.day)
    && (from <= DATE_HOUR <= to ==> e.hour == d.hour)
    && (from <= DATE_MINUTE <= to ==> e.minute == d.minute)
    && (from <= DATE_SECOND <= to ==> e.second == d.second)
  }

  /** date_check answers 0, for a date that has the fields from..to. */
  predicate Checks(d: Date, from: int, to: int)
    requires PartInFields(d, from, to)
  {
    from <= DATE_DAY <= to ==>
      && (from <= DATE_MONTH ==> d.day <= MLEN[d.month - 1])
      && (from <= DATE_YEAR ==> d.month == 2 && d.day == 29 ==> Leap(d.year))
  }

  /** The check rejects exactly the dates that no choice of the missing fields makes
      valid; with all fields there, the days a month does not have. */
  lemma CheckIff(d: Date, from: int, to: int)
    requires DATE_YEAR <= from <= to <= DATE_SECOND && PartInFields(d, from, to)
    ensures Checks(d, from, to) <==> exists e :: Agrees(d, e, from, to) && ValidDate(e)
    ensures from == DATE_YEAR && to == DATE_SECOND ==> (Checks(d, from, to) <==> ValidDate(d))
  {
    if Checks(d, from, to) {
      var e := Date(
        if from <= DATE_YEAR then d.year else 4,
        if from <= DATE_MONTH <= to then d.month else 1,
        if from <= DATE_DAY <= to then d.day else 1,
        if from <= DATE_HOUR <= to then d.hour else 0,
        if from <= DATE_MINUTE <= to then d.minute else 0,
        if from <= DATE_SECOND <= to then d.second else 0);
      assert Leap(4);
      assert Agrees(d, e, from, to) && ValidDate(e);
    }
  }

  /** date_to_n. */
  function DayNumber(d: Date): int
    requires 1 <= d.month <= 12 && d.year >= 0
  {
    var n := d.year * 365 + LeapCount(d.year) - 25567 + MONTH[d.month - 1] + d.day - 1;
    if d.month > 2 && !Leap(d.year) then n - 1 else n
  }

  function SecondNumber(d: Date): int { d.second + 60 * (d.minute + 60 * d.hour) }

  datatype Outcome = Ok(d: Date) | Before1900 | After2155 | BadSeconds

  /** Whole days in a number of seconds, and days since 1900. */
  function Carry(ns: int): int { TruncDiv(TruncDiv(ns, 3600), 24) }

  function Since1900(nd: int, ns: int): int { nd + Carry(ns) + 25567 }

  /** The year loop stops at the year that holds the day. */
  method FindYear(n: nat) returns (y: nat, nd: nat)
    ensures n == DaysBeforeYear(y) + nd && nd < YearLength(y)
  {
    y := n / 366;
    LeapCountRight(y);
    LeapsFew(y);
    nd := n - (365 * y + (y + 3) / 4 - (y + 99) / 100 + (y + 299) / 400);
    while true
      invariant n == DaysBeforeYear(y) + nd
      decreases nd
    {
      var ly := if Leap(y) then 366 else 365;
      if nd < ly {
        break;
      }
      y := y + 1;
      nd := nd - ly;
    }
  }

  lemma {:induction false} LeapsFew(y: nat)
    ensures DaysBeforeYear(y) <= 366 * y
  {
    if y > 0 {
      LeapsFew(y - 1);
    }
  }

  /** The month loop. */
  method FindMonth(y: nat, n: nat) returns (m: nat, nd: nat)
    requires n < YearLength(y)
    ensures 1 <= m <= 12 && n == DaysBeforeMonth(y, m) + nd && nd < MonthLength(y, m)
  {
    m, nd := 1, n;
    while m <= 12
      invariant 1 <= m <= 13 && n == DaysBeforeMonth(y, m) + nd
    {
      var h := if m != 2 then MLEN[m - 1] else if Leap(y) then 29 else 28;
      if nd < h {
        break;
      }
      nd := nd - h;
      m := m + 1;
    }
  }

  /** n_to_date. */
  method ToDate(nd0: int, ns0: int) returns (r: Outcome)
    ensures r.Before1900? <==> Since1900(nd0, ns0) < 0
    ensures r.After2155? <==> Since1900(nd0, ns0) >= DaysBeforeYear(256)
    ensures r.BadSeconds? <==> 0 <= Since1900(nd0, ns0) < DaysBeforeYear(256) && ns0 - 86400 * Carry(ns0) < 0
    ensures r.Ok? ==> ValidDate(r.d)
    ensures r.Ok? ==> DayNumber(r.d) == nd0 + Carry(ns0) && SecondNumber(r.d) == ns0 - 86400 * Carry(ns0)
  {
    hide DaysBeforeYear, LeapCount;
    CarryBounds(ns0);
    var h := TruncDiv(TruncDiv(ns0, 3600), 24);
    var nd, ns := nd0 + h + 25567, ns0 - h * 3600 * 24;
    if nd < 0 {
      return Before1900;
    }
    var y, rest := FindYear(nd);
    YearOrder(y, rest);
    if y > 255 {
      return After2155;
    }
    var m, day := FindMonth(y, rest);
    LeapCountRight(y);
    if ns < 0 || ns >= 60 * 60 * 24 {
      return BadSeconds;
    }
    var hour := ns / 3600;
    var minute := (ns - 3600 * hour) / 60;
    return Ok(Date(y, m, 1 + day, hour, minute, ns - 60 * (minute + 60 * hour)));
  }

  lemma CarryBounds(ns: int)
    ensures -86400 < ns - 86400 * Carry(ns) < 86400
    ensures ns >= 0 ==> Carry(ns) == ns / 86400 && ns - 86400 * Carry(ns) == ns % 86400
  {
    var a := if ns >= 0 then ns else -ns;
    assert a == 3600 * (a / 3600) + a % 3600;
    assert a / 3600 == 24 * (a / 3600 / 24) + a / 3600 % 24;
    DivIs(a, 86400, a / 3600 / 24, 3600 * (a / 3600 % 24) + a % 3600);
  }

  /** Only years up to 255 start before the end of 2155. */
  lemma YearOrder(y: nat, nd: nat)
    requires nd < YearLength(y)
    ensures y > 255 <==> DaysBeforeYear(y) + nd >= DaysBeforeYear(256)
  {
    if y > 255 {
      YearsGrow(256, y);
    } else {
      YearsGrow(y + 1, 256);
    }
  }

  lemma {:induction false} YearsGrow(a: nat, b: nat)
    requires a <= b
    ensures DaysBeforeYear(a) <= DaysBeforeYear(b)
    decreases b - a
  {
    if a < b {
      YearsGrow(a, b - 1);
    }
  }

  /** Two valid dates with the same numbers are one date. */
  lemma NumberInjective(a: Date, b: Date)
    requires ValidDate(a) && ValidDate(b) && DayNumber(a) == DayNumber(b) && SecondNumber(a) == SecondNumber(b)
    ensures a == b
  {
    hide DayNumber, DaysBeforeYear, DaysBeforeMonth, MonthLength, YearLength;
    YearDay(a);
    YearDay(b);
    SameYear(a.year, DaysBeforeMonth(a.year, a.month) + a.day - 1,
             b.year, DaysBeforeMonth(b.year, b.month) + b.day - 1);
    MonthDay(a.year, a.month, a.day, b.month, b.day);
  }

  lemma SameYear(y: nat, n: nat, y': nat, n': nat)
    requires DaysBeforeYear(y) + n == DaysBeforeYear(y') + n' && n < YearLength(y) && n' < YearLength(y')
    ensures y == y' && n == n'
  {
    hide DaysBeforeYear, YearLength;
    NextYear(y);
    NextYear(y');
    if y < y' {
      YearsGrow(y + 1, y');
    }
    if y' < y {
      YearsGrow(y' + 1, y);
    }
  }

  lemma NextYear(y: nat)
    ensures DaysBeforeYear(y + 1) == DaysBeforeYear(y) + YearLength(y)
  {
  }

  lemma MonthDay(y: int, m: int, d: int, m': int, d': int)
    requires 1 <= m <= 12 && 1 <= m' <= 12 && 1 <= d <= MonthLength(y, m) && 1 <= d' <= MonthLength(y, m')
    requires DaysBeforeMonth(y, m) + d == DaysBeforeMonth(y, m') + d'
    ensures m == m' && d == d'
  {
  }

  /** date_to_yday: the position in the year, from the day number of its first day. */
  lemma YearDay(d: Date)
    requires ValidDate(d)
    ensures var first := DayNumber(Date(d.year, 1, 1, 0, 0, 0));
      && first == DaysBeforeYear(d.year) - 25567
      && DayNumber(d) == first + DaysBeforeMonth(d.year, d.month) + d.day - 1
      && 0 <= DayNumber(d) - first < YearLength(d.year)
  {
    hide DaysBeforeYear, LeapCount;
    LeapCountRight(d.year);
    YearSpan(d.year, d.month, d.day);
  }

  lemma YearSpan(y: int, m: int, d: int)
    requires 1 <= m <= 12 && 1 <= d <= MonthLength(y, m)
    ensures 0 <= DaysBeforeMonth(y, m) + d - 1 < YearLength(y)
  {
  }

  /** From numbers to a date and back. */
  method NumbersThere(nd: int, ns: int) returns (r: Outcome)
    requires nd >= -25567 && ns >= 0
    ensures r.Ok? <==> Since1900(nd, ns) < DaysBeforeYear(256)
    ensures r.Ok? ==> ValidDate(r.d) && DayNumber(r.d) == nd + ns / 86400 && SecondNumber(r.d) == ns % 86400
    ensures !r.Ok? ==> r == After2155
  {
    CarryBounds(ns);
    r := ToDate(nd, ns);
  }

  /** From a date to numbers and back. */
  method DateThere(d: Date) returns (r: Outcome)
    requires ValidDate(d)
    ensures r == Ok(d)
  {
    YearDay(d);
    YearsGrow(d.year + 1, 256);
    NextYear(d.year);
    CarryBounds(SecondNumber(d));
    r := ToDate(DayNumber(d), SecondNumber(d));
    NumberInjective(d, r.d);
  }

  /** date_to_wday: C's remainder keeps the sign of the day number. */
  function Weekday(d: Date): int
    requires 1 <= d.month <= 12 && d.year >= 0
  {
    var r := DayNumber(d) + 4;
    if r >= 0 then r % 7 else -(-r % 7)
  }

  /** The weekday counts 0 to 6 for exactly the dates from 28 December 1969 on, and the Sundays before. */
  lemma WeekdayIff(d: Date)
    requires ValidDate(d)
    ensures 0 <= Weekday(d) <= 6 <==> DayNumber(d) >= -4 || (DayNumber(d) + 4) % 7 == 0
    ensures DayNumber(d) >= -4 ==> Weekday(d) == (DayNumber(d) + 4) % 7
  {
    hide DayNumber, MonthLength;
    var r := DayNumber(d) + 4;
    if r < 0 {
      var a := -r;
      if a % 7 == 0 {
        DivIs(r, 7, -(a / 7), 0);
      } else {
        DivIs(r, 7, -(a / 7) - 1, 7 - a % 7);
      }
    }
  }

  /** Day 0 is 1 January 1970, a Thursday. */
  lemma Epoch(d: Date)
    requires ValidDate(d)
    ensures d.year == 70 && d.month == 1 && d.day == 1 <==> DayNumber(d) == 0
    ensures DayNumber(d) == 0 ==> Weekday(d) == 4
  {
    var first := Date(70, 1, 1, d.hour, d.minute, d.second);
    assert DayNumber(first) == 0;
    if DayNumber(d) == 0 {
      NumberInjective(d, first);
    }
  }

  lemma WeekdayBefore1970()
    ensures Weekday(Date(69, 12, 27, 0, 0, 0)) == -1
  {
  }
}
