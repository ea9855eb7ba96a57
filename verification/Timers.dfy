/** The timer list (src/event.c:223-426). The clock is an argument. */
module Timers {

  datatype Time = Time(sec: int, msec: int)

  /** A handle, the date it fires, its period (zero for one shot) and its handler. */
  datatype Timer = Timer(id: nat, date: Time, period: Time, handler: nat)

  function Total(t: Time): int { 1000 * t.sec + t.msec }

  /** Dates kept in the list: a full second may be written as 1000 milliseconds. */
  predicate Kept(t: Time) { 0 <= t.msec <= 1000 }

  /** What the clock delivers. */
  predicate Clock(t: Time) { 0 <= t.msec <= 999 }

  function Cmp(a: Time, b: Time): int {
    if a.sec < b.sec then -1
    else if a.sec > b.sec then 1
    else if a.msec < b.msec then -1
    else if a.msec > b.msec then 1
    else 0
  }

  /** The comparison never contradicts the order of milliseconds, and agrees with it
      exactly against a clock time. */
  lemma CmpTotal(a: Time, b: Time)
    requires Kept(a) && Kept(b)
    ensures Cmp(a, b) < 0 ==> Total(a) <= Total(b)
    ensures Cmp(a, b) > 0 ==> Total(a) >= Total(b)
    ensures Cmp(a, b) == 0 <==> a == b
    ensures Clock(a) ==> (Cmp(a, b) >= 0 <==> Total(a) >= Total(b))
  {
  }

  /** Two writings of one instant compare as different. */
  lemma CmpSplitsInstants()
    ensures Total(Time(4, 1000)) == Total(Time(5, 0)) && Cmp(Time(4, 1000), Time(5, 0)) < 0
  {
  }

  lemma CmpOrder(a: Time, b: Time, c: Time)
    ensures Cmp(a, b) >= 0 && Cmp(b, c) >= 0 ==> Cmp(a, c) >= 0
    ensures Cmp(a, b) < 0 <==> Cmp(b, a) > 0
  {
  }

  /** The loop that carries milliseconds into seconds. */
  function Carried(sec: int, msec: int): (t: Time)
    ensures Total(t) == 1000 * sec + msec && t.msec <= 1000 && (msec > 0 ==> t.msec > 0) && (msec >= 0 ==> Kept(t))
    decreases msec
  {
    if msec > 1000 then Carried(sec + 1, msec - 1000) else Time(sec, msec)
  }

  method EvtimeAdd(a: Time, b: Time) returns (r: Time)
    ensures r == Carried(a.sec + b.sec, a.msec + b.msec)
  {
    r := Time(a.sec + b.sec, a.msec + b.msec);
    while r.msec > 1000
      invariant Carried(r.sec, r.msec) == Carried(a.sec + b.sec, a.msec + b.msec)
      decreases r.msec
    {
      r := Time(r.sec + 1, r.msec - 1000);
    }
  }

  method EvtimeSub(a: Time, b: Time) returns (r: Time)
    ensures r == Carried(a.sec - b.sec - 1, a.msec + 1000 - b.msec)
  {
    r := Time(a.sec - b.sec - 1, a.msec + 1000 - b.msec);
    while r.msec > 1000
      invariant Carried(r.sec, r.msec) == Carried(a.sec - b.sec - 1, a.msec + 1000 - b.msec)
      decreases r.msec
    {
      r := Time(r.sec + 1, r.msec - 1000);
    }
  }

  /** The list order. */
  ghost predicate Sorted(s: seq<Timer>) {
    forall i, j :: 0 <= i < j < |s| ==> Cmp(s[j].date, s[i].date) >= 0
  }

  predicate Periodic(t: Timer) { t.period.sec > 0 || t.period.msec > 0 }

  /** Periods are zero or at least 20 milliseconds. */
  ghost predicate Good(t: Timer) {
    && Kept(t.date) && t.period.sec >= 0 && 0 <= t.period.msec <= 999 && t.handler > 0
    && (Total(t.period) == 0 || Total(t.period) >= 20)
  }

  ghost predicate GoodList(s: seq<Timer>) {
    (forall t :: t in s ==> Good(t)) && forall i, j :: 0 <= i < j < |s| ==> s[i].id != s[j].id
  }

  /** How many timers come before a new one: those that are not later. */
  ghost function Before(s: seq<Timer>, d: Time): (n: nat)
    ensures n <= |s| && (forall i :: 0 <= i < n ==> Cmp(d, s[i].date) >= 0) && (n < |s| ==> Cmp(d, s[n].date) < 0)
  {
    if s == [] || Cmp(d, s[0].date) < 0 then 0 else 1 + Before(s[1..], d)
  }

  /** The first p timers are not later than t, the next one is. */
  ghost predicate Behind(s: seq<Timer>, t: Timer, p: nat) {
    p <= |s| && (forall i :: 0 <= i < p ==> Cmp(t.date, s[i].date) >= 0) && (p < |s| ==> Cmp(t.date, s[p].date) < 0)
  }

  ghost function Inserted(s: seq<Timer>, t: Timer): seq<Timer> {
    var n := Before(s, t.date);
    s[..n] + [t] + s[n..]
  }

  lemma BeforeIs(s: seq<Timer>, d: Time, n: nat)
    requires n <= |s| && (forall i :: 0 <= i < n ==> Cmp(d, s[i].date) >= 0) && (n < |s| ==> Cmp(d, s[n].date) < 0)
    ensures Before(s, d) == n
  {
  }

  lemma InsertedHas(s: seq<Timer>, t: Timer)
    ensures |Inserted(s, t)| == |s| + 1 && forall u :: u in Inserted(s, t) <==> u in s || u == t
  {
    hide Before;
    var n := Before(s, t.date);
    assert s == s[..n] + s[n..];
    assert forall u :: u in s <==> u in s[..n] || u in s[n..];
  }

  lemma InsertedAt(s: seq<Timer>, t: Timer, k: nat)
    requires k <= |s|
    ensures |Inserted(s, t)| == |s| + 1
    ensures var n := Before(s, t.date); Inserted(s, t)[k] == if k < n then s[k] else if k == n then t else s[k - 1]
  {
    hide Before;
  }

  lemma InsertedSorted(s: seq<Timer>, t: Timer)
    requires Sorted(s)
    ensures Sorted(Inserted(s, t))
  {
    hide Inserted, Cmp;
    var n, r := Before(s, t.date), Inserted(s, t);
    InsertedHas(s, t);
    forall i, j | 0 <= i < j < |r| ensures Cmp(r[j].date, r[i].date) >= 0 {
      InsertedAt(s, t, i);
      InsertedAt(s, t, j);
      if i == n {
        CmpOrder(s[j - 1].date, s[n].date, t.date);
        CmpOrder(t.date, s[n].date, t.date);
      }
    }
  }

  lemma InsertedGood(s: seq<Timer>, t: Timer)
    requires GoodList(s) && Good(t) && forall u :: u in s ==> u.id != t.id
    ensures GoodList(Inserted(s, t))
  {
    hide Good, Inserted, Before;
    var r := Inserted(s, t);
    InsertedHas(s, t);
    assert forall k :: 0 <= k < |s| ==> s[k] in s;
    forall i, j | 0 <= i < j < |r| ensures r[i].id != r[j].id {
      InsertedAt(s, t, i);
      InsertedAt(s, t, j);
    }
  }

  ghost predicate Due(now: Time, t: Timer) { Cmp(now, t.date) >= 0 }

  /** The timers that are due, a prefix of a sorted list. */
  ghost function DueCount(s: seq<Timer>, now: Time): (n: nat)
    ensures n <= |s| && (forall i :: 0 <= i < n ==> Due(now, s[i])) && (n < |s| ==> !Due(now, s[n]))
  {
    if s == [] || !Due(now, s[0]) then 0 else 1 + DueCount(s[1..], now)
  }

  lemma DuePrefix(s: seq<Timer>, now: Time)
    requires Sorted(s)
    ensures forall i :: 0 <= i < |s| ==> (Due(now, s[i]) <==> i < DueCount(s, now))
  {
    var n := DueCount(s, now);
    forall i | n <= i < |s| ensures !Due(now, s[i]) {
      CmpOrder(now, s[i].date, s[n].date);
    }
  }

  /** The first date, one period after another, that now has not reached. */
  ghost function Advanced(d: Time, p: Time, now: Time): (r: Time)
    requires Kept(d) && Kept(now) && p.sec >= 0 && 0 <= p.msec <= 999 && Total(p) > 0
    ensures Kept(r) && Cmp(now, r) < 0
    decreases if Cmp(now, d) >= 0 then Total(now) - Total(d) + 1 else 0
  {
    if Cmp(now, d) < 0 then d
    else
      CmpTotal(now, d);
      var e := Carried(d.sec + p.sec, d.msec + p.msec);
      CmpTotal(now, e);
      Advanced(e, p, now)
  }

  /** A periodic timer moves by a whole number of periods, no more than it must. */
  lemma {:induction false} AdvancedSteps(d: Time, p: Time, now: Time) returns (k: nat)
    requires Kept(d) && Clock(now) && p.sec >= 0 && 0 <= p.msec <= 999 && Total(p) > 0
    ensures Total(Advanced(d, p, now)) == Total(d) + k * Total(p) > Total(now)
    ensures k > 0 ==> Total(d) + (k - 1) * Total(p) <= Total(now)
    ensures k == 0 <==> Cmp(now, d) < 0
    decreases if Cmp(now, d) >= 0 then Total(now) - Total(d) + 1 else 0
  {
    AdvancedStep(d, p, now);
    hide Advanced, Cmp, Total, Carried;
    if Cmp(now, d) < 0 {
      k := 0;
    } else {
      var e := Carried(d.sec + p.sec, d.msec + p.msec);
      var j := AdvancedSteps(e, p, now);
      k := j + 1;
      OneTimesMore(j, Total(p));
    }
  }

  lemma OneTimesMore(j: int, x: int)
    ensures (j + 1) * x == j * x + x && (j - 1) * x == j * x - x
  {
  }

  lemma AdvancedStep(d: Time, p: Time, now: Time)
    requires Kept(d) && Clock(now) && p.sec >= 0 && 0 <= p.msec <= 999 && Total(p) > 0
    ensures Cmp(now, d) < 0 ==> Advanced(d, p, now) == d && Total(d) > Total(now)
    ensures Cmp(now, d) >= 0 ==>
      var e := Carried(d.sec + p.sec, d.msec + p.msec);
      && Total(d) <= Total(now) && Kept(e) && Total(e) == Total(d) + Total(p)
      && Advanced(d, p, now) == Advanced(e, p, now)
      && (Cmp(now, e) >= 0 <==> Total(now) >= Total(e))
  {
    CmpTotal(now, d);
    if Cmp(now, d) >= 0 {
      CmpTotal(now, Carried(d.sec + p.sec, d.msec + p.msec));
    }
  }

  ghost function Moved(t: Timer, now: Time): Timer
    requires Good(t) && Kept(now) && Periodic(t)
  {
    t.(date := Advanced(t.date, t.period, now))
  }

  /** The list once the due timers have fired: the others, and the periodic ones put back. */
  ghost function Refired(rest: seq<Timer>, due: seq<Timer>, now: Time): seq<Timer>
    requires Kept(now) && forall t :: t in due ==> Good(t)
    decreases |due|
  {
    if due == [] then rest
    else if Periodic(due[0]) then Refired(Inserted(rest, Moved(due[0], now)), due[1..], now)
    else Refired(rest, due[1..], now)
  }

  /** One-shot timers are gone, periodic ones wait for their next date, the others are untouched. */
  lemma {:induction false} RefiredHas(rest: seq<Timer>, due: seq<Timer>, now: Time, t: Timer)
    requires Kept(now) && forall u :: u in due ==> Good(u)
    ensures t in Refired(rest, due, now) <==>
      t in rest || exists u :: u in due && Good(u) && Periodic(u) && t == Moved(u, now)
    decreases |due|
  {
    hide Good, Moved, Inserted;
    if due != [] {
      assert due == [due[0]] + due[1..] && due[0] in due;
      assert forall u :: u in due <==> u == due[0] || u in due[1..];
      if Periodic(due[0]) {
        InsertedHas(rest, Moved(due[0], now));
        RefiredHas(Inserted(rest, Moved(due[0], now)), due[1..], now, t);
      } else {
        RefiredHas(rest, due[1..], now, t);
      }
    }
  }

  /** A timer put back lands behind every timer that is still due. */
  lemma InsertPast(due: seq<Timer>, rest: seq<Timer>, t: Timer, now: Time)
    requires (forall u :: u in due ==> Due(now, u)) && Cmp(now, t.date) < 0
    ensures Inserted(due + rest, t) == due + Inserted(rest, t)
  {
    var n, s := |due| + Before(rest, t.date), due + rest;
    forall i | 0 <= i < n ensures Cmp(t.date, s[i].date) >= 0 {
      if i < |due| {
        assert s[i] == due[i] && due[i] in due;
      }
    }
    BeforeIs(s, t.date, n);
    assert s[..n] == due + rest[..n - |due|] && s[n..] == rest[n - |due|..];
  }

  function Events(due: seq<Timer>): seq<(nat, nat)> {
    seq(|due|, i requires 0 <= i < |due| => (due[i].handler, due[i].id))
  }

  ghost function FireResult(s: seq<Timer>, now: Time): seq<Timer>
    requires GoodList(s) && Kept(now)
  {
    var n := DueCount(s, now);
    Refired(s[n..], s[..n], now)
  }

  lemma RefiredStep(rest: seq<Timer>, due: seq<Timer>, now: Time)
    requires Clock(now) && due != [] && forall t :: t in due ==> Good(t)
    ensures Good(due[0]) && forall t :: t in due[1..] ==> Good(t)
    ensures Refired(rest, due, now) ==
      if Periodic(due[0]) then Refired(Inserted(rest, Moved(due[0], now)), due[1..], now)
      else Refired(rest, due[1..], now)
  {
    assert due[0] in due;
    hide Good, Inserted, Moved;
  }

  lemma FireEnd(s: seq<Timer>, due: seq<Timer>, others: seq<Timer>, now: Time)
    requires Firing(s, due, others, now) && due == [] && Clock(now)
    ensures s == others && Sorted(s) && GoodList(s) && Refired(others, due, now) == others
    ensures forall t :: t in s ==> Kept(t.date) && Total(t.date) > Total(now)
  {
    hide Sorted, Cmp;
    assert s == others;
    forall t | t in s ensures Kept(t.date) && Total(t.date) > Total(now) {
      CmpTotal(now, t.date);
    }
  }

  lemma DueIs(now: Time, t: Timer)
    ensures Due(now, t) <==> Cmp(now, t.date) >= 0
  {
  }

  lemma PeriodicIs(t: Timer)
    ensures Periodic(t) <==> t.period.sec > 0 || t.period.msec > 0
  {
  }

  /** The timer that timer_add promises. */
  ghost predicate Requested(t: Timer, now: Time, id: nat, handler: nat, delay: int, period: int) {
    && t.id == id && t.handler == handler && Kept(t.date) && Total(t.date) == Total(now) + delay
    && Total(t.period) == if 0 < period < 20 then 20 else period
  }

  /** Halfway through timer_fire: due ones in front, the others behind. */
  ghost predicate Firing(s: seq<Timer>, due: seq<Timer>, others: seq<Timer>, now: Time) {
    && s == due + others && Sorted(s) && GoodList(s)
    && (forall t :: t in due ==> Due(now, t)) && forall t :: t in others ==> !Due(now, t)
  }

  lemma FireStart(s: seq<Timer>, now: Time)
    requires Sorted(s) && GoodList(s)
    ensures var n := DueCount(s, now); (Firing(s, s[..n], s[n..], now) && forall t :: t in s[..n] ==> Good(t))
  {
    hide Good, Due, DueCount, Cmp;
    DuePrefix(s, now);
    var n := DueCount(s, now);
    assert s == s[..n] + s[n..];
    SplitDue(s, n, now);
    assert forall t :: t in s[..n] ==> t in s;
  }

  lemma SplitDue(s: seq<Timer>, n: nat, now: Time)
    requires n <= |s| && forall i :: 0 <= i < |s| ==> (Due(now, s[i]) <==> i < n)
    ensures (forall t :: t in s[..n] ==> Due(now, t)) && forall t :: t in s[n..] ==> !Due(now, t)
  {
    hide Due;
    assert forall i :: n <= i < |s| ==> s[n..][i - n] == s[i];
    forall t | t in s[n..] ensures !Due(now, t) {
      var i :| 0 <= i < |s[n..]| && s[n..][i] == t;
      assert s[n + i] == t;
    }
  }

  lemma FireHead(s: seq<Timer>, due: seq<Timer>, others: seq<Timer>, now: Time)
    requires Firing(s, due, others, now)
    ensures s != [] && Due(now, s[0]) <==> due != []
    ensures due != [] ==> s[0] == due[0] && Good(due[0]) && Firing(s[1..], due[1..], others, now)
    ensures due != [] ==> forall u :: u in s[1..] ==> u.id != due[0].id
    ensures (forall t :: t in due ==> Good(t)) && forall t :: t in others ==> Good(t) && !Due(now, t)
  {
    hide Good, Due, Cmp;
    assert forall t :: t in due || t in others ==> t in s;
    if s != [] {
      assert due == [] ==> s[0] in others;
      assert due != [] ==> s[0] in due;
    }
    if due != [] {
      assert s[1..] == due[1..] + others;
      assert forall k :: 0 <= k < |s[1..]| ==> s[1..][k] == s[k + 1];
    }
  }

  lemma FireBack(s: seq<Timer>, due: seq<Timer>, others: seq<Timer>, t: Timer, now: Time)
    requires Firing(s, due, others, now) && Good(t) && Clock(now) && Periodic(t) && forall u :: u in s ==> u.id != t.id
    ensures Firing(Inserted(s, Moved(t, now)), due, Inserted(others, Moved(t, now)), now) && Good(Moved(t, now))
  {
    var m := Moved(t, now);
    assert Good(m);
    hide Good, Inserted, Sorted, GoodList;
    InsertPast(due, others, m, now);
    InsertedSorted(s, m);
    InsertedGood(s, m);
    InsertedHas(others, m);
  }

  class TimerList {
    var timers: seq<Timer>
    var posted: seq<(nat, nat)>     // events sent: handler and timer handle

    ghost predicate Valid()
      reads this
    {
      Sorted(timers) && GoodList(timers)
    }

    constructor ()
      ensures Valid() && timers == [] && posted == []
    {
      timers, posted := [], [];
    }

    /** ti_insert. */
    method Insert(ti: Timer)
      modifies this`timers
      ensures timers == Inserted(old(timers), ti)
      ensures exists p: nat :: Behind(old(timers), ti, p) && timers == old(timers)[..p] + [ti] + old(timers)[p..]
    {
      var p := 0;
      while p < |timers| && Cmp(ti.date, timers[p].date) >= 0
        invariant 0 <= p <= |timers| && forall i :: 0 <= i < p ==> Cmp(ti.date, timers[i].date) >= 0
      {
        p := p + 1;
      }
      BeforeIs(timers, ti.date, p);
      assert Behind(timers, ti, p);
      timers := timers[..p] + [ti] + timers[p..];
    }

    /** timer_add; id is the address of the new timer. False is the error case. */
    method Add(now: Time, id: nat, handler: nat, delay: int, period0: int) returns (ok: bool)
      requires Valid() && Clock(now) && forall t :: t in timers ==> t.id != id
      modifies this`timers
      ensures Valid() && (ok <==> handler > 0 && delay >= 0 && period0 >= 0)
      ensures !ok ==> timers == old(timers)
      ensures ok ==> exists t :: timers == Inserted(old(timers), t) && Requested(t, now, id, handler, delay, period0)
    {
      hide Inserted, Sorted, GoodList;
      if handler == 0 || delay < 0 || period0 < 0 {
        return false;
      }
      var period := if period0 > 0 && period0 < 20 then 20 else period0;
      var date := EvtimeAdd(now, Time(delay / 1000, delay % 1000));
      var ti := Timer(id, date, Time(period / 1000, period % 1000), handler);
      InsertedSorted(timers, ti);
      InsertedGood(timers, ti);
      Insert(ti);
      return true;
    }

    /** timer_del. */
    method Delete(id: nat)
      requires Valid()
      modifies this`timers
      ensures Valid() && forall t :: t in timers <==> t in old(timers) && t.id != id
    {
      var p := 0;
      while p < |timers|
        invariant 0 <= p <= |timers| && forall i :: 0 <= i < p ==> timers[i].id != id
      {
        if timers[p].id == id {
          DropOne(timers, p);
          timers := timers[..p] + timers[p + 1..];
          return;
        }
        p := p + 1;
      }
    }

    /** timer_fire: posts one event for each due timer, in order, puts the periodic ones back
        and answers the milliseconds to the next timer, a day at most. */
    method Fire(now: Time) returns (delay: int)
      requires Valid() && Clock(now)
      modifies this
      ensures Valid() && forall t :: t in timers ==> Total(t.date) > Total(now)
      ensures var n, was := DueCount(old(timers), now), |old(posted)|;
        && |posted| == was + n && posted[..was] == old(posted)
        && forall i :: 0 <= i < n ==> posted[was + i] == (old(timers)[i].handler, old(timers)[i].id)
      ensures timers == FireResult(old(timers), now)
      ensures delay == if timers != [] && Total(timers[0].date) - Total(now) <= 86400000
                       then Total(timers[0].date) - Total(now) else 86400000
    {
      hide Firing, Sorted, GoodList, Good, Refired, Inserted, Moved, DueCount, Due, Cmp, Periodic;
      ghost var n := DueCount(timers, now);
      ghost var due, others, k := timers[..n], timers[n..], 0;
      ghost var result := FireResult(timers, now);
      FireStart(timers, now);
      assert due[0..] == due;
      while timers != [] && Cmp(now, timers[0].date) >= 0
        invariant 0 <= k <= n && Firing(timers, due[k..], others, now)
        invariant posted == old(posted) + Events(due[..k])
        invariant (forall t :: t in due[k..] ==> Good(t)) && Refired(others, due[k..], now) == result
        decreases n - k
      {
        FireHead(timers, due[k..], others, now);
        DueIs(now, timers[0]);
        assert due[k..][1..] == due[k + 1..] && due[k..][0] == due[k];
        assert due[..k + 1] == due[..k] + [due[k]];
        RefiredStep(others, due[k..], now);
        var ti := timers[0];
        timers := timers[1..];
        posted := posted + [(ti.handler, ti.id)];
        if ti.period.sec > 0 || ti.period.msec > 0 {
          PeriodicIs(ti);
          FireBack(timers, due[k + 1..], others, ti, now);
          var date := NextDate(ti, now);
          Insert(ti.(date := date));
          others := Inserted(others, ti.(date := date));
        } else {
          PeriodicIs(ti);
        }
        k := k + 1;
      }
      if timers != [] {
        DueIs(now, timers[0]);
      }
      FireHead(timers, due[k..], others, now);
      FireEnd(timers, due[k..], others, now);
      assert due[..n] == due && others == timers;
      delay := NextDelay(now);
    }

    method NextDelay(now: Time) returns (delay: int)
      requires Clock(now) && forall t :: t in timers ==> Kept(t.date)
      ensures delay == if timers != [] && Total(timers[0].date) - Total(now) <= 86400000
                       then Total(timers[0].date) - Total(now) else 86400000
    {
      if timers != [] {
        var diff := EvtimeSub(timers[0].date, now);
        if diff.sec < 24 * 3600 {
          return diff.sec * 1000 + diff.msec;
        }
      }
      return 24 * 3600 * 1000;
    }

    /** The inner loop: a periodic timer shoots once per call however late it is. */
    method NextDate(ti: Timer, now: Time) returns (date: Time)
      requires Good(ti) && Clock(now) && Periodic(ti)
      ensures ti.(date := date) == Moved(ti, now)
    {
      date := ti.date;
      while Cmp(now, date) >= 0
        invariant Kept(date) && Advanced(date, ti.period, now) == Advanced(ti.date, ti.period, now)
        decreases Total(now) - Total(date) + 1001
      {
        CmpTotal(now, date);
        date := EvtimeAdd(date, ti.period);
      }
    }
  }

  lemma DropOne(s: seq<Timer>, p: nat)
    requires Sorted(s) && GoodList(s) && p < |s|
    ensures Sorted(s[..p] + s[p + 1..]) && GoodList(s[..p] + s[p + 1..])
    ensures forall t :: t in s[..p] + s[p + 1..] <==> t in s && t.id != s[p].id
  {
    hide Sorted, GoodList;
    DropKeepsOrder(s, p);
    DropHas(s, p);
  }

  lemma DropKeepsOrder(s: seq<Timer>, p: nat)
    requires Sorted(s) && GoodList(s) && p < |s|
    ensures Sorted(s[..p] + s[p + 1..]) && GoodList(s[..p] + s[p + 1..])
  {
    hide Good, Cmp;
    var r := s[..p] + s[p + 1..];
    assert forall k :: 0 <= k < |r| ==> r[k] == if k < p then s[k] else s[k + 1];
    assert forall k :: 0 <= k < |s| ==> s[k] in s;
  }

  lemma DropHas(s: seq<Timer>, p: nat)
    requires GoodList(s) && p < |s|
    ensures forall t :: t in s[..p] + s[p + 1..] <==> t in s && t.id != s[p].id
  {
    hide Good;
    assert s == s[..p] + [s[p]] + s[p + 1..];
    assert forall t :: t in s <==> t in s[..p] || t == s[p] || t in s[p + 1..];
    assert forall k :: 0 <= k < p ==> s[..p][k] == s[k];
    var hi := s[p + 1..];
    assert forall k :: 0 <= k < |hi| ==> hi[k] == s[p + 1 + k];
  }
}
