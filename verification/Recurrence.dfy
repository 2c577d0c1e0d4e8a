/** The recurrence sets of core/src/ical.cpp, for times without a zone: what a rule describes, and the
    rounds it is looked for in. */
module Recurrence {
  import opened Text
  import opened Calendar

  type Weekday = d: int | 0 <= d < 7
  type Positive = n: int | n >= 1 witness 1

  datatype Freq = Daily | Weekly | Monthly | Yearly

  /** An understood rule; a count of zero or less means no count. */
  datatype Rule = Rule(freq: Freq, interval: Positive, count: int, until: Option<int>, bydays: seq<Weekday>)

  /** A calendar item; no rule stands for an empty one or one that is not understood. */
  datatype Item = Item(valid: bool, start: int, allDay: bool, end: Option<int>, exdates: seq<int>, rule: Option<Rule>, uid: string)

  datatype Occurrence = Occurrence(start: int, end: int, allDay: bool, uid: string)

  const MAX_OCCURRENCES := 750
  const MAX_ROUNDS := 8 * MAX_OCCURRENCES
  const DAY := 86400

  // ---- the recurrence set -------------------------------------------------

  function DayOf(t: int): int {
    t / DAY
  }

  function TimeOf(t: int): (s: int)
    ensures 0 <= s < DAY
  {
    t % DAY
  }

  function DateAt(t: int): Date {
    CivilFromDays(DayOf(t))
  }

  function MonthAt(t: int): int {
    MonthIndex(DateAt(t).y, DateAt(t).m)
  }

  /** The Sunday on or before a day. */
  function SundayOf(day: int): int {
    day - WeekdayFromDays(day)
  }

  predicate ByDay(r: Rule) {
    r.freq.Weekly? && r.bydays != []
  }

  function StepDays(r: Rule): int {
    (if r.freq.Daily? then 1 else 7) * r.interval
  }

  function StepMonths(r: Rule): int {
    (if r.freq.Monthly? then 1 else 12) * r.interval
  }

  /** The clock reading `t` is one that the rule names, disregarding COUNT and UNTIL. */
  predicate Recurs(start: int, r: Rule, t: int) {
    t >= start &&
    if ByDay(r) then
      && TimeOf(t) == TimeOf(start)
      && WeekdayFromDays(DayOf(t)) in r.bydays
      && (SundayOf(DayOf(t)) - SundayOf(DayOf(start))) % (7 * r.interval) == 0
    else if r.freq.Daily? || r.freq.Weekly? then (t - start) % (StepDays(r) * DAY) == 0
    else
      && TimeOf(t) == TimeOf(start)
      && DateAt(t).d == DateAt(start).d
      && (MonthAt(t) - MonthAt(start)) % StepMonths(r) == 0
  }

  ghost function Before(start: int, r: Rule, t: int): set<int> {
    set u: int | start <= u < t && Recurs(start, r, u)
  }

  /** One of the first COUNT recurrences, no later than UNTIL. */
  ghost predicate Chosen(start: int, r: Rule, t: int) {
    && Recurs(start, r, t)
    && (r.count > 0 ==> |Before(start, r, t)| < r.count)
    && (r.until.Some? ==> t <= r.until.value)
  }

  function Duration(item: Item): int {
    if item.end.Some? then item.end.value - item.start else if item.allDay then DAY else 0
  }

  /** Not excepted, and meeting the window; without a length an item is a single instant. */
  predicate Shown(item: Item, from: int, upTo: int, t: int) {
    && t !in item.exdates
    && t < upTo
    && (if Duration(item) > 0 then t + Duration(item) > from else t >= from)
  }

  ghost predicate Qualifies(item: Item, r: Rule, from: int, upTo: int, t: int) {
    Chosen(item.start, r, t) && Shown(item, from, upTo, t)
  }

  function OccurrenceAt(item: Item, t: int): Occurrence {
    Occurrence(t, t + Duration(item), item.allDay, item.uid)
  }

  ghost predicate Has(out: seq<Occurrence>, t: int) {
    exists i :: 0 <= i < |out| && out[i].start == t
  }

  ghost predicate Ascending(out: seq<Occurrence>) {
    forall i, j :: 0 <= i < j < |out| ==> out[i].start < out[j].start
  }

  ghost predicate AllBefore(out: seq<Occurrence>, t: int) {
    forall i :: 0 <= i < |out| ==> out[i].start < t
  }

  ghost predicate AllQualify(out: seq<Occurrence>, item: Item, r: Rule, from: int, upTo: int) {
    forall i :: 0 <= i < |out| ==> out[i] == OccurrenceAt(item, out[i].start) && Qualifies(item, r, from, upTo, out[i].start)
  }

  /** Exactly the qualifying occurrences before `bound`, in order. */
  ghost predicate Complete(out: seq<Occurrence>, item: Item, r: Rule, from: int, upTo: int, bound: int) {
    && AllQualify(out, item, r, from, upTo)
    && Ascending(out)
    && AllBefore(out, bound)
    && forall t :: t < bound && Qualifies(item, r, from, upTo, t) ==> Has(out, t)
  }

  /** The first week of a BYDAY rule. */
  function FirstSunday(start: int): int {
    SundayOf(DayOf(start))
  }

  /** Where the round with a number begins. */
  function Round(start: int, r: Rule, n: nat): int {
    if ByDay(r) then (FirstSunday(start) + 7 * (r.interval * n)) * DAY
    else if r.freq.Daily? || r.freq.Weekly? then start + n * (StepDays(r) * DAY)
    else FirstOf(MonthAt(start) + n * StepMonths(r)) * DAY
  }

  /** What the bound on rounds leaves out: a BYDAY rule stops inside its last round. */
  function Horizon(start: int, r: Rule): int {
    Round(start, r, if ByDay(r) then 5999 else 6000)
  }

  /** The qualifying occurrences in increasing order: all of them, or the first 750, or those that
      the first 6000 rounds reach. */
  ghost predicate Expanded(out: seq<Occurrence>, item: Item, r: Rule, from: int, upTo: int) {
    && AllQualify(out, item, r, from, upTo)
    && Ascending(out)
    && |out| <= 750
    && forall t :: Qualifies(item, r, from, upTo, t) ==>
         Has(out, t) || (AllBefore(out, t) && (|out| == 750 || t >= Horizon(item.start, r)))
  }

  // ---- moving the bound ---------------------------------------------------

  ghost predicate NoneIn(start: int, r: Rule, a: int, b: int) {
    forall u :: a <= u < b ==> !Recurs(start, r, u)
  }

  ghost predicate OnlyIn(start: int, r: Rule, a: int, b: int, t: int) {
    a <= t < b && Recurs(start, r, t) && forall u :: a <= u < b && Recurs(start, r, u) ==> u == t
  }

  lemma SkipTo(out: seq<Occurrence>, item: Item, r: Rule, from: int, upTo: int, a: int, b: int)
    requires Complete(out, item, r, from, upTo, a) && a <= b && NoneIn(item.start, r, a, b)
    ensures Complete(out, item, r, from, upTo, b) && Before(item.start, r, b) == Before(item.start, r, a)
  {
    hide Recurs;
    assert forall u :: u in Before(item.start, r, b) <==> u in Before(item.start, r, a);
  }

  /** What `Emit` does to the list. */
  function Emitted(out: seq<Occurrence>, item: Item, from: int, upTo: int, t: int): seq<Occurrence> {
    if Shown(item, from, upTo, t) then out + [OccurrenceAt(item, t)] else out
  }

  lemma OneMoreBefore(start: int, r: Rule, a: int, b: int, t: int)
    requires OnlyIn(start, r, a, b, t)
    ensures Before(start, r, t) == Before(start, r, a)
    ensures |Before(start, r, b)| == |Before(start, r, a)| + 1
  {
    hide Recurs;
    assert Before(start, r, t) == Before(start, r, a);
    assert t !in Before(start, r, a);
    RecursAfterStart(start, r, t);
    assert Before(start, r, b) == Before(start, r, a) + {t};
  }

  lemma RecursAfterStart(start: int, r: Rule, t: int)
    requires Recurs(start, r, t)
    ensures start <= t
  {
  }

  lemma EmitAt(out: seq<Occurrence>, item: Item, r: Rule, from: int, upTo: int, a: int, b: int, t: int)
    requires Complete(out, item, r, from, upTo, a) && OnlyIn(item.start, r, a, b, t)
    requires r.count > 0 ==> |Before(item.start, r, a)| < r.count
    requires r.until.Some? ==> t <= r.until.value
    ensures Complete(Emitted(out, item, from, upTo, t), item, r, from, upTo, b)
    ensures |Before(item.start, r, b)| == |Before(item.start, r, a)| + 1
  {
    hide Recurs, Before, Shown;
    OneMoreBefore(item.start, r, a, b, t);
    var out' := Emitted(out, item, from, upTo, t);
    assert forall i :: 0 <= i < |out| ==> out'[i] == out[i];
    assert Shown(item, from, upTo, t) ==> out'[|out|].start == t;
    forall u | u < b && Qualifies(item, r, from, upTo, u)
      ensures Has(out', u)
    {
      if u < a {
        assert Has(out, u);
        var i :| 0 <= i < |out| && out[i].start == u;
        assert out'[i].start == u;
      }
    }
  }

  lemma MoreBefore(start: int, r: Rule, a: int, b: int)
    requires a <= b
    ensures |Before(start, r, a)| <= |Before(start, r, b)|
  {
    hide Recurs;
    var x, y := Before(start, r, a), Before(start, r, b);
    assert y == x + (y - x);
  }

  /** The list is what it should be once nothing from the bound on qualifies, or a cap has been reached. */
  lemma Finish(out: seq<Occurrence>, item: Item, r: Rule, from: int, upTo: int, bound: int)
    requires Complete(out, item, r, from, upTo, bound) && |out| <= MAX_OCCURRENCES
    requires || bound >= upTo
             || (r.until.Some? && NoneIn(item.start, r, bound, r.until.value + 1))
             || (r.count > 0 && |Before(item.start, r, bound)| >= r.count)
             || |out| == MAX_OCCURRENCES
             || bound >= Horizon(item.start, r)
    ensures Expanded(out, item, r, from, upTo)
  {
    hide Recurs, Before, Horizon;
    forall t | Qualifies(item, r, from, upTo, t)
      ensures Has(out, t) || (AllBefore(out, t) && (|out| == MAX_OCCURRENCES || t >= Horizon(item.start, r)))
    {
      if t >= bound {
        MoreBefore(item.start, r, bound, t);
      }
    }
  }

  // ---- arithmetic of steps ------------------------------------------------

  lemma Multiple(x: int, s: int, n: int)
    requires s > 0 && x % s == 0 && n * s <= x < (n + 1) * s
    ensures x == n * s
  {
    var q := x / s;
    assert x == q * s;
    TimesMonotone(q + 1, n, s);
    TimesMonotone(n + 1, q, s);
    TimesMonotone(n, q, s);
    TimesMonotone(q, n, s);
  }

  lemma MultipleOf(n: int, s: int)
    requires s > 0
    ensures (n * s) % s == 0
  {
    DivUnique(n * s, s, n, 0);
  }

  // ---- every nth day ------------------------------------------------------

  lemma PlainRound(start: int, r: Rule, n: nat)
    requires !ByDay(r) && (r.freq.Daily? || r.freq.Weekly?)
    ensures OnlyIn(start, r, Round(start, r, n), Round(start, r, n + 1), Round(start, r, n))
    ensures NoneIn(start, r, Round(start, r, n), Round(start, r, n))
  {
    var s := StepDays(r) * DAY;
    var a := Round(start, r, n);
    MultipleOf(n, s);
    TimesMonotone(0, n, s);
    forall u | a <= u < a + s && Recurs(start, r, u)
      ensures u == a
    {
      Multiple(u - start, s, n);
    }
  }

  // ---- every nth month ----------------------------------------------------

  /** A day and a time of day determine the instant. */
  lemma Instant(t: int)
    ensures t == DayOf(t) * DAY + TimeOf(t)
  {
  }

  lemma InstantOf(day: int, time: int)
    requires 0 <= time < DAY
    ensures DayOf(day * DAY + time) == day && TimeOf(day * DAY + time) == time
  {
    DivUnique(day * DAY + time, DAY, day, time);
  }

  /** The month of an instant, and its day in the month. */
  lemma MonthAndDay(t: int)
    ensures DayOf(t) == FirstOf(MonthAt(t)) + DateAt(t).d - 1 && 1 <= DateAt(t).d <= LengthOf(MonthAt(t))
  {
    hide FirstOf, LengthOf, DaysFromCivil, CivilFromDays, DaysInMonth;
    DaysOfCivil(DayOf(t));
    DaysInMonthOf(DateAt(t));
  }

  /** The instant on a day of a month. */
  lemma DayOfMonth(k: int, d: int, time: int)
    requires 0 <= time < DAY && 1 <= d <= LengthOf(k)
    ensures var t := (FirstOf(k) + d - 1) * DAY + time;
            TimeOf(t) == time && DateAt(t) == Date(YearOf(k), MonthOf(k), d) && MonthAt(t) == k
  {
    hide FirstOf, DaysFromCivil, CivilFromDays, DaysInMonth;
    var date := Date(YearOf(k), MonthOf(k), d);
    InstantOf(FirstOf(k) + d - 1, time);
    assert MonthIndex(date.y, date.m) == k;
    DaysInMonthOf(date);
    CivilOfDays(date);
  }

  /** An instant before the first of a month lies in an earlier month, and conversely. */
  lemma MonthBounds(t: int, k: int)
    ensures FirstOf(k) * DAY <= t <==> k <= MonthAt(t)
  {
    hide FirstOf, LengthOf, MonthAt, DateAt;
    MonthAndDay(t);
    Instant(t);
    var j := MonthAt(t);
    if j < k {
      MonthsAscend(j, k);
      FirstOfDay(t, FirstOf(k));
    } else {
      if k < j {
        MonthsAscend(k, j);
      }
      FirstOfDay(t, FirstOf(k));
    }
  }

  lemma FirstOfDay(t: int, day: int)
    ensures day * DAY <= t <==> day <= DayOf(t)
  {
  }

  /** In the nth round of a monthly or yearly rule falls the starting day of that month, if it has one. */
  lemma MonthRound(start: int, r: Rule, n: nat)
    requires r.freq.Monthly? || r.freq.Yearly?
    ensures var k, d := MonthAt(start) + n * StepMonths(r), DateAt(start).d;
            && Round(start, r, n) == FirstOf(k) * DAY <= Round(start, r, n + 1)
            && (d > LengthOf(k) ==> NoneIn(start, r, Round(start, r, n), Round(start, r, n + 1)))
            && (d <= LengthOf(k) ==>
                OnlyIn(start, r, Round(start, r, n), Round(start, r, n + 1), (FirstOf(k) + d - 1) * DAY + TimeOf(start)))
  {
    hide FirstOf, LengthOf, MonthAt, DateAt, DayOf, TimeOf;
    var s, d := StepMonths(r), DateAt(start).d;
    var k := MonthAt(start) + n * s;
    MonthsAscend(k, k + s);
    MonthAndDay(start);
    forall u | Round(start, r, n) <= u < Round(start, r, n + 1) && Recurs(start, r, u)
      ensures d <= LengthOf(k) && u == (FirstOf(k) + d - 1) * DAY + TimeOf(start)
    {
      MonthBounds(u, k);
      MonthBounds(u, k + s);
      Multiple(MonthAt(u) - MonthAt(start), s, n);
      MonthAndDay(u);
      Instant(u);
    }
    if d <= LengthOf(k) {
      DayOfMonth(k, d, TimeOf(start));
      var t := (FirstOf(k) + d - 1) * DAY + TimeOf(start);
      MonthBounds(t, k);
      MonthBounds(t, k + s);
      MultipleOf(n, s);
      Instant(start);
      TimesMonotone(0, n, s);
      StartsFirst(start, k, t);
    }
  }

  /** The starting day in a month at or after the starting month is not before the start. */
  lemma StartsFirst(start: int, k: int, t: int)
    requires MonthAt(start) <= k && DateAt(start).d <= LengthOf(k)
    requires t == (FirstOf(k) + DateAt(start).d - 1) * DAY + TimeOf(start)
    ensures start <= t
  {
    hide FirstOf, LengthOf, MonthAt, DateAt, DayOf, TimeOf;
    MonthAndDay(start);
    Instant(start);
    if MonthAt(start) < k {
      MonthsAscend(MonthAt(start), k);
    }
  }

  // ---- named days of every nth week ---------------------------------------

  predicate InWeekOrder(days: seq<Weekday>) {
    forall i, j :: 0 <= i < j < |days| ==> days[i] < days[j]
  }

  lemma WeekOf(day: int)
    ensures SundayOf(day) <= day < SundayOf(day) + 7 && WeekdayFromDays(day) == day - SundayOf(day)
    ensures SundayOf(SundayOf(day)) == SundayOf(day)
  {
    hide WeekdayFromDays;
    WeekdayForm(day);
    WeekdayForm(SundayOf(day));
  }

  /** The days of the week that starts on a Sunday. */
  lemma DayInWeek(sunday: int, dow: int)
    requires SundayOf(sunday) == sunday && 0 <= dow < 7
    ensures SundayOf(sunday + dow) == sunday && WeekdayFromDays(sunday + dow) == dow
  {
    hide WeekdayFromDays;
    WeekdayForm(sunday);
    WeekdayForm(sunday + dow);
  }

  lemma SundaysLater(sunday: int, weeks: int)
    requires SundayOf(sunday) == sunday
    ensures SundayOf(sunday + 7 * weeks) == sunday + 7 * weeks
  {
    hide WeekdayFromDays;
    WeekdayForm(sunday);
    WeekdayForm(sunday + 7 * weeks);
  }

  /** Where day `i` of the rule begins in the week of a round, or where the next round begins. */
  function DayBound(start: int, r: Rule, n: nat, i: nat): int {
    if i < |r.bydays| then (FirstSunday(start) + 7 * (r.interval * n) + r.bydays[i]) * DAY else Round(start, r, n + 1)
  }

  /** A recurrence between two Sundays of consecutive rounds falls on a named day of the first week. */
  lemma InWeek(start: int, r: Rule, n: nat, u: int)
    requires ByDay(r) && Round(start, r, n) <= u < Round(start, r, n + 1) && Recurs(start, r, u)
    ensures var sunday := FirstSunday(start) + 7 * (r.interval * n);
            SundayOf(DayOf(u)) == sunday && u == (sunday + WeekdayFromDays(DayOf(u))) * DAY + TimeOf(start)
  {
    hide SundayOf, WeekdayFromDays, DayOf, TimeOf;
    var s := 7 * r.interval;
    var first := FirstSunday(start);
    var sunday := SundayOf(DayOf(u));
    WeekOf(DayOf(u));
    WeekOf(DayOf(start));
    FirstOfDay(u, first + n * s);
    FirstOfDay(u, first + (n + 1) * s);
    SundaysLater(first, r.interval * n);
    WeekScale(r.interval, n);
    SameWeek(DayOf(u), first + n * s, s, n, first);
    Instant(u);
  }

  lemma WeekScale(interval: int, n: int)
    ensures 7 * (interval * n) == n * (7 * interval)
    ensures 7 * (interval * (n + 1)) == (n + 1) * (7 * interval)
  {
    assert interval * n == n * interval;
    assert interval * (n + 1) == (n + 1) * interval;
  }

  /** Sundays a whole number of rounds after the first one, for a day within a round. */
  lemma SameWeek(day: int, base: int, s: int, n: int, first: int)
    requires s > 0 && s % 7 == 0 && base == first + n * s && base <= day < base + s
    requires (SundayOf(day) - first) % s == 0 && SundayOf(base) == base
    ensures SundayOf(day) == base
  {
    hide SundayOf;
    WeekOf(day);
    var x := SundayOf(day) - first;
    if SundayOf(day) < base {
      SundaysMonotone(base, day);
    }
    Multiple(x, s, n);
  }

  lemma SundaysMonotone(a: int, b: int)
    requires a <= b
    ensures SundayOf(a) <= SundayOf(b)
  {
    hide WeekdayFromDays;
    WeekdayForm(a);
    WeekdayForm(b);
  }

  /** Before the first named day of the week of a round there is no recurrence. */
  lemma WeekOpens(start: int, r: Rule, n: nat)
    requires ByDay(r) && InWeekOrder(r.bydays)
    ensures Round(start, r, n) <= DayBound(start, r, n, 0) && NoneIn(start, r, Round(start, r, n), DayBound(start, r, n, 0))
  {
    hide Recurs, SundayOf, WeekdayFromDays, DayOf, TimeOf;
    RoundsAscend(start, r, n);
    forall u | Round(start, r, n) <= u < DayBound(start, r, n, 0)
      ensures !Recurs(start, r, u)
    {
      if Recurs(start, r, u) {
        InWeek(start, r, n, u);
        NamedDay(start, r, u, 0);
      }
    }
  }

  lemma RoundsAscend(start: int, r: Rule, n: nat)
    requires ByDay(r)
    ensures Round(start, r, n) + 7 * DAY <= Round(start, r, n + 1)
  {
    WeekScale(r.interval, n);
  }

  /** The weekday of a recurrence against a place in the list of named days. */
  lemma NamedDay(start: int, r: Rule, u: int, i: nat)
    requires ByDay(r) && InWeekOrder(r.bydays) && i < |r.bydays| && Recurs(start, r, u)
    ensures var w := WeekdayFromDays(DayOf(u));
            && (w < r.bydays[i] ==> i > 0)
            && (w > r.bydays[i] ==> i + 1 < |r.bydays| && r.bydays[i + 1] <= w)
  {
    hide SundayOf, WeekdayFromDays, DayOf, TimeOf;
    var j :| 0 <= j < |r.bydays| && r.bydays[j] == WeekdayFromDays(DayOf(u));
    assert i + 1 < |r.bydays| && i + 1 < j ==> r.bydays[i + 1] < r.bydays[j];
    assert j < i ==> r.bydays[j] < r.bydays[i];
    assert i < j ==> r.bydays[i] < r.bydays[j];
  }

  /** The instant that the week of a round and one named day give. */
  function DayWall(start: int, r: Rule, n: nat, i: nat): int
    requires i < |r.bydays|
  {
    (FirstSunday(start) + 7 * (r.interval * n) + r.bydays[i]) * DAY + TimeOf(start)
  }

  lemma DayWallRecurs(start: int, r: Rule, n: nat, i: nat)
    requires ByDay(r) && i < |r.bydays| && DayWall(start, r, n, i) >= start
    ensures Recurs(start, r, DayWall(start, r, n, i))
  {
    hide SundayOf, WeekdayFromDays, DayOf, TimeOf;
    var s := 7 * r.interval;
    var first := FirstSunday(start);
    WeekOf(DayOf(start));
    SundaysLater(first, r.interval * n);
    WeekScale(r.interval, n);
    DayInWeek(first + n * s, r.bydays[i]);
    InstantOf(first + n * s + r.bydays[i], TimeOf(start));
    MultipleOf(n, s);
  }

  /** From one named day of a week to the next. */
  lemma DayRound(start: int, r: Rule, n: nat, i: nat)
    requires ByDay(r) && InWeekOrder(r.bydays) && i < |r.bydays|
    ensures var a, b, t := DayBound(start, r, n, i), DayBound(start, r, n, i + 1), DayWall(start, r, n, i);
            && a <= t < b
            && (t < start ==> NoneIn(start, r, a, b))
            && (t >= start ==> OnlyIn(start, r, a, b, t))
  {
    hide Recurs, SundayOf, WeekdayFromDays, DayOf, TimeOf;
    RoundsAscend(start, r, n);
    var a, b, t := DayBound(start, r, n, i), DayBound(start, r, n, i + 1), DayWall(start, r, n, i);
    assert i + 1 < |r.bydays| ==> r.bydays[i] < r.bydays[i + 1];
    forall u | a <= u < b && Recurs(start, r, u)
      ensures u == t
    {
      InWeek(start, r, n, u);
      NamedDay(start, r, u, i);
    }
    if t >= start {
      DayWallRecurs(start, r, n, i);
    } else {
      forall u | a <= u < b
        ensures !Recurs(start, r, u)
      {
        if Recurs(start, r, u) {
          RecursAfterStart(start, r, u);
        }
      }
    }
  }

  // ---- where looking begins and ends --------------------------------------

  /** Before the first round there is nothing to find. */
  lemma NothingYet(item: Item, r: Rule, from: int, upTo: int)
    ensures Complete([], item, r, from, upTo, Round(item.start, r, 0)) && Before(item.start, r, Round(item.start, r, 0)) == {}
  {
    hide FirstOf, MonthAt, SundayOf;
    var start := item.start;
    if ByDay(r) {
      WeekOf(DayOf(start));
      FirstOfDay(start, FirstSunday(start));
    } else if r.freq.Monthly? || r.freq.Yearly? {
      MonthBounds(start, MonthAt(start));
    }
    assert Round(start, r, 0) <= start;
  }

  /** Nothing recurs up to a recurrence that comes after UNTIL. */
  lemma NoneUntil(start: int, r: Rule, a: int, b: int, t: int, until: int)
    requires OnlyIn(start, r, a, b, t) && until < t
    ensures NoneIn(start, r, a, until + 1)
  {
    hide Recurs;
  }

  // ---- what a rule says ---------------------------------------------------

  /** `b` is so many steps after `a`. */
  predicate Steps(a: int, b: int, step: int, k: int) {
    b == a + k * step
  }

  ghost predicate WholeStepsApart(a: int, b: int, step: int) {
    exists k :: Steps(a, b, step, k)
  }

  /** An instant recurs when it is so many whole intervals after the start: of days, of weeks, of months on the
      same day, of years on the same date, or, counted from Sunday to Sunday, of weeks on one of the days
      named; at the same time of day. */
  lemma RuleMeans(start: int, r: Rule, t: int)
    ensures var (s, a, b) := (start / 86400, CivilFromDays(start / 86400), CivilFromDays(t / 86400));
            Recurs(start, r, t) <==>
            && t >= start
            && (r.freq.Daily? ==> WholeStepsApart(start, t, 86400 * r.interval))
            && (r.freq.Weekly? && r.bydays == [] ==> WholeStepsApart(start, t, 604800 * r.interval))
            && (!r.freq.Daily? && !(r.freq.Weekly? && r.bydays == []) ==> t % 86400 == start % 86400)
            && (r.freq.Weekly? && r.bydays != [] ==>
                && WeekdayFromDays(t / 86400) in r.bydays
                && WholeStepsApart(s - WeekdayFromDays(s), t / 86400 - WeekdayFromDays(t / 86400), 7 * r.interval))
            && (r.freq.Monthly? ==> b.d == a.d && WholeStepsApart(a.y * 12 + a.m, b.y * 12 + b.m, r.interval))
            && (r.freq.Yearly? ==> b.d == a.d && b.m == a.m && WholeStepsApart(a.y, b.y, r.interval))
  {
    hide CivilFromDays, WeekdayFromDays;
    var (a, b) := (CivilFromDays(start / 86400), CivilFromDays(t / 86400));
    WholeSteps(start, t, 86400 * r.interval);
    WholeSteps(start, t, 604800 * r.interval);
    WholeSteps(SundayOf(DayOf(start)), SundayOf(DayOf(t)), 7 * r.interval);
    WholeSteps(a.y * 12 + a.m, b.y * 12 + b.m, r.interval);
    if r.freq.Yearly? {
      DatesAreValid(start, t);
      WholeYears(a.y, a.m, b.y, b.m, r.interval);
      WholeSteps(a.y, b.y, r.interval);
    }
  }

  lemma DatesAreValid(start: int, t: int)
    ensures 1 <= DateAt(start).m <= 12 && 1 <= DateAt(t).m <= 12
  {
    hide CivilFromDays;
    DaysOfCivil(DayOf(start));
    DaysOfCivil(DayOf(t));
  }

  lemma WholeSteps(a: int, b: int, step: int)
    requires step > 0
    ensures (b - a) % step == 0 <==> WholeStepsApart(a, b, step)
  {
    if (b - a) % step == 0 {
      assert Steps(a, b, step, (b - a) / step);
    }
    if k :| Steps(a, b, step, k) {
      MultipleOf(k, step);
    }
  }

  lemma WholeYears(y: int, m: int, y': int, m': int, n: int)
    requires n > 0 && 1 <= m <= 12 && 1 <= m' <= 12
    ensures (MonthIndex(y', m') - MonthIndex(y, m)) % (12 * n) == 0 <==> m' == m && (y' - y) % n == 0
  {
    var x := MonthIndex(y', m') - MonthIndex(y, m);
    if x % (12 * n) == 0 {
      var q := x / (12 * n);
      assert x == 12 * (n * q) by {
        assert x == (12 * n) * q;
      }
      assert m' == m && y' - y == n * q;
      MultipleOf(q, n);
    }
    if m' == m && (y' - y) % n == 0 {
      var q := (y' - y) / n;
      assert x == 12 * (n * q);
      assert x == q * (12 * n);
      MultipleOf(q, 12 * n);
    }
  }

  /** How long an item lasts, and when it is shown: some part of it lies in the window. */
  lemma LengthMeans(item: Item, from: int, upTo: int, t: int)
    ensures item.end.Some? ==> OccurrenceAt(item, item.start).end == item.end.value
    ensures OccurrenceAt(item, t).end - t == if item.end.Some? then item.end.value - item.start else if item.allDay then 86400 else 0
    ensures OccurrenceAt(item, t).end > t && t !in item.exdates ==>
              (Shown(item, from, upTo, t) <==> t < upTo && from < OccurrenceAt(item, t).end)
    ensures OccurrenceAt(item, t).end <= t && t !in item.exdates ==> (Shown(item, from, upTo, t) <==> from <= t < upTo)
  {
  }
}
