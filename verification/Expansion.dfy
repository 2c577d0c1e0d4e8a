/** The expander of core/src/ical.cpp. */
module Expansion {
  import opened Text
  import opened Calendar
  import opened Recurrence
  import opened NamedDays

  method Emit(out: seq<Occurrence>, item: Item, from: int, upTo: int, t: int) returns (r: seq<Occurrence>)
    ensures r == Emitted(out, item, from, upTo, t)
  {
    for i := 0 to |item.exdates|
      invariant t !in item.exdates[..i]
    {
      if item.exdates[i] == t {
        return out;
      }
    }
    assert item.exdates[..|item.exdates|] == item.exdates;
    if t >= upTo {
      return out;
    }
    var duration := Duration(item);
    if if duration > 0 then t + duration <= from else t < from {
      return out;
    }
    r := out + [OccurrenceAt(item, t)];
  }

  predicate WantMore(size: nat, rounds: nat, emitted: nat, r: Rule) {
    && size < MAX_OCCURRENCES && rounds < MAX_ROUNDS
    && !(r.count > 0 && emitted >= r.count)
  }

  /** Every nth day or week. */
  method ExpandDays(item: Item, r: Rule, from: int, upTo: int) returns (out: seq<Occurrence>)
    requires !ByDay(r) && (r.freq.Daily? || r.freq.Weekly?)
    ensures Expanded(out, item, r, from, upTo)
  {
    hide Recurs, Before, Complete, Shown, Expanded, Emitted;
    out := [];
    var step := StepDays(r);
    var n, emitted: nat := 0, 0;
    ghost var start := item.start;
    NothingYet(item, r, from, upTo);
    while WantMore(|out|, n, emitted, r)
      invariant n <= MAX_ROUNDS && |out| <= MAX_OCCURRENCES
      invariant Complete(out, item, r, from, upTo, Round(start, r, n)) && emitted == |Before(start, r, Round(start, r, n))|
      decreases MAX_ROUNDS - n
    {
      var wall := item.start + n * (step * DAY);
      PlainRound(start, r, n);
      if r.until.Some? && wall > r.until.value {
        NoneBefore(start, r, wall, r.until.value + 1);
        Finish(out, item, r, from, upTo, wall);
        return;
      }
      if wall >= upTo {
        Finish(out, item, r, from, upTo, wall);
        return;
      }
      EmitAt(out, item, r, from, upTo, wall, Round(start, r, n + 1), wall);
      EmittedSize(out, item, from, upTo, wall);
      emitted := emitted + 1;
      out := Emit(out, item, from, upTo, wall);
      n := n + 1;
    }
    LastRound(start, r);
    Finish(out, item, r, from, upTo, Round(start, r, n));
  }

  lemma EmittedSize(out: seq<Occurrence>, item: Item, from: int, upTo: int, t: int)
    ensures |out| <= |Emitted(out, item, from, upTo, t)| <= |out| + 1
  {
  }

  lemma NoneBefore(start: int, r: Rule, a: int, b: int)
    requires b <= a
    ensures NoneIn(start, r, a, b)
  {
  }

  /** Every nth month or year. */
  method ExpandMonths(item: Item, r: Rule, from: int, upTo: int) returns (out: seq<Occurrence>)
    requires r.freq.Monthly? || r.freq.Yearly?
    ensures Expanded(out, item, r, from, upTo)
  {
    hide Recurs, Before, Complete, Shown, Expanded, Emitted, Round, MonthAt, DateAt, FirstOf, LengthOf, DaysFromCivil, BreakWall, DaysInMonth, TimeOf;
    out := [];
    var wall0 := BreakWall(item.start);
    var y0, mo0, d0 := wall0.date.y, wall0.date.m, wall0.date.d;
    StartBroken(item.start);
    var dayTime := item.start - DaysFromCivil(Date(y0, mo0, d0)) * DAY;
    var n, emitted: nat := 0, 0;
    ghost var start := item.start;
    NothingYet(item, r, from, upTo);
    while WantMore(|out|, n, emitted, r)
      invariant n <= MAX_ROUNDS && |out| <= MAX_OCCURRENCES
      invariant Complete(out, item, r, from, upTo, Round(start, r, n)) && emitted == |Before(start, r, Round(start, r, n))|
      decreases MAX_ROUNDS - n
    {
      var y, mo := y0, mo0;
      if r.freq.Monthly? {
        var total := (mo0 - 1) + n * r.interval;
        y := y0 + total / 12;
        mo := total % 12 + 1;
      } else {
        y := y0 + n * r.interval;
      }
      ghost var k := MonthAt(start) + n * StepMonths(r);
      MonthReached(y0, mo0, r, n, y, mo);
      MonthRound(start, r, n);
      ghost var a, b := Round(start, r, n), Round(start, r, n + 1);
      if d0 > DaysInMonth(y, mo) {
        if DaysFromCivil(Date(y, mo, 1)) * DAY >= upTo {
          Finish(out, item, r, from, upTo, a);
          return;
        }
        SkipTo(out, item, r, from, upTo, a, b);
        n := n + 1;
        continue;
      }
      var wall := DaysFromCivil(Date(y, mo, d0)) * DAY + dayTime;
      OnlyFirst(start, r, a, b, wall);
      if r.until.Some? && wall > r.until.value {
        NoneUntil(start, r, a, b, wall, r.until.value);
        Finish(out, item, r, from, upTo, a);
        return;
      }
      if wall >= upTo {
        SkipTo(out, item, r, from, upTo, a, wall);
        Finish(out, item, r, from, upTo, wall);
        return;
      }
      EmitAt(out, item, r, from, upTo, a, b, wall);
      EmittedSize(out, item, from, upTo, wall);
      emitted := emitted + 1;
      out := Emit(out, item, from, upTo, wall);
      n := n + 1;
    }
    LastRound(start, r);
    Finish(out, item, r, from, upTo, Round(start, r, n));
  }

  lemma OnlyFirst(start: int, r: Rule, a: int, b: int, t: int)
    requires OnlyIn(start, r, a, b, t)
    ensures a <= t && NoneIn(start, r, a, t)
  {
    hide Recurs;
  }

  lemma StartBroken(start: int)
    ensures var w := BreakWall(start);
            && w.date == DateAt(start) && ValidDate(w.date) && MonthIndex(w.date.y, w.date.m) == MonthAt(start)
            && start - DaysFromCivil(w.date) * DAY == TimeOf(start)
  {
    hide DaysFromCivil, CivilFromDays, ValidDate;
    BreakForm(start);
    DaysOfCivil(DayOf(start));
    Instant(start);
  }

  /** The year and month of a round. */
  lemma MonthReached(y0: int, mo0: int, r: Rule, n: nat, y: int, mo: int)
    requires 1 <= mo0 <= 12 && (r.freq.Monthly? || r.freq.Yearly?)
    requires if r.freq.Monthly? then y == y0 + ((mo0 - 1) + n * r.interval) / 12 && mo == ((mo0 - 1) + n * r.interval) % 12 + 1
             else y == y0 + n * r.interval && mo == mo0
    ensures var k := MonthIndex(y0, mo0) + n * StepMonths(r);
            && 1 <= mo <= 12 && LengthOf(k) == DaysInMonth(y, mo) && DaysFromCivil(Date(y, mo, 1)) == FirstOf(k)
            && forall d :: DaysFromCivil(Date(y, mo, d)) == FirstOf(k) + d - 1
  {
    hide DaysFromCivil, DaysInMonth, FirstOf, LengthOf;
    var k := MonthIndex(y0, mo0) + n * StepMonths(r);
    if r.freq.Yearly? {
      assert n * (12 * r.interval) == 12 * (n * r.interval);
    }
    assert MonthIndex(y, mo) == k;
    forall d
      ensures DaysFromCivil(Date(y, mo, d)) == FirstOf(k) + d - 1
    {
      DaysInMonthOf(Date(y, mo, d));
    }
    DaysInMonthOf(Date(y, mo, 1));
  }

  lemma WeekStartIs(start: int, startDay: int, dayTime: int)
    requires dayTime == start - startDay * DAY == TimeOf(start)
    ensures startDay == DayOf(start) && startDay - WeekdayFromDays(startDay) == FirstSunday(start)
  {
    hide WeekdayFromDays;
    Instant(start);
  }

  /** The weeks between the first round and another. */
  function WeeksOn(r: Rule, n: nat): nat {
    r.interval * n
  }

  lemma NextWeek(r: Rule, n: nat)
    ensures WeeksOn(r, 0) == 0 && WeeksOn(r, n + 1) == WeeksOn(r, n) + r.interval
  {
  }

  lemma WallIs(start: int, r: Rule, n: nat, i: nat, wall: int)
    requires i < |r.bydays| && wall == (FirstSunday(start) + WeeksOn(r, n) * 7 + r.bydays[i]) * DAY + TimeOf(start)
    ensures wall == DayWall(start, r, n, i)
  {
  }

  lemma LastRound(start: int, r: Rule)
    ensures Round(start, r, MAX_ROUNDS) >= Horizon(start, r)
  {
    if ByDay(r) {
      RoundsAscend(start, r, MAX_ROUNDS - 1);
    }
  }

  /** The named days of every nth week, in the order the rule names them. */
  method ExpandByDay(item: Item, r: Rule, from: int, upTo: int) returns (out: seq<Occurrence>)
    requires ByDay(r)
    ensures out == Listing(item, r, from, upTo)
    ensures InWeekOrder(r.bydays) ==> Expanded(out, item, r, from, upTo)
  {
    hide Expanded, Shown, DayWall, TimeOf, SundayOf, BreakWall, DaysFromCivil, WeekdayFromDays, InWeekOrder, WeeksOn, Finished, Listing,
      Listable;
    if InWeekOrder(r.bydays) {
      OrderedIsExpanded(item, r, from, upTo);
    }
    out := [];
    ghost var start := item.start;
    var wall0 := BreakWall(item.start);
    StartBroken(item.start);
    var startDay := DaysFromCivil(wall0.date);
    var weekStart := startDay - WeekdayFromDays(startDay);
    var dayTime := item.start - startDay * DAY;
    WeekStartIs(start, startDay, dayTime);
    var w, rounds, emitted: nat := 0, 0, 0;
    NextWeek(r, 0);
    while WantMore(|out|, rounds, emitted, r)
      invariant rounds < MAX_ROUNDS && |out| <= MAX_OCCURRENCES && w == WeeksOn(r, rounds)
      invariant out == ListTo(item, r, from, upTo, rounds, 0) && emitted == CountTo(item, r, rounds, 0) && Timely(item, r, rounds, 0)
      decreases MAX_ROUNDS - rounds
    {
      ghost var n := rounds;
      rounds := rounds + 1;
      NextWeek(r, n);
      var anyFuture := false;
      for i := 0 to |r.bydays|
        invariant WantMore(|out|, n, emitted, r) && (rounds == MAX_ROUNDS ==> i == 0)
        invariant out == ListTo(item, r, from, upTo, n, i) && emitted == CountTo(item, r, n, i) && Timely(item, r, n, i)
      {
        var day := weekStart + w * 7 + r.bydays[i];
        var wall := day * DAY + dayTime;
        WallIs(start, r, n, i, wall);
        if wall < item.start {
          NotListed(item, r, from, upTo, n, i, out);
          if n > 0 {
            LaterRounds(item, r, n, i);
          }
          continue;
        }
        anyFuture := true;
        if r.until.Some? && wall > r.until.value {
          NotListed(item, r, from, upTo, n, i, out);
          SpentIsFinished(item, r, from, upTo, n, i + 1);
          ListingIs(item, r, from, upTo, n, i + 1);
          return;
        }
        ListedOne(item, r, from, upTo, n, i, out);
        emitted := emitted + 1;
        out := Emit(out, item, from, upTo, wall);
        if !WantMore(|out|, rounds, emitted, r) {
          if r.count > 0 && emitted >= r.count {
            SpentIsFinished(item, r, from, upTo, n, i + 1);
          }
          ListingIs(item, r, from, upTo, n, i + 1);
          return;
        }
      }
      if anyFuture && (weekStart + w * 7) * DAY + dayTime >= upTo {
        WeekPast(item, r, from, upTo, n, weekStart, dayTime);
        ListingIs(item, r, from, upTo, n, |r.bydays|);
        return;
      }
      w := w + r.interval;
    }
    if r.count > 0 && emitted >= r.count {
      SpentIsFinished(item, r, from, upTo, rounds, 0);
    }
    ListingIs(item, r, from, upTo, rounds, 0);
  }

  /** A day before the start is passed over, and one after UNTIL ends the listing. */
  lemma NotListed(item: Item, r: Rule, from: int, upTo: int, n: nat, i: nat, out: seq<Occurrence>)
    requires i < |r.bydays| && out == ListTo(item, r, from, upTo, n, i)
    requires var t := DayWall(item.start, r, n, i);
             t < item.start || (r.until.Some? && t > r.until.value)
    ensures ListTo(item, r, from, upTo, n, i + 1) == out
    ensures if DayWall(item.start, r, n, i) < item.start
            then CountTo(item, r, n, i + 1) == CountTo(item, r, n, i) && Timely(item, r, n, i + 1) == Timely(item, r, n, i)
            else !Timely(item, r, n, i + 1)
  {
    hide DayWall, Shown;
    assert out + [] == out;
  }

  /** A day that is neither before the start nor after UNTIL nor over COUNT is listed when it is shown. */
  lemma ListedOne(item: Item, r: Rule, from: int, upTo: int, n: nat, i: nat, out: seq<Occurrence>)
    requires i < |r.bydays| && DayWall(item.start, r, n, i) >= item.start
    requires Timely(item, r, n, i) && (r.until.Some? ==> DayWall(item.start, r, n, i) <= r.until.value)
    requires (r.count > 0 ==> CountTo(item, r, n, i) < r.count) && out == ListTo(item, r, from, upTo, n, i)
    ensures Timely(item, r, n, i + 1) && CountTo(item, r, n, i + 1) == CountTo(item, r, n, i) + 1
    ensures ListTo(item, r, from, upTo, n, i + 1) == Emitted(out, item, from, upTo, DayWall(item.start, r, n, i))
    ensures |out| <= |Emitted(out, item, from, upTo, DayWall(item.start, r, n, i))| <= |out| + 1
  {
    hide DayWall, Shown;
    assert out + [] == out;
  }

  lemma WeekPast(item: Item, r: Rule, from: int, upTo: int, n: nat, weekStart: int, dayTime: int)
    requires ByDay(r) && weekStart == FirstSunday(item.start) && dayTime == TimeOf(item.start)
    requires (weekStart + WeeksOn(r, n) * 7) * DAY + dayTime >= upTo
    ensures Finished(item, r, from, upTo, n, |r.bydays|)
  {
    hide Listable;
    PastIsFinished(item, r, from, upTo, n);
  }

  /** The occurrences of an item that meet a window. */
  method Expand(item: Item, from: int, upTo: int) returns (out: seq<Occurrence>)
    ensures !item.valid ==> out == []
    ensures item.valid && item.rule.None? ==> out == if Shown(item, from, upTo, item.start) then [OccurrenceAt(item, item.start)] else []
    ensures item.valid && item.rule.Some? && (ByDay(item.rule.value) ==> InWeekOrder(item.rule.value.bydays)) ==>
              Expanded(out, item, item.rule.value, from, upTo)
    ensures item.valid && item.rule.Some? && ByDay(item.rule.value) ==> out == Listing(item, item.rule.value, from, upTo)
  {
    hide Recurs, Before, Shown, InWeekOrder, Listing;
    out := [];
    if !item.valid {
      return;
    }
    if item.rule.None? {
      out := Emit(out, item, from, upTo, item.start);
      return;
    }
    var r := item.rule.value;
    if r.freq.Daily? || r.freq.Weekly? {
      if r.freq.Weekly? && r.bydays != [] {
        out := ExpandByDay(item, r, from, upTo);
        return;
      }
      out := ExpandDays(item, r, from, upTo);
    } else {
      out := ExpandMonths(item, r, from, upTo);
    }
  }
}
