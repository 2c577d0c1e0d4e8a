/** Weekly rules with named days, as core/src/ical.cpp lists them. */
module NamedDays {
  import opened Text
  import opened Calendar
  import opened Recurrence

  // A place is a day `i` of the list in a round `n`; places are visited round by round, and in each round in
  // the order in which the rule names its days, whatever order that is.

  // ---- the listing --------------------------------------------------------

  /** How many of the days named before a place come at the start or later. */
  function CountTo(item: Item, r: Rule, n: nat, i: nat): nat
    requires i <= |r.bydays|
    decreases n, i
  {
    if i > 0 then CountTo(item, r, n, i - 1) + (if DayWall(item.start, r, n, i - 1) >= item.start then 1 else 0)
    else if n > 0 then CountTo(item, r, n - 1, |r.bydays|)
    else 0
  }

  predicate InTime(item: Item, r: Rule, t: int) {
    t >= item.start && r.until.Some? ==> t <= r.until.value
  }

  /** None of the days named before a place comes after UNTIL. */
  predicate Timely(item: Item, r: Rule, n: nat, i: nat)
    requires i <= |r.bydays|
    decreases n, i
  {
    if i > 0 then Timely(item, r, n, i - 1) && InTime(item, r, DayWall(item.start, r, n, i - 1))
    else if n > 0 then Timely(item, r, n - 1, |r.bydays|)
    else true
  }

  /** The day at a place is listed: it comes at the start or later, no day up to it came after UNTIL, fewer
      than COUNT came before it, and it is shown. */
  predicate Listable(item: Item, r: Rule, from: int, upTo: int, n: nat, i: nat)
    requires i < |r.bydays|
  {
    var t := DayWall(item.start, r, n, i);
    && t >= item.start && Timely(item, r, n, i + 1)
    && (r.count > 0 ==> CountTo(item, r, n, i) < r.count)
    && Shown(item, from, upTo, t)
  }

  /** The days listed before a place. */
  function ListTo(item: Item, r: Rule, from: int, upTo: int, n: nat, i: nat): seq<Occurrence>
    requires i <= |r.bydays|
    decreases n, i
  {
    if i > 0 then
      ListTo(item, r, from, upTo, n, i - 1) +
      (if Listable(item, r, from, upTo, n, i - 1) then [OccurrenceAt(item, DayWall(item.start, r, n, i - 1))] else [])
    else if n > 0 then ListTo(item, r, from, upTo, n - 1, |r.bydays|)
    else []
  }

  function Capped(list: seq<Occurrence>): (r: seq<Occurrence>)
    ensures |r| <= 750
  {
    if |list| <= 750 then list else list[..750]
  }

  /** What the expander returns for any list of days: the days listed up to the first of the last round, and
      no more than the cap. */
  function Listing(item: Item, r: Rule, from: int, upTo: int): seq<Occurrence>
    requires ByDay(r)
  {
    Capped(ListTo(item, r, from, upTo, MAX_ROUNDS - 1, 1))
  }

  // ---- going on -----------------------------------------------------------

  /** The first place is not after the second. */
  predicate NotAfter(n: nat, i: nat, n': nat, i': nat) {
    n < n' || (n == n' && i <= i')
  }

  /** Nothing is listed from a place on. */
  ghost predicate Finished(item: Item, r: Rule, from: int, upTo: int, n: nat, i: nat) {
    forall n': nat, i': nat :: NotAfter(n, i, n', i') && i' < |r.bydays| ==> !Listable(item, r, from, upTo, n', i')
  }

  lemma {:induction false} ListGrows(item: Item, r: Rule, from: int, upTo: int, n: nat, i: nat, n': nat, i': nat)
    requires i <= |r.bydays| && i' <= |r.bydays| && NotAfter(n, i, n', i')
    ensures ListTo(item, r, from, upTo, n, i) <= ListTo(item, r, from, upTo, n', i')
    ensures Finished(item, r, from, upTo, n, i) ==> ListTo(item, r, from, upTo, n', i') == ListTo(item, r, from, upTo, n, i)
    decreases n', i'
  {
    hide Listable;
    if n < n' || i < i' {
      if i' > 0 {
        ListGrows(item, r, from, upTo, n, i, n', i' - 1);
      } else {
        ListGrows(item, r, from, upTo, n, i, n' - 1, |r.bydays|);
      }
    }
  }

  lemma {:induction false} CountGrows(item: Item, r: Rule, n: nat, i: nat, n': nat, i': nat)
    requires i <= |r.bydays| && i' <= |r.bydays| && NotAfter(n, i, n', i')
    ensures CountTo(item, r, n, i) <= CountTo(item, r, n', i')
    ensures Timely(item, r, n', i') ==> Timely(item, r, n, i)
    decreases n', i'
  {
    hide DayWall, InTime;
    if n < n' || i < i' {
      if i' > 0 {
        CountGrows(item, r, n, i, n', i' - 1);
      } else {
        CountGrows(item, r, n, i, n' - 1, |r.bydays|);
      }
    }
  }

  /** A day after UNTIL, or COUNT reached, ends the listing. */
  lemma SpentIsFinished(item: Item, r: Rule, from: int, upTo: int, n: nat, i: nat)
    requires i <= |r.bydays|
    requires !Timely(item, r, n, i) || (r.count > 0 && CountTo(item, r, n, i) >= r.count)
    ensures Finished(item, r, from, upTo, n, i)
  {
    hide Timely, CountTo, Shown;
    forall n': nat, i': nat | NotAfter(n, i, n', i') && i' < |r.bydays|
      ensures !Listable(item, r, from, upTo, n', i')
    {
      CountGrows(item, r, n, i, n', i');
      CountGrows(item, r, n, i, n', i' + 1);
    }
  }

  /** So does a week that begins, at the time of day of the start, at the end of the window or later. */
  lemma PastIsFinished(item: Item, r: Rule, from: int, upTo: int, n: nat)
    requires ByDay(r) && (FirstSunday(item.start) + 7 * (r.interval * n)) * DAY + TimeOf(item.start) >= upTo
    ensures Finished(item, r, from, upTo, n, 0)
  {
    hide Timely, CountTo, FirstSunday, TimeOf;
    forall n': nat, i': nat | NotAfter(n, 0, n', i') && i' < |r.bydays|
      ensures !Listable(item, r, from, upTo, n', i')
    {
      RoundsApart(r.interval, n, n');
    }
  }

  lemma RoundsApart(interval: int, n: nat, n': nat)
    requires n <= n' && interval >= 1
    ensures interval * n <= interval * n'
  {
  }

  /** From the second round on every named day comes after the start. */
  lemma LaterRounds(item: Item, r: Rule, n: nat, i: nat)
    requires ByDay(r) && n > 0 && i < |r.bydays|
    ensures DayWall(item.start, r, n, i) >= item.start
  {
    hide WeekdayFromDays;
    WeekOf(DayOf(item.start));
    RoundsApart(r.interval, 1, n);
  }

  /** The listing is what has been listed when it has ended, by the cap or otherwise, at a place not after its last. */
  lemma ListingIs(item: Item, r: Rule, from: int, upTo: int, n: nat, i: nat)
    requires ByDay(r) && i <= |r.bydays| && NotAfter(n, i, MAX_ROUNDS - 1, 1)
    requires var list := ListTo(item, r, from, upTo, n, i);
             && |list| <= MAX_OCCURRENCES
             && (|list| == MAX_OCCURRENCES || (n == MAX_ROUNDS - 1 && i == 1) || Finished(item, r, from, upTo, n, i))
    ensures Listing(item, r, from, upTo) == ListTo(item, r, from, upTo, n, i)
  {
    hide ListTo, Finished;
    ListGrows(item, r, from, upTo, n, i, MAX_ROUNDS - 1, 1);
    var list, all := ListTo(item, r, from, upTo, n, i), ListTo(item, r, from, upTo, MAX_ROUNDS - 1, 1);
    assert all[..|list|] == list;
  }

  // ---- what holds for every list of days ----------------------------------

  /** A recurrence inside the window, whatever order the rule names its days in. */
  ghost predicate Plausible(o: Occurrence, item: Item, r: Rule, from: int, upTo: int) {
    && o == OccurrenceAt(item, o.start) && Recurs(item.start, r, o.start) && Shown(item, from, upTo, o.start)
    && (r.until.Some? ==> o.start <= r.until.value)
  }

  lemma {:induction false} ListToIsPlausible(item: Item, r: Rule, from: int, upTo: int, n: nat, i: nat)
    requires ByDay(r) && i <= |r.bydays|
    ensures forall k :: 0 <= k < |ListTo(item, r, from, upTo, n, i)| ==> Plausible(ListTo(item, r, from, upTo, n, i)[k], item, r, from, upTo)
    decreases n, i
  {
    hide Recurs, Shown, DayWall, CountTo, Plausible;
    if i > 0 {
      ListToIsPlausible(item, r, from, upTo, n, i - 1);
      if Listable(item, r, from, upTo, n, i - 1) {
        ListableIsPlausible(item, r, from, upTo, n, i - 1);
      }
    } else if n > 0 {
      ListToIsPlausible(item, r, from, upTo, n - 1, |r.bydays|);
    }
  }

  lemma ListableIsPlausible(item: Item, r: Rule, from: int, upTo: int, n: nat, i: nat)
    requires ByDay(r) && i < |r.bydays| && Listable(item, r, from, upTo, n, i)
    ensures Plausible(OccurrenceAt(item, DayWall(item.start, r, n, i)), item, r, from, upTo)
  {
    hide Recurs, Shown, DayWall, CountTo;
    DayWallRecurs(item.start, r, n, i);
  }

  /** In whatever order the days are named, every entry is a recurrence that is shown, up to UNTIL. */
  lemma ListingIsPlausible(item: Item, r: Rule, from: int, upTo: int)
    requires ByDay(r)
    ensures forall k :: 0 <= k < |Listing(item, r, from, upTo)| ==> Plausible(Listing(item, r, from, upTo)[k], item, r, from, upTo)
  {
    hide Plausible, ListTo;
    ListToIsPlausible(item, r, from, upTo, MAX_ROUNDS - 1, 1);
  }

  // ---- days in week order -------------------------------------------------

  /** Complete up to a bound, with every recurrence before it counted. */
  ghost predicate Sofar(out: seq<Occurrence>, item: Item, r: Rule, from: int, upTo: int, bound: int, emitted: nat) {
    Complete(out, item, r, from, upTo, bound) && emitted == |Before(item.start, r, bound)|
  }

  lemma AfterRound(start: int, r: Rule, n: nat, i: nat)
    requires ByDay(r) && n + 1 <= MAX_ROUNDS
    ensures n + 1 == MAX_ROUNDS ==> DayBound(start, r, n, i) >= Horizon(start, r)
  {
    RoundsAscend(start, r, n);
  }

  lemma DayBoundEnds(start: int, r: Rule, n: nat)
    ensures DayBound(start, r, n, |r.bydays|) == Round(start, r, n + 1)
  {
  }

  /** Where the days at a place and later begin. */
  function PlaceBound(start: int, r: Rule, n: nat, i: nat): int
    requires ByDay(r)
  {
    if i == 0 then Round(start, r, n) else DayBound(start, r, n, i)
  }

  /** Days in week order are listed as they come: all recurrences before the next place have been counted,
      and those that qualify listed. */
  lemma {:induction false} OrderedSofar(item: Item, r: Rule, from: int, upTo: int, n: nat, i: nat)
    requires ByDay(r) && InWeekOrder(r.bydays) && i <= |r.bydays|
    requires Timely(item, r, n, i) && (r.count > 0 ==> CountTo(item, r, n, i) <= r.count)
    ensures Sofar(ListTo(item, r, from, upTo, n, i), item, r, from, upTo, PlaceBound(item.start, r, n, i), CountTo(item, r, n, i))
    decreases n, i
  {
    hide Recurs, Before, Complete, Shown, Round, DayBound, DayWall, InWeekOrder, Listable, Sofar;
    if i > 0 {
      OrderedSofar(item, r, from, upTo, n, i - 1);
      OrderedStep(item, r, from, upTo, n, i - 1, ListTo(item, r, from, upTo, n, i - 1), CountTo(item, r, n, i - 1));
    } else if n > 0 {
      OrderedSofar(item, r, from, upTo, n - 1, |r.bydays|);
      DayBoundEnds(item.start, r, n - 1);
    } else {
      StartSofar(item, r, from, upTo);
    }
  }

  lemma StartSofar(item: Item, r: Rule, from: int, upTo: int)
    requires ByDay(r)
    ensures Sofar([], item, r, from, upTo, Round(item.start, r, 0), 0)
  {
    hide Recurs, Before, Complete, Round;
    NothingYet(item, r, from, upTo);
  }

  /** The bound moved to the next named day. */
  lemma OpenPlace(item: Item, r: Rule, from: int, upTo: int, n: nat, i: nat, list: seq<Occurrence>, count: nat)
    requires ByDay(r) && InWeekOrder(r.bydays) && i < |r.bydays|
    requires Sofar(list, item, r, from, upTo, PlaceBound(item.start, r, n, i), count)
    ensures Sofar(list, item, r, from, upTo, DayBound(item.start, r, n, i), count)
  {
    hide Recurs, Before, Complete, Round, DayBound, InWeekOrder;
    if i == 0 {
      WeekOpens(item.start, r, n);
      SkipTo(list, item, r, from, upTo, Round(item.start, r, n), DayBound(item.start, r, n, 0));
    }
  }

  lemma OrderedStep(item: Item, r: Rule, from: int, upTo: int, n: nat, i: nat, list: seq<Occurrence>, count: nat)
    requires ByDay(r) && InWeekOrder(r.bydays) && i < |r.bydays| && count == CountTo(item, r, n, i)
    requires Sofar(list, item, r, from, upTo, PlaceBound(item.start, r, n, i), count)
    requires Timely(item, r, n, i + 1) && (r.count > 0 ==> CountTo(item, r, n, i + 1) <= r.count)
    ensures var list' := list + (if Listable(item, r, from, upTo, n, i) then [OccurrenceAt(item, DayWall(item.start, r, n, i))] else []);
            Sofar(list', item, r, from, upTo, DayBound(item.start, r, n, i + 1), CountTo(item, r, n, i + 1))
  {
    hide Recurs, Before, Complete, Shown, Round, DayBound, DayWall, InWeekOrder;
    var a, b, t := DayBound(item.start, r, n, i), DayBound(item.start, r, n, i + 1), DayWall(item.start, r, n, i);
    OpenPlace(item, r, from, upTo, n, i, list, count);
    DayRound(item.start, r, n, i);
    if t < item.start {
      SkipTo(list, item, r, from, upTo, a, b);
      assert list + [] == list;
    } else {
      EmitAt(list, item, r, from, upTo, a, b, t);
      assert Listable(item, r, from, upTo, n, i) <==> Shown(item, from, upTo, t);
      assert list + [] == list;
    }
  }

  /** A complete list is what it should be, cut to the cap, once nothing more qualifies. */
  lemma FinishCapped(list: seq<Occurrence>, item: Item, r: Rule, from: int, upTo: int, bound: int)
    requires Complete(list, item, r, from, upTo, bound)
    requires || (r.until.Some? && NoneIn(item.start, r, bound, r.until.value + 1))
             || (r.count > 0 && |Before(item.start, r, bound)| >= r.count)
             || bound >= Horizon(item.start, r)
    ensures Expanded(Capped(list), item, r, from, upTo)
  {
    hide Recurs, Before, Shown, Horizon, NoneIn;
    if |list| <= MAX_OCCURRENCES {
      hide Complete, Expanded;
      Finish(list, item, r, from, upTo, bound);
    } else {
      var out := Capped(list);
      assert forall k :: 0 <= k < |out| ==> out[k] == list[k];
      forall t | Qualifies(item, r, from, upTo, t)
        ensures Has(out, t) || AllBefore(out, t)
      {
        if t < bound {
          var k :| 0 <= k < |list| && list[k].start == t;
          if k < |out| {
            assert out[k].start == t;
          }
        }
      }
    }
  }

  /** Days in week order whose listing ended before a place, by UNTIL or COUNT. */
  lemma {:induction false} OrderedEnded(item: Item, r: Rule, from: int, upTo: int, n: nat, i: nat)
    requires ByDay(r) && InWeekOrder(r.bydays) && i <= |r.bydays|
    requires !(Timely(item, r, n, i) && (r.count > 0 ==> CountTo(item, r, n, i) <= r.count))
    ensures Expanded(Capped(ListTo(item, r, from, upTo, n, i)), item, r, from, upTo)
    decreases n, i
  {
    hide Recurs, Before, Complete, Shown, Expanded, DayBound, DayWall, InWeekOrder, PlaceBound;
    if i == 0 {
      OrderedEnded(item, r, from, upTo, n - 1, |r.bydays|);
    } else {
      var list := ListTo(item, r, from, upTo, n, i - 1);
      assert !Listable(item, r, from, upTo, n, i - 1);
      assert list + [] == list;
      if Timely(item, r, n, i - 1) && (r.count > 0 ==> CountTo(item, r, n, i - 1) <= r.count) {
        OrderedSofar(item, r, from, upTo, n, i - 1);
        OpenPlace(item, r, from, upTo, n, i - 1, list, CountTo(item, r, n, i - 1));
        DayRound(item.start, r, n, i - 1);
        var a, b, t := DayBound(item.start, r, n, i - 1), DayBound(item.start, r, n, i), DayWall(item.start, r, n, i - 1);
        if !InTime(item, r, t) {
          NoneUntil(item.start, r, a, b, t, r.until.value);
        }
        FinishCapped(list, item, r, from, upTo, a);
      } else {
        OrderedEnded(item, r, from, upTo, n, i - 1);
      }
    }
  }

  /** Days in week order are expanded as the rule says, for every item, window, COUNT and UNTIL. */
  lemma OrderedIsExpanded(item: Item, r: Rule, from: int, upTo: int)
    requires ByDay(r) && InWeekOrder(r.bydays)
    ensures Expanded(Listing(item, r, from, upTo), item, r, from, upTo)
  {
    hide Recurs, Before, Complete, Expanded, ListTo, CountTo, Timely, DayBound, InWeekOrder, Capped;
    var n := MAX_ROUNDS - 1;
    if Timely(item, r, n, 1) && (r.count > 0 ==> CountTo(item, r, n, 1) <= r.count) {
      OrderedSofar(item, r, from, upTo, n, 1);
      AfterRound(item.start, r, n, 1);
      FinishCapped(ListTo(item, r, from, upTo, n, 1), item, r, from, upTo, DayBound(item.start, r, n, 1));
    } else {
      OrderedEnded(item, r, from, upTo, n, 1);
    }
  }

  // ---- days in any other order --------------------------------------------

  /** A Sunday. */
  const SUNDAY := 3 * DAY

  function SundayItem(r: Rule): Item {
    Item(true, SUNDAY, false, None, [], Some(r), "")
  }

  /** The rule in the round of its start, when that is a Sunday. */
  lemma FirstWeek(r: Rule, i: nat)
    requires ByDay(r) && i < |r.bydays|
    ensures DayWall(SUNDAY, r, 0, i) == SUNDAY + r.bydays[i] * DAY
  {
    assert DayOf(SUNDAY) == 3 && TimeOf(SUNDAY) == 0 && WeekdayFromDays(3) == 0;
  }

  /** Without COUNT and UNTIL the first week of such an item lists every named day. */
  lemma {:induction false} FirstWeekListed(r: Rule, i: nat)
    requires ByDay(r) && i <= |r.bydays| && r.count <= 0 && r.until.None?
    ensures var list := ListTo(SundayItem(r), r, SUNDAY, SUNDAY + 7 * DAY, 0, i);
            |list| == i && forall k :: 0 <= k < i ==> list[k].start == SUNDAY + r.bydays[k] * DAY
    ensures Timely(SundayItem(r), r, 0, i)
  {
    hide DayWall;
    if i > 0 {
      FirstWeekListed(r, i - 1);
      FirstWeek(r, i - 1);
    }
  }

  /** The first place where the days go back or stay is among the first seven. */
  lemma {:induction false} FirstFall(days: seq<Weekday>, k: nat) returns (j: nat)
    requires k < |days| && !InWeekOrder(days) && InWeekOrder(days[..k + 1]) && days[k] >= k
    ensures j + 1 < |days| && j <= 6 && days[j] >= days[j + 1]
    decreases |days| - k
  {
    assert days[..|days|] == days;
    if k + 1 == |days| {
      assert false;
    } else if days[k] >= days[k + 1] {
      j := k;
    } else {
      var more := days[..k + 2];
      assert forall a :: 0 <= a <= k ==> more[a] == days[..k + 1][a];
      assert more[k + 1] == days[k + 1];
      j := FirstFall(days, k + 1);
    }
  }

  /** Days out of week order list an entry that is not after the one before it. */
  lemma OutOfOrderIsWrong(interval: Positive, days: seq<Weekday>)
    requires days != [] && !InWeekOrder(days)
    ensures var r := Rule(Weekly, interval, 0, None, days);
            !Expanded(Listing(SundayItem(r), r, SUNDAY, SUNDAY + 7 * DAY), SundayItem(r), r, SUNDAY, SUNDAY + 7 * DAY)
  {
    hide ListTo, InWeekOrder, AllQualify;
    var r := Rule(Weekly, interval, 0, None, days);
    var item, upTo := SundayItem(r), SUNDAY + 7 * DAY;
    OneDay(days);
    var j := FirstFall(days, 0);
    FirstWeekListed(r, j + 2);
    ListGrows(item, r, SUNDAY, upTo, 0, j + 2, MAX_ROUNDS - 1, 1);
    var list, out := ListTo(item, r, SUNDAY, upTo, 0, j + 2), Listing(item, r, SUNDAY, upTo);
    assert forall k :: 0 <= k < j + 2 ==> out[k] == list[k];
    assert out[j].start >= out[j + 1].start;
  }

  lemma OneDay(days: seq<Weekday>)
    requires days != []
    ensures InWeekOrder(days[..1])
  {
  }

  /** A rule's listing is what the rule says. */
  ghost predicate Right(item: Item, r: Rule, from: int, upTo: int) {
    ByDay(r) ==> Expanded(Listing(item, r, from, upTo), item, r, from, upTo)
  }

  /** A list of days is expanded as the rule says, for every item, window, COUNT and UNTIL, exactly when the
      days are named in week order without repeating one. */
  lemma RightExactlyInOrder(interval: Positive, days: seq<Weekday>)
    requires days != []
    ensures InWeekOrder(days) <==>
            forall item, from, upTo, count, until :: Right(item, Rule(Weekly, interval, count, until, days), from, upTo)
  {
    hide InWeekOrder, Expanded, Listing;
    if InWeekOrder(days) {
      forall item, from, upTo, count, until
        ensures Right(item, Rule(Weekly, interval, count, until, days), from, upTo)
      {
        OrderedIsExpanded(item, Rule(Weekly, interval, count, until, days), from, upTo);
      }
    } else {
      OutOfOrderIsWrong(interval, days);
      var r := Rule(Weekly, interval, 0, None, days);
      assert !Right(SundayItem(r), r, SUNDAY, SUNDAY + 7 * DAY);
    }
  }

  // ---- what goes wrong, by example ----------------------------------------

  /** Saturday and Sunday: the Saturday is listed before the Sunday of its week. */
  lemma SaturdayBeforeSunday()
    ensures var r := Rule(Weekly, 1, 0, None, [6, 0]);
            var out := Listing(SundayItem(r), r, SUNDAY, SUNDAY + 7 * DAY);
            |out| >= 2 && out[0].start == SUNDAY + 6 * DAY && out[1].start == SUNDAY
  {
    FirstTwo(Rule(Weekly, 1, 0, None, [6, 0]));
  }

  /** Monday twice: each Monday is listed twice. */
  lemma MondayTwice()
    ensures var r := Rule(Weekly, 1, 0, None, [1, 1]);
            var out := Listing(SundayItem(r), r, SUNDAY, SUNDAY + 7 * DAY);
            |out| >= 2 && out[0] == out[1] && out[0].start == SUNDAY + DAY
  {
    FirstTwo(Rule(Weekly, 1, 0, None, [1, 1]));
  }

  lemma FirstTwo(r: Rule)
    requires ByDay(r) && r.count <= 0 && r.until.None? && |r.bydays| == 2
    ensures var out := Listing(SundayItem(r), r, SUNDAY, SUNDAY + 7 * DAY);
            |out| >= 2 && forall k :: 0 <= k < 2 ==> out[k] == OccurrenceAt(SundayItem(r), SUNDAY + r.bydays[k] * DAY)
  {
    hide ListTo;
    var item, upTo := SundayItem(r), SUNDAY + 7 * DAY;
    FirstWeekListed(r, 2);
    ListToIsPlausible(item, r, SUNDAY, upTo, 0, 2);
    ListGrows(item, r, SUNDAY, upTo, 0, 2, MAX_ROUNDS - 1, 1);
    var list, out := ListTo(item, r, SUNDAY, upTo, 0, 2), Listing(item, r, SUNDAY, upTo);
    assert forall k :: 0 <= k < 2 ==> out[k] == list[k];
    assert Plausible(list[0], item, r, SUNDAY, upTo) && Plausible(list[1], item, r, SUNDAY, upTo);
  }

  /** Monday and Sunday until that Sunday: the Monday ends the listing, and the Sunday is lost. */
  lemma UntilLosesSunday()
    ensures var r := Rule(Weekly, 1, 0, Some(SUNDAY), [1, 0]);
            && Listing(SundayItem(r), r, SUNDAY, SUNDAY + 7 * DAY) == []
            && Qualifies(SundayItem(r), r, SUNDAY, SUNDAY + 7 * DAY, SUNDAY)
  {
    hide DayWall, Recurs, Finished;
    var r := Rule(Weekly, 1, 0, Some(SUNDAY), [1, 0]);
    FirstWeek(r, 0);
    FirstWeek(r, 1);
    assert !Timely(SundayItem(r), r, 0, 1) && ListTo(SundayItem(r), r, SUNDAY, SUNDAY + 7 * DAY, 0, 1) == [];
    SpentIsFinished(SundayItem(r), r, SUNDAY, SUNDAY + 7 * DAY, 0, 1);
    ListingIs(SundayItem(r), r, SUNDAY, SUNDAY + 7 * DAY, 0, 1);
    DayWallRecurs(SUNDAY, r, 0, 1);
  }

  /** Monday and Sunday, once: the Monday is returned. */
  lemma MondayBeforeSunday()
    ensures var r := Rule(Weekly, 1, 1, None, [1, 0]);
            var item := SundayItem(r);
            && Listing(item, r, SUNDAY, SUNDAY + 7 * DAY) == [OccurrenceAt(item, SUNDAY + DAY)]
            && Qualifies(item, r, SUNDAY, SUNDAY + 7 * DAY, SUNDAY) && !Chosen(item.start, r, SUNDAY + DAY)
  {
    hide DayWall, Recurs, Finished;
    var r := Rule(Weekly, 1, 1, None, [1, 0]);
    var item := SundayItem(r);
    FirstWeek(r, 0);
    FirstWeek(r, 1);
    assert CountTo(item, r, 0, 1) == 1 && Timely(item, r, 0, 1) && Timely(item, r, 0, 0);
    assert ListTo(item, r, SUNDAY, SUNDAY + 7 * DAY, 0, 0) == [];
    SpentIsFinished(item, r, SUNDAY, SUNDAY + 7 * DAY, 0, 1);
    ListingIs(item, r, SUNDAY, SUNDAY + 7 * DAY, 0, 1);
    DayWallRecurs(SUNDAY, r, 0, 1);
    assert Before(SUNDAY, r, SUNDAY) == {};
    assert SUNDAY in Before(SUNDAY, r, SUNDAY + DAY);
  }

  /** Sunday, Wednesday and Monday, once, from a Monday: the Wednesday is returned. */
  lemma WednesdayBeforeMonday()
    ensures var r := Rule(Weekly, 1, 1, None, [0, 3, 1]);
            var item := SundayItem(r).(start := SUNDAY + DAY);
            && Listing(item, r, SUNDAY, SUNDAY + 7 * DAY) == [OccurrenceAt(item, SUNDAY + 3 * DAY)]
            && Qualifies(item, r, SUNDAY, SUNDAY + 7 * DAY, SUNDAY + DAY) && !Chosen(item.start, r, SUNDAY + 3 * DAY)
  {
    hide DayWall, Recurs, Finished;
    var r := Rule(Weekly, 1, 1, None, [0, 3, 1]);
    var item := SundayItem(r).(start := SUNDAY + DAY);
    FromMonday(r, item.start, 0);
    FromMonday(r, item.start, 1);
    FromMonday(r, item.start, 2);
    assert CountTo(item, r, 0, 0) == 0 && Timely(item, r, 0, 0) && ListTo(item, r, SUNDAY, SUNDAY + 7 * DAY, 0, 0) == [];
    assert CountTo(item, r, 0, 1) == 0 && Timely(item, r, 0, 1);
    assert CountTo(item, r, 0, 2) == 1 && Timely(item, r, 0, 2);
    assert ListTo(item, r, SUNDAY, SUNDAY + 7 * DAY, 0, 1) == [];
    SpentIsFinished(item, r, SUNDAY, SUNDAY + 7 * DAY, 0, 2);
    ListingIs(item, r, SUNDAY, SUNDAY + 7 * DAY, 0, 2);
    DayWallRecurs(item.start, r, 0, 2);
    assert Before(item.start, r, item.start) == {};
    assert item.start in Before(item.start, r, SUNDAY + 3 * DAY);
  }

  lemma FromMonday(r: Rule, start: int, i: nat)
    requires ByDay(r) && i < |r.bydays| && start == SUNDAY + DAY
    ensures DayWall(start, r, 0, i) == SUNDAY + r.bydays[i] * DAY
  {
    assert DayOf(SUNDAY + DAY) == 4 && TimeOf(SUNDAY + DAY) == 0 && WeekdayFromDays(4) == 1;
  }
}
