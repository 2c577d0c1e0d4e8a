/** The civil calendar arithmetic of core/src/ical.cpp, over all integers: day numbers, dates and clock
    readings. */
module Calendar {

  // ---- C++ division -------------------------------------------------------

  /** Integer division that truncates toward zero. */
  function Quot(a: int, b: int): int
    requires b > 0
  {
    if a >= 0 then a / b else -((-a) / b)
  }

  function Rem(a: int, b: int): int
    requires b > 0
  {
    a - Quot(a, b) * b
  }

  // ---- dates --------------------------------------------------------------

  datatype Date = Date(y: int, m: int, d: int)

  predicate IsLeap(y: int) {
    (Rem(y, 4) == 0 && Rem(y, 100) != 0) || Rem(y, 400) == 0
  }

  function DaysInMonth(y: int, m: int): (n: int)
    requires 1 <= m <= 12
    ensures 28 <= n <= 31
  {
    if m == 2 && IsLeap(y) then 29 else [31, 28, 31, 30, 31, 30, 31, 31, 30, 31, 30, 31][m - 1]
  }

  predicate ValidDate(t: Date) {
    1 <= t.m <= 12 && 1 <= t.d <= DaysInMonth(t.y, t.m)
  }

  /** Days before a March-based month, counted from 1 March. */
  function MonthDays(mp: int): int {
    Quot(153 * mp + 2, 5)
  }

  /** Days before a year of an era, counted from the era's first March. */
  function YearDays(yoe: int): int {
    yoe * 365 + Quot(yoe, 4) - Quot(yoe, 100)
  }

  function DaysFromCivil(t: Date): int {
    var y := if t.m <= 2 then t.y - 1 else t.y;
    var era := Quot(if y >= 0 then y else y - 399, 400);
    var yoe := y - era * 400;
    var doy := MonthDays(t.m + (if t.m > 2 then -3 else 9)) + t.d - 1;
    var doe := YearDays(yoe) + doy;
    era * 146097 + doe - 719468
  }

  /** The era a day number falls in. */
  function EraOf(z: int): int {
    Quot(if z >= 0 then z else z - 146096, 146097)
  }

  /** The year of an era that a day of the era falls in. */
  function YearOfEra(doe: int): int {
    Quot(doe - Quot(doe, 1460) + Quot(doe, 36524) - Quot(doe, 146096), 365)
  }

  /** The March-based month that a day of a year falls in. */
  function MonthOfYear(doy: int): int {
    Quot(5 * doy + 2, 153)
  }

  function CivilFromDays(days: int): Date {
    var z := days + 719468;
    var era := EraOf(z);
    var doe := z - era * 146097;
    var yoe := YearOfEra(doe);
    var yy := yoe + era * 400;
    var doy := doe - YearDays(yoe);
    var mp := MonthOfYear(doy);
    var d := doy - MonthDays(mp) + 1;
    var m := mp + (if mp < 10 then 3 else -9);
    Date(if m <= 2 then yy + 1 else yy, m, d)
  }

  function WeekdayFromDays(days: int): int {
    var wd := Rem(days + 4, 7);
    if wd < 0 then wd + 7 else wd
  }

  // ---- the two in closed form ---------------------------------------------

  /** The year that a month belongs to when years begin in March, and its place in that year. */
  function MarchYear(y: int, m: int): int {
    if m <= 2 then y - 1 else y
  }

  function MarchMonth(m: int): int {
    if m <= 2 then m + 9 else m - 3
  }

  /** Days from the epoch to 1 March of a year. */
  function YearOffset(y: int): int {
    365 * y + y / 4 - y / 100 + y / 400 - 719468
  }

  lemma FloorOf(a: int, b: int)
    requires b > 0
    ensures Quot(if a >= 0 then a else a - (b - 1), b) == a / b
    ensures a >= 0 ==> Quot(a, b) == a / b
    ensures Rem(a, b) == 0 <==> a % b == 0
  {
    if a < 0 {
      var q, r := a / b, a % b;
      assert a == q * b + r;
      assert (b - 1) - a == (-q) * b + (b - 1 - r);
      DivUnique((b - 1) - a, b, -q, b - 1 - r);
      if r == 0 {
        DivUnique(-a, b, -q, 0);
      } else {
        assert -a == (-q - 1) * b + (b - r);
        DivUnique(-a, b, -q - 1, b - r);
      }
    }
  }

  lemma TimesMonotone(x: int, y: int, b: int)
    requires b >= 0
    ensures x <= y ==> x * b <= y * b
    ensures (x + 1) * b == x * b + b
  {
    if x <= y {
      assert 0 <= (y - x) * b;
      assert (y - x) * b == y * b - x * b;
    }
  }

  lemma DivUnique(a: int, b: int, q: int, r: int)
    requires b > 0 && 0 <= r < b && a == q * b + r
    ensures a / b == q && a % b == r
  {
    var q', r' := a / b, a % b;
    assert a == q' * b + r';
    TimesMonotone(q + 1, q', b);
    TimesMonotone(q' + 1, q, b);
    TimesMonotone(q, q, b);
    TimesMonotone(q', q', b);
  }

  lemma LeapFloor(y: int)
    ensures IsLeap(y) <==> (y % 4 == 0 && y % 100 != 0) || y % 400 == 0
  {
    FloorOf(y, 4);
    FloorOf(y, 100);
    FloorOf(y, 400);
  }

  lemma YearDaysForm(yoe: int)
    requires yoe >= 0
    ensures YearDays(yoe) == 365 * yoe + yoe / 4 - yoe / 100
  {
  }

  lemma DaysForm(t: Date)
    requires 1 <= t.m <= 12
    ensures DaysFromCivil(t) == YearOffset(MarchYear(t.y, t.m)) + MonthDays(MarchMonth(t.m)) + t.d - 1
  {
    hide Quot, YearDays, MonthDays;
    var y := MarchYear(t.y, t.m);
    FloorOf(y, 400);
    var era := y / 400;
    var yoe := y - era * 400;
    assert 0 <= yoe < 400;
    YearDaysForm(yoe);
    assert y / 4 == era * 100 + yoe / 4;
    assert y / 100 == era * 4 + yoe / 100;
  }

  /** The length of the March-based year `y`. */
  lemma YearLength(y: int)
    ensures YearOffset(y + 1) - YearOffset(y) == if IsLeap(y + 1) then 366 else 365
  {
    hide IsLeap;
    LeapFloor(y + 1);
    DivStep(y, 4);
    DivStep(y, 100);
    DivStep(y, 400);
  }

  lemma DivStep(y: int, n: int)
    requires n > 1
    ensures (y + 1) / n - y / n == if (y + 1) % n == 0 then 1 else 0
  {
    var q, r := y / n, y % n;
    assert y == q * n + r;
    if r == n - 1 {
      assert y + 1 == (q + 1) * n + 0;
      DivUnique(y + 1, n, q + 1, 0);
    } else {
      DivUnique(y + 1, n, q, r + 1);
    }
  }

  // ---- months -------------------------------------------------------------

  /** Months counted from January of year 0. */
  function MonthIndex(y: int, m: int): int {
    12 * y + m - 1
  }

  function YearOf(k: int): int {
    k / 12
  }

  function MonthOf(k: int): (m: int)
    ensures 1 <= m <= 12
  {
    k % 12 + 1
  }

  /** The day number of the first of a month. */
  function FirstOf(k: int): int {
    DaysFromCivil(Date(YearOf(k), MonthOf(k), 1))
  }

  function LengthOf(k: int): (n: int)
    ensures 28 <= n <= 31
  {
    DaysInMonth(YearOf(k), MonthOf(k))
  }

  lemma MonthIndexInverse(y: int, m: int)
    requires 1 <= m <= 12
    ensures YearOf(MonthIndex(y, m)) == y && MonthOf(MonthIndex(y, m)) == m
  {
  }

  lemma DaysInMonthOf(t: Date)
    requires 1 <= t.m <= 12
    ensures DaysFromCivil(t) == FirstOf(MonthIndex(t.y, t.m)) + t.d - 1
    ensures LengthOf(MonthIndex(t.y, t.m)) == DaysInMonth(t.y, t.m)
  {
    hide DaysFromCivil, YearOffset;
    MonthIndexInverse(t.y, t.m);
    DaysForm(t);
    DaysForm(Date(t.y, t.m, 1));
  }

  /** Months follow one another without gaps. */
  lemma MonthsAdjoin(k: int)
    ensures FirstOf(k + 1) == FirstOf(k) + LengthOf(k)
  {
    hide DaysFromCivil, DaysInMonth, IsLeap, YearOffset, MonthDays;
    var y, m := YearOf(k), MonthOf(k);
    NextMonth(k);
    DaysForm(Date(y, m, 1));
    DaysForm(Date(YearOf(k + 1), MonthOf(k + 1), 1));
    MonthLengths(y, m);
    if m == 2 {
      YearLength(y - 1);
    }
  }

  lemma NextMonth(k: int)
    ensures if MonthOf(k) == 12 then YearOf(k + 1) == YearOf(k) + 1 && MonthOf(k + 1) == 1
            else YearOf(k + 1) == YearOf(k) && MonthOf(k + 1) == MonthOf(k) + 1
  {
  }

  /** The length of each month against the offsets within the March-based year; February ends the year. */
  lemma MonthLengths(y: int, m: int)
    requires 1 <= m <= 12
    ensures m != 2 ==> DaysInMonth(y, m) == MonthDays(MarchMonth(m) + 1) - MonthDays(MarchMonth(m))
    ensures m == 2 ==> DaysInMonth(y, m) == (if IsLeap(y) then 366 else 365) - MonthDays(MarchMonth(m)) && MonthDays(0) == 0
  {
    hide IsLeap;
  }

  lemma {:induction false} MonthsAscend(j: int, k: int)
    requires j < k
    ensures FirstOf(j) + LengthOf(j) <= FirstOf(k)
    decreases k - j
  {
    hide FirstOf, LengthOf;
    MonthsAdjoin(k - 1);
    if j < k - 1 {
      MonthsAscend(j, k - 1);
    }
  }

  // ---- dates and day numbers ----------------------------------------------

  predicate Earlier(s: Date, t: Date) {
    s.y < t.y || (s.y == t.y && (s.m < t.m || (s.m == t.m && s.d < t.d)))
  }

  /** Day numbers are strictly increasing in the date. */
  lemma DaysAscend(s: Date, t: Date)
    requires ValidDate(s) && ValidDate(t)
    ensures Earlier(s, t) <==> DaysFromCivil(s) < DaysFromCivil(t)
    ensures s == t <==> DaysFromCivil(s) == DaysFromCivil(t)
  {
    hide DaysFromCivil, FirstOf, LengthOf, DaysInMonth;
    DaysInMonthOf(s);
    DaysInMonthOf(t);
    var j, k := MonthIndex(s.y, s.m), MonthIndex(t.y, t.m);
    if j < k {
      MonthsAscend(j, k);
    } else if k < j {
      MonthsAscend(k, j);
    }
  }

  function NextDate(t: Date): Date
    requires 1 <= t.m <= 12
  {
    if t.d < DaysInMonth(t.y, t.m) then Date(t.y, t.m, t.d + 1)
    else if t.m < 12 then Date(t.y, t.m + 1, 1)
    else Date(t.y + 1, 1, 1)
  }

  /** Each calendar day is one more than the day before. */
  lemma DaysStep(t: Date)
    requires ValidDate(t)
    ensures ValidDate(NextDate(t)) && DaysFromCivil(NextDate(t)) == DaysFromCivil(t) + 1
  {
    hide DaysFromCivil, FirstOf, LengthOf;
    DaysInMonthOf(t);
    DaysInMonthOf(NextDate(t));
    MonthsAdjoin(MonthIndex(t.y, t.m));
  }

  lemma Epoch()
    ensures DaysFromCivil(Date(1970, 1, 1)) == 0 && WeekdayFromDays(0) == 4
  {
  }

  // ---- reading a day number -----------------------------------------------

  lemma YearOfEraForm(doe: int)
    requires 0 <= doe
    ensures YearOfEra(doe) == (doe - doe / 1460 + doe / 36524 - doe / 146096) / 365
  {
  }

  /** The estimate of `YearOfEra`, for a day of year `100c + 4q + r` of the era. */
  lemma YearOfEraIs(c: int, q: int, r: int, doy: int)
    requires 0 <= c < 4 && 0 <= q < 25 && 0 <= r < 4 && 0 <= doy <= 365
    requires doy == 365 ==> r == 3 && (q == 24 ==> c == 3)
    ensures YearOfEra(36524 * c + 1461 * q + 365 * r + doy) == 100 * c + 4 * q + r
  {
    hide YearOfEra;
    var doe := 36524 * c + 1461 * q + 365 * r + doy;
    YearOfEraForm(doe);
    var e1 := if 24 * c + q + 365 * r + doy >= 1460 then 1 else 0;
    DivUnique(doe, 1460, 25 * c + q + e1, 24 * c + q + 365 * r + doy - 1460 * e1);
    var last := c == 3 && q == 24 && r == 3 && doy == 365;
    var e2 := if last then 1 else 0;
    DivUnique(doe, 36524, c + e2, 1461 * q + 365 * r + doy - 36524 * e2);
    DivUnique(doe, 146096, e2, doe - 146096 * e2);
    assert doe - doe / 1460 + doe / 36524 - doe / 146096 == 365 * (100 * c + 4 * q + r) + (doy - e1);
    DivUnique(365 * (100 * c + 4 * q + r) + (doy - e1), 365, 100 * c + 4 * q + r, doy - e1);
  }

  /** The month estimate, for day `d` of a March-based month. */
  lemma MonthOfYearIs(mp: int, d: int)
    requires 0 <= mp < 12 && 1 <= d <= 31 && MonthDays(mp) + d - 1 < 366
    requires mp < 11 ==> MonthDays(mp) + d - 1 < MonthDays(mp + 1)
    ensures MonthOfYear(MonthDays(mp) + d - 1) == mp
  {
  }

  lemma EraIs(era: int, doe: int)
    requires 0 <= doe < 146097
    ensures EraOf(era * 146097 + doe) == era
  {
    DivUnique(era * 146097 + doe, 146097, era, doe);
    FloorOf(era * 146097 + doe, 146097);
  }

  lemma EraDays(c: int, q: int, r: int)
    requires 0 <= c < 4 && 0 <= q < 25 && 0 <= r < 4
    ensures YearDays(100 * c + 4 * q + r) == 36524 * c + 1461 * q + 365 * r
  {
  }

  /** The March-based year ends with February of the next year. */
  lemma LastDay(t: Date)
    requires ValidDate(t)
    ensures var doy := MonthDays(MarchMonth(t.m)) + t.d - 1;
            && 0 <= doy <= 365
            && (doy == 365 ==> IsLeap(MarchYear(t.y, t.m) + 1))
            && (MarchMonth(t.m) < 11 ==> doy < MonthDays(MarchMonth(t.m) + 1))
  {
    hide IsLeap;
  }

  /** Reading back the day number of a date gives the date. */
  lemma CivilOfDays(t: Date)
    requires ValidDate(t)
    ensures CivilFromDays(DaysFromCivil(t)) == t
  {
    hide DaysFromCivil, DaysInMonth, IsLeap, EraOf, YearOfEra, MonthOfYear, YearDays, MonthDays, YearOffset;
    var y, mp := MarchYear(t.y, t.m), MarchMonth(t.m);
    var doy := MonthDays(mp) + t.d - 1;
    LastDay(t);
    var era, c, q, r := SplitYear(y);
    LeapYearOfEra(y, era, c, q, r);
    DaysInEra(t, era, c, q, r);
    EraIs(era, 36524 * c + 1461 * q + 365 * r + doy);
    YearOfEraIs(c, q, r, doy);
    EraDays(c, q, r);
    MonthOfYearIs(mp, t.d);
  }

  lemma SplitYear(y: int) returns (era: int, c: int, q: int, r: int)
    ensures 0 <= c < 4 && 0 <= q < 25 && 0 <= r < 4 && y == 400 * era + 100 * c + 4 * q + r
  {
    era := y / 400;
    var s := y - 400 * era;
    assert 0 <= s < 400;
    c := s / 100;
    var u := s - 100 * c;
    assert 0 <= c < 4 && 0 <= u < 100;
    q := u / 4;
    r := u - 4 * q;
  }

  lemma DaysInEra(t: Date, era: int, c: int, q: int, r: int)
    requires 1 <= t.m <= 12
    requires 0 <= c < 4 && 0 <= q < 25 && 0 <= r < 4 && MarchYear(t.y, t.m) == 400 * era + 100 * c + 4 * q + r
    ensures DaysFromCivil(t) + 719468 ==
            era * 146097 + (36524 * c + 1461 * q + 365 * r + (MonthDays(MarchMonth(t.m)) + t.d - 1))
  {
    hide Quot, YearDays, MonthDays;
    var y := MarchYear(t.y, t.m);
    FloorOf(y, 400);
    DivUnique(y, 400, era, 100 * c + 4 * q + r);
    EraDays(c, q, r);
  }

  lemma LeapYearOfEra(y: int, era: int, c: int, q: int, r: int)
    requires 0 <= c < 4 && 0 <= q < 25 && 0 <= r < 4 && y == 400 * era + 100 * c + 4 * q + r
    ensures IsLeap(y + 1) <==> r == 3 && (q == 24 ==> c == 3)
  {
    hide IsLeap;
    LeapFloor(y + 1);
    if r < 3 {
      DivUnique(y + 1, 4, 100 * era + 25 * c + q, r + 1);
    } else {
      DivUnique(y + 1, 4, 100 * era + 25 * c + q + 1, 0);
      if q < 24 {
        DivUnique(y + 1, 100, 4 * era + c, 4 * (q + 1));
      } else if c < 3 {
        DivUnique(y + 1, 100, 4 * era + c + 1, 0);
        DivUnique(y + 1, 400, era, 100 * (c + 1));
      } else {
        DivUnique(y + 1, 400, era + 1, 0);
      }
    }
  }

  /** Every day number is the number of exactly one valid date: the one read from it. */
  lemma DaysOfCivil(z: int)
    ensures ValidDate(CivilFromDays(z)) && DaysFromCivil(CivilFromDays(z)) == z
  {
    hide DaysFromCivil, CivilFromDays, ValidDate;
    var t := SomeDate(z);
    CivilOfDays(t);
  }

  /** A date with a given number, found by counting from the epoch. */
  lemma {:induction false} SomeDate(z: int) returns (t: Date)
    ensures ValidDate(t) && DaysFromCivil(t) == z
    decreases if z < 0 then -z else z
  {
    hide DaysFromCivil, ValidDate;
    if z == 0 {
      t := Date(1970, 1, 1);
      Epoch();
      assert ValidDate(t) by {
        EpochIsValid();
      }
    } else if z > 0 {
      var s := SomeDate(z - 1);
      ValidMonth(s);
      DaysStep(s);
      t := NextDate(s);
    } else {
      var s := SomeDate(z + 1);
      ValidMonth(s);
      PreviousStep(s);
      t := PreviousDate(s);
    }
  }

  lemma EpochIsValid()
    ensures ValidDate(Date(1970, 1, 1))
  {
  }

  lemma ValidMonth(t: Date)
    requires ValidDate(t)
    ensures 1 <= t.m <= 12
  {
  }

  function PreviousDate(t: Date): Date
    requires 1 <= t.m <= 12
  {
    if t.d > 1 then Date(t.y, t.m, t.d - 1)
    else if t.m > 1 then Date(t.y, t.m - 1, DaysInMonth(t.y, t.m - 1))
    else Date(t.y - 1, 12, 31)
  }

  lemma PreviousStep(t: Date)
    requires ValidDate(t)
    ensures ValidDate(PreviousDate(t)) && DaysFromCivil(PreviousDate(t)) == DaysFromCivil(t) - 1
  {
    hide DaysFromCivil, IsLeap;
    DaysStep(PreviousDate(t));
  }

  // ---- clock times --------------------------------------------------------

  datatype Wall = Wall(date: Date, h: int, mi: int, s: int)

  predicate ValidWall(w: Wall) {
    ValidDate(w.date) && 0 <= w.h < 24 && 0 <= w.mi < 60 && 0 <= w.s < 60
  }

  function MakeWall(w: Wall): int {
    DaysFromCivil(w.date) * 86400 + w.h * 3600 + w.mi * 60 + w.s
  }

  function BreakWall(wall: int): Wall {
    var rem := Rem(wall, 86400);
    var days := if rem < 0 then Quot(wall, 86400) - 1 else Quot(wall, 86400);
    var r := if rem < 0 then rem + 86400 else rem;
    Wall(CivilFromDays(days), Quot(r, 3600), Quot(Rem(r, 3600), 60), Rem(r, 60))
  }

  /** The day of an instant and the seconds into it. */
  lemma BreakForm(wall: int)
    ensures var r := wall % 86400;
            BreakWall(wall) == Wall(CivilFromDays(wall / 86400), r / 3600, r % 3600 / 60, r % 60)
  {
    hide CivilFromDays;
    var r := wall % 86400;
    SplitDay(wall);
    assert Quot(r, 3600) == r / 3600 && Rem(r, 3600) == r % 3600;
    assert Quot(r % 3600, 60) == r % 3600 / 60 && Rem(r, 60) == r % 60;
  }

  lemma SplitDay(wall: int)
    ensures var rem := Rem(wall, 86400);
            && (if rem < 0 then Quot(wall, 86400) - 1 else Quot(wall, 86400)) == wall / 86400
            && (if rem < 0 then rem + 86400 else rem) == wall % 86400
  {
  }

  /** Clock readings and instants determine each other, negative instants included. */
  lemma WallInverse(wall: int)
    ensures ValidWall(BreakWall(wall)) && MakeWall(BreakWall(wall)) == wall
  {
    hide DaysFromCivil, CivilFromDays, BreakWall, ValidDate;
    BreakForm(wall);
    DaysOfCivil(wall / 86400);
    var r := wall % 86400;
    assert r == r / 3600 * 3600 + r % 3600 / 60 * 60 + r % 60;
    assert 0 <= r / 3600 < 24 && 0 <= r % 3600 / 60 < 60;
  }

  lemma WallOf(w: Wall)
    requires ValidWall(w)
    ensures BreakWall(MakeWall(w)) == w
  {
    hide DaysFromCivil, CivilFromDays, BreakWall, ValidDate;
    var wall := MakeWall(w);
    var days := DaysFromCivil(w.date);
    DivUnique(wall, 86400, days, w.h * 3600 + w.mi * 60 + w.s);
    BreakForm(wall);
    CivilOfDays(w.date);
    var r := w.h * 3600 + w.mi * 60 + w.s;
    DivUnique(r, 3600, w.h, w.mi * 60 + w.s);
    DivUnique(w.mi * 60 + w.s, 60, w.mi, w.s);
    DivUnique(r, 60, w.h * 60 + w.mi, w.s);
  }

  // ---- weekdays -----------------------------------------------------------

  /** Weekdays run from Sunday to Saturday and start again. */
  lemma WeekdayForm(days: int)
    ensures WeekdayFromDays(days) == (days + 4) % 7
    ensures 0 <= WeekdayFromDays(days) < 7
    ensures WeekdayFromDays(days + 1) == (WeekdayFromDays(days) + 1) % 7
  {
    WeekdayFloor(days);
    WeekdayFloor(days + 1);
  }

  lemma WeekdayFloor(days: int)
    ensures WeekdayFromDays(days) == (days + 4) % 7
  {
  }
}
