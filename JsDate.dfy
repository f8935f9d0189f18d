/**
 * The slice of ECMAScript `Date` semantics that the dashboard's calendar code relies on.
 *
 * A time value is an integer count of milliseconds since 1970-01-01 00:00 on the
 * market's local wall clock (the New York conversion is an input, not modelled).
 * Calendar arithmetic follows the ECMAScript definitions: Day, TimeWithinDay,
 * WeekDay, MakeDay (with month overflow carried into the year) and MakeDate.
 */
module JsDate {

  const MsPerSecond: int := 1000
  const MsPerMinute: int := 60_000
  const MsPerHour: int := 3_600_000
  const MsPerDay: int := 86_400_000

  /** Day number of a time value; Dafny's `/` with a positive divisor is floor division. */
  function Day(t: int): int { t / MsPerDay }

  function TimeWithinDay(t: int): (w: int)
    ensures 0 <= w < MsPerDay
  { t % MsPerDay }

  /** Day of the week of a day number: 0 is Sunday, and day 0 (1970-01-01) was a Thursday. */
  function DayOfWeek(day: int): (wd: int)
    ensures 0 <= wd < 7
  { (day + 4) % 7 }

  /** `getDay()` */
  function WeekDay(t: int): int { DayOfWeek(Day(t)) }

  /** `getHours()`, `getMinutes()`, `getSeconds()`, `getMilliseconds()` */
  function HourFromTime(t: int): int { TimeWithinDay(t) / MsPerHour }
  function MinFromTime(t: int): int { (TimeWithinDay(t) / MsPerMinute) % 60 }
  function SecFromTime(t: int): int { (TimeWithinDay(t) / MsPerSecond) % 60 }
  function MsFromTime(t: int): int { TimeWithinDay(t) % MsPerSecond }

  predicate IsLeapYear(y: int) { y % 4 == 0 && (y % 100 != 0 || y % 400 == 0) }

  function DaysInYear(y: int): int { if IsLeapYear(y) then 366 else 365 }

  /** Length of month `m` (0 = January, as `getMonth()` counts) of year `y`. */
  function DaysInMonth(y: int, m: int): (n: int)
    requires 0 <= m < 12
    ensures 28 <= n <= 31
  {
    if m == 1 then (if IsLeapYear(y) then 29 else 28)
    else if m == 3 || m == 5 || m == 8 || m == 10 then 30
    else 31
  }

  /** Days of year `y` that precede the first of month `m`. */
  function DaysBeforeMonth(y: int, m: int): int
    requires 0 <= m < 12
  {
    if m == 0 then 0 else DaysBeforeMonth(y, m - 1) + DaysInMonth(y, m - 1)
  }

  /** The twelve months fill the year. */
  lemma MonthsFillYear(y: int)
    ensures DaysBeforeMonth(y, 11) + DaysInMonth(y, 11) == DaysInYear(y)
  {
    var leap := if IsLeapYear(y) then 1 else 0;
    assert DaysBeforeMonth(y, 1) == 31;
    assert DaysBeforeMonth(y, 2) == 59 + leap;
    assert DaysBeforeMonth(y, 3) == 90 + leap;
    assert DaysBeforeMonth(y, 4) == 120 + leap;
    assert DaysBeforeMonth(y, 5) == 151 + leap;
    assert DaysBeforeMonth(y, 6) == 181 + leap;
    assert DaysBeforeMonth(y, 7) == 212 + leap;
    assert DaysBeforeMonth(y, 8) == 243 + leap;
    assert DaysBeforeMonth(y, 9) == 273 + leap;
    assert DaysBeforeMonth(y, 10) == 304 + leap;
    assert DaysBeforeMonth(y, 11) == 334 + leap;
  }

  /** Day number of January 1 of year `y`. */
  function DayFromYear(y: int): int
    decreases if y < 1970 then 1970 - y else y - 1970
  {
    if y == 1970 then 0
    else if y > 1970 then DayFromYear(y - 1) + DaysInYear(y - 1)
    else DayFromYear(y + 1) - DaysInYear(y)
  }

  /**
   * ECMAScript MakeDay: the day number of date `d` of month `m` of year `y`, where
   * `m` may lie outside 0..11 (it is carried into the year) and `d` may lie outside
   * the month (it simply counts days from the first of the month).
   */
  function MakeDay(y: int, m: int, d: int): int {
    var ym := y + m / 12;
    var mn := m % 12;
    DayFromYear(ym) + DaysBeforeMonth(ym, mn) + d - 1
  }

  function MakeTime(h: int, min: int, s: int, ms: int): int {
    h * MsPerHour + min * MsPerMinute + s * MsPerSecond + ms
  }

  function MakeDate(day: int, time: int): int { day * MsPerDay + time }

  /** A calendar date as `getFullYear()`, `getMonth()` and `getDate()` report it. */
  datatype Civil = Civil(year: int, month: int, date: int)

  predicate ValidCivil(c: Civil) {
    0 <= c.month < 12 && 1 <= c.date <= DaysInMonth(c.year, c.month)
  }

  lemma YearStep(y: int)
    ensures DayFromYear(y + 1) == DayFromYear(y) + DaysInYear(y)
  {
  }

  /** The first of the next month is one month-length after the first of this one. */
  lemma MonthStep(y: int, m: int)
    ensures MakeDay(y, m + 1, 1) == MakeDay(y, m, 1) + DaysInMonth(y + m / 12, m % 12)
  {
    var ym := y + m / 12;
    if m % 12 == 11 {
      assert (m + 1) / 12 == m / 12 + 1 && (m + 1) % 12 == 0;
      YearStep(ym);
      MonthsFillYear(ym);
    } else {
      assert (m + 1) / 12 == m / 12 && (m + 1) % 12 == m % 12 + 1;
    }
  }

  /** Month `m` of year `y` seen from the previous month: its dates are offset by that month's length. */
  lemma PrevMonth(y: int, m: int, d: int)
    requires 0 <= m < 12
    ensures var py := if m == 0 then y - 1 else y;
            var pm := if m == 0 then 11 else m - 1;
            MakeDay(py, pm, d + DaysInMonth(py, pm)) == MakeDay(y, m, d)
  {
    var py := if m == 0 then y - 1 else y;
    var pm := if m == 0 then 11 else m - 1;
    MonthStep(py, pm);
    assert py + pm / 12 == py && pm % 12 == pm;
    assert MakeDay(py, pm + 1, 1) == MakeDay(y, m, 1);
  }

  /** The next month starts one month-length after month `m` of year `y`. */
  lemma NextMonth(y: int, m: int, d: int)
    requires 0 <= m < 12
    ensures var ny := if m == 11 then y + 1 else y;
            var nm := if m == 11 then 0 else m + 1;
            MakeDay(ny, nm, d - DaysInMonth(y, m)) == MakeDay(y, m, d)
  {
    var ny := if m == 11 then y + 1 else y;
    var nm := if m == 11 then 0 else m + 1;
    MonthStep(y, m);
    assert m / 12 == 0 && m % 12 == m;
    assert MakeDay(y, m + 1, 1) == MakeDay(ny, nm, 1);
  }

  /**
   * Carries an out-of-range date into neighbouring months, one month at a time,
   * keeping the day number it denotes.
   */
  function Normalize(y: int, m: int, d: int): (c: Civil)
    requires 0 <= m < 12
    ensures ValidCivil(c)
    ensures MakeDay(c.year, c.month, c.date) == MakeDay(y, m, d)
    decreases if d < 1 then 1 else 0, if d < 1 then -d else d
  {
    if d < 1 then
      var py := if m == 0 then y - 1 else y;
      var pm := if m == 0 then 11 else m - 1;
      PrevMonth(y, m, d);
      Normalize(py, pm, d + DaysInMonth(py, pm))
    else if d > DaysInMonth(y, m) then
      var ny := if m == 11 then y + 1 else y;
      var nm := if m == 11 then 0 else m + 1;
      NextMonth(y, m, d);
      Normalize(ny, nm, d - DaysInMonth(y, m))
    else
      Civil(y, m, d)
  }

  /** The calendar date of a day number. */
  function CivilFromDay(day: int): (c: Civil)
    ensures ValidCivil(c)
    ensures MakeDay(c.year, c.month, c.date) == day
  {
    assert MakeDay(1970, 0, day + 1) == day;
    Normalize(1970, 0, day + 1)
  }

  /** `getFullYear()`, `getMonth()`, `getDate()` */
  function YearFromTime(t: int): int { CivilFromDay(Day(t)).year }
  function MonthFromTime(t: int): int { CivilFromDay(Day(t)).month }
  function DateFromTime(t: int): int { CivilFromDay(Day(t)).date }

  /** The time value `setDate(date)` produces: same year, month and time of day. */
  function WithDate(t: int, date: int): int {
    MakeDate(MakeDay(YearFromTime(t), MonthFromTime(t), date), TimeWithinDay(t))
  }

  /** The time value `setMonth(month)` produces: same year, day-of-month and time of day. */
  function WithMonth(t: int, month: int): int {
    MakeDate(MakeDay(YearFromTime(t), month, DateFromTime(t)), TimeWithinDay(t))
  }

  /** The time value `setFullYear(year)` produces: same month, day-of-month and time of day. */
  function WithFullYear(t: int, year: int): int {
    MakeDate(MakeDay(year, MonthFromTime(t), DateFromTime(t)), TimeWithinDay(t))
  }

  /** A mutable JavaScript `Date` over a local time value. */
  class Date {
    var time: int

    constructor (t: int)
      ensures time == t
    {
      time := t;
    }

    function GetTime(): int reads this { time }
    function GetDay(): int reads this { WeekDay(time) }
    function GetHours(): int reads this { HourFromTime(time) }
    function GetMinutes(): int reads this { MinFromTime(time) }
    function GetDate(): int reads this { DateFromTime(time) }
    function GetMonth(): int reads this { MonthFromTime(time) }
    function GetFullYear(): int reads this { YearFromTime(time) }

    /** `setDate(date)` */
    method SetDate(date: int)
      modifies this
      ensures time == WithDate(old(time), date)
    {
      time := WithDate(time, date);
    }

    /** `setMonth(month)` */
    method SetMonth(month: int)
      modifies this
      ensures time == WithMonth(old(time), month)
    {
      time := WithMonth(time, month);
    }

    /** `setFullYear(year)` */
    method SetFullYear(year: int)
      modifies this
      ensures time == WithFullYear(old(time), year)
    {
      time := WithFullYear(time, year);
    }

    /** `setHours(h, min, s, ms)`: same day. */
    method SetHours(h: int, min: int, s: int, ms: int)
      modifies this
      ensures time == MakeDate(Day(old(time)), MakeTime(h, min, s, ms))
    {
      time := MakeDate(Day(time), MakeTime(h, min, s, ms));
    }
  }

  // ---------------------------------------------------------------------------
  // Facts about the arithmetic that the calendar code relies on

  /** A time value splits into its day and its time within the day, and back. */
  lemma DaySplit(t: int)
    ensures MakeDate(Day(t), TimeWithinDay(t)) == t
  {
  }

  lemma DayOfMakeDate(day: int, time: int)
    requires 0 <= time < MsPerDay
    ensures Day(MakeDate(day, time)) == day
    ensures TimeWithinDay(MakeDate(day, time)) == time
  {
  }

  /** `setDate(getDate() - k)` moves a time value exactly `k` whole days back. */
  lemma {:induction false} SetDateBack(t: int, k: int)
    ensures WithDate(t, DateFromTime(t) - k) == t - k * MsPerDay
  {
    var c := CivilFromDay(Day(t));
    assert MakeDay(c.year, c.month, c.date - k) == MakeDay(c.year, c.month, c.date) - k;
    DaySplit(t);
  }

  /** A whole day back keeps the time within the day. */
  lemma OneDayBack(t: int)
    ensures Day(t - MsPerDay) == Day(t) - 1
    ensures TimeWithinDay(t - MsPerDay) == TimeWithinDay(t)
  {
  }

  /** Stepping one day back steps the weekday back cyclically. */
  lemma DayOfWeekPrev(day: int)
    ensures DayOfWeek(day - 1) == if DayOfWeek(day) == 0 then 6 else DayOfWeek(day) - 1
  {
  }

  /** Earlier months start earlier. */
  lemma {:induction false} MonthsBackEarlier(y: int, m: int, k: nat)
    ensures MakeDay(y, m - k, 1) <= MakeDay(y, m, 1) - 28 * k
    decreases k
  {
    if k > 0 {
      MonthsBackEarlier(y, m, k - 1);
      MonthStep(y, m - k);
      assert m - k + 1 == m - (k - 1);
    }
  }

  /** Earlier months start at most 31 days per month earlier. */
  lemma {:induction false} MonthsBackLater(y: int, m: int, k: nat)
    ensures MakeDay(y, m - k, 1) >= MakeDay(y, m, 1) - 31 * k
    decreases k
  {
    if k > 0 {
      MonthsBackLater(y, m, k - 1);
      MonthStep(y, m - k);
      assert m - k + 1 == m - (k - 1);
    }
  }

  /** `k` whole days back is `k` day numbers back, at the same time of day. */
  lemma DaysBack(t: int, k: int)
    ensures Day(t - k * MsPerDay) == Day(t) - k
    ensures TimeWithinDay(t - k * MsPerDay) == TimeWithinDay(t)
  {
    DaySplit(t);
    DayOfMakeDate(Day(t) - k, TimeWithinDay(t));
    assert t - k * MsPerDay == MakeDate(Day(t) - k, TimeWithinDay(t));
  }

  /** A time value in whole seconds: the day's seconds plus the seconds within the day. */
  lemma SecondsOf(day: int, time: int)
    requires 0 <= time < MsPerDay
    ensures MakeDate(day, time) / MsPerSecond == day * 86400 + time / MsPerSecond
  {
    assert MakeDate(day, time) == (day * 86400 + time / MsPerSecond) * MsPerSecond + time % MsPerSecond;
  }

  /** Moving `k` years back is moving `12 k` months back. */
  lemma YearsAreMonths(y: int, m: int, d: int, k: int)
    requires 0 <= m < 12
    ensures MakeDay(y - k, m, d) == MakeDay(y, m - 12 * k, d)
  {
    assert (m - 12 * k) / 12 == -k && (m - 12 * k) % 12 == m;
  }

  /** A day-of-month moves its day number linearly, whatever the month. */
  lemma MakeDayDate(y: int, m: int, d: int)
    ensures MakeDay(y, m, d) == MakeDay(y, m, 1) + d - 1
  {
  }
}
