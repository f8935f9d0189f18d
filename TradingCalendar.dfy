/**
 * The trading calendar of lib/utils.ts: whether the New York market is open, and
 * the most recent market close. `now` is the local wall-clock time value that the
 * source obtains from `toZonedTime(new Date(), "America/New_York")`.
 */
module TradingCalendar {
  import opened JsDate

  /** 09:30:00.000 and 16:00:00.000 as times within a day. */
  const OpenTime: int := MakeTime(9, 30, 0, 0)
  const CloseTime: int := MakeTime(16, 0, 0, 0)

  /** Monday to Friday. */
  predicate IsTradingDay(day: int) { 1 <= DayOfWeek(day) <= 5 }

  /** `isMarketOpen`: a weekday, and local time in [09:30, 16:00). */
  function IsMarketOpen(now: int): (open: bool)
    ensures open <==> IsTradingDay(Day(now)) && OpenTime <= TimeWithinDay(now) < CloseTime
  {
    var day := WeekDay(now);
    var hour := HourFromTime(now);
    var minute := MinFromTime(now);
    day > 0 && day < 6 && (hour > 9 || (hour == 9 && minute >= 30)) && hour < 16
  }

  /** The pre-open test of `getLastMarketCloseDate`: earlier than 09:30 local. */
  function BeforeOpen(now: int): (before: bool)
    ensures before <==> TimeWithinDay(now) < OpenTime
  {
    HourFromTime(now) < 9 || (HourFromTime(now) == 9 && MinFromTime(now) < 30)
  }

  /** The day the close search starts from: yesterday before the open, today otherwise. */
  function StartDay(now: int): int {
    if TimeWithinDay(now) < OpenTime then Day(now) - 1 else Day(now)
  }

  /** The day of the last close: the start day, or the Friday before it when it falls on a weekend. */
  function LastCloseDay(now: int): int {
    var d0 := StartDay(now);
    var wd := DayOfWeek(d0);
    d0 - (if wd == 6 then 1 else if wd == 0 then 2 else 0)
  }

  /** The instant `getLastMarketCloseDate` returns. */
  function LastMarketCloseOf(now: int): int {
    MakeDate(LastCloseDay(now), CloseTime)
  }

  /** The weekdays just before a Saturday or a Sunday. */
  lemma WeekendPredecessors(d: int)
    ensures DayOfWeek(d) == 6 ==> DayOfWeek(d - 1) == 5
    ensures DayOfWeek(d) == 0 ==> DayOfWeek(d - 1) == 6 && DayOfWeek(d - 2) == 5
  {
    DayOfWeekPrev(d);
    DayOfWeekPrev(d - 1);
  }

  /** The weekend walk of `getLastMarketCloseDate` stops at two steps at most. */
  predicate WeekendWalk(d0: int, steps: int) {
    steps == 0 || (steps == 1 && DayOfWeek(d0) == 6) || (steps == 1 && DayOfWeek(d0) == 0)
    || (steps == 2 && DayOfWeek(d0) == 0)
  }

  /** A weekend walk that has reached a weekday has reached the day of the last close. */
  lemma WalkEndsAtLastClose(now: int, steps: int)
    requires WeekendWalk(StartDay(now), steps)
    requires DayOfWeek(StartDay(now) - steps) != 0 && DayOfWeek(StartDay(now) - steps) != 6
    ensures StartDay(now) - steps == LastCloseDay(now)
  {
    WeekendPredecessors(StartDay(now));
  }

  /** A weekend walk still on a weekend day may take another step. */
  lemma WalkContinues(d0: int, steps: int)
    requires WeekendWalk(d0, steps)
    requires DayOfWeek(d0 - steps) == 0 || DayOfWeek(d0 - steps) == 6
    ensures WeekendWalk(d0, steps + 1)
  {
    WeekendPredecessors(d0);
  }

  /**
   * `getLastMarketCloseDate`: step back a day before the open, set 16:00:00.000, then
   * step back over weekend days. `steps` counts the weekend steps.
   */
  method GetLastMarketCloseDate(now: int) returns (close: int, ghost steps: nat)
    ensures close == LastMarketCloseOf(now)
    ensures steps <= 2
  {
    var date := new Date(now);
    ghost var preOpen := BeforeOpen(now);
    if date.GetHours() < 9 || (date.GetHours() == 9 && date.GetMinutes() < 30) {
      SetDateBack(date.time, 1);
      OneDayBack(date.time);
      date.SetDate(date.GetDate() - 1);
    }
    ghost var d0 := Day(date.time);
    assert d0 == StartDay(now);
    date.SetHours(16, 0, 0, 0);
    steps := 0;
    while date.GetDay() == 0 || date.GetDay() == 6
      invariant date.time == MakeDate(d0 - steps, CloseTime)
      invariant WeekendWalk(d0, steps)
      decreases 2 - steps
    {
      DayOfMakeDate(d0 - steps, CloseTime);
      WalkContinues(d0, steps);
      SetDateBack(date.time, 1);
      date.SetDate(date.GetDate() - 1);
      steps := steps + 1;
    }
    DayOfMakeDate(d0 - steps, CloseTime);
    WalkEndsAtLastClose(now, steps);
    close := date.GetTime();
  }
}

// The promises of the trading calendar, stated about the close that
// `getLastMarketCloseDate` computes.
module TradingCalendarProperties {
  import opened JsDate
  import opened TradingCalendar

  /** The last close is always 16:00:00.000 on a Monday to Friday. */
  lemma LastCloseIsWeekdayAtFour(now: int)
    ensures var close := LastMarketCloseOf(now);
            IsTradingDay(Day(close)) && TimeWithinDay(close) == CloseTime
            && HourFromTime(close) == 16 && MinFromTime(close) == 0
            && SecFromTime(close) == 0 && MsFromTime(close) == 0
  {
    WeekendPredecessors(StartDay(now));
    DayOfMakeDate(LastCloseDay(now), CloseTime);
  }

  /** The search skips only weekend days, and never more than two of them. */
  lemma SkippedDaysAreWeekend(now: int)
    ensures StartDay(now) - 2 <= LastCloseDay(now) <= StartDay(now)
    ensures forall k :: LastCloseDay(now) < k <= StartDay(now) ==> !IsTradingDay(k)
  {
    WeekendPredecessors(StartDay(now));
  }

  /** From 09:30 on a weekday, the close is that same day's 16:00. */
  lemma SameDayFromOpen(now: int)
    requires IsTradingDay(Day(now)) && OpenTime <= TimeWithinDay(now)
    ensures Day(LastMarketCloseOf(now)) == Day(now)
  {
    DayOfMakeDate(LastCloseDay(now), CloseTime);
  }

  /** Before 09:30 the close is on an earlier day, with only weekend days in between. */
  lemma PreviousDayBeforeOpen(now: int)
    requires TimeWithinDay(now) < OpenTime
    ensures Day(LastMarketCloseOf(now)) < Day(now)
    ensures forall k :: Day(LastMarketCloseOf(now)) < k < Day(now) ==> !IsTradingDay(k)
  {
    SkippedDaysAreWeekend(now);
    DayOfMakeDate(LastCloseDay(now), CloseTime);
  }

  /**
   * The close lies after `now` exactly while the market is open: during trading
   * hours it is today's coming close, otherwise it is a close already past.
   */
  lemma {:induction false} CloseIsAheadIffOpen(now: int)
    ensures LastMarketCloseOf(now) > now <==> IsMarketOpen(now)
  {
    SkippedDaysAreWeekend(now);
    DaySplit(now);
    var dc := LastCloseDay(now);
    if IsMarketOpen(now) {
      assert dc == Day(now);
    } else if TimeWithinDay(now) < OpenTime {
      assert dc <= Day(now) - 1;
    } else if TimeWithinDay(now) >= CloseTime {
      assert dc <= Day(now);
    } else {
      assert !IsTradingDay(Day(now));
      assert dc < Day(now);
    }
  }

  /** No weekday close at or before `now` is more recent than the one returned. */
  lemma {:induction false} CloseIsMostRecent(now: int, d: int)
    requires IsTradingDay(d) && MakeDate(d, CloseTime) <= now
    ensures MakeDate(d, CloseTime) <= LastMarketCloseOf(now)
  {
    SkippedDaysAreWeekend(now);
    DaySplit(now);
    assert d <= StartDay(now);
    assert d <= LastCloseDay(now);
  }

  /** Outside trading hours the close is at or before `now`, so it is the last close. */
  lemma ClosedMarketCloseIsPast(now: int)
    requires !IsMarketOpen(now)
    ensures LastMarketCloseOf(now) <= now
  {
    CloseIsAheadIffOpen(now);
  }

  /** Weekends are always closed. */
  lemma WeekendIsClosed(now: int)
    requires WeekDay(now) == 0 || WeekDay(now) == 6
    ensures !IsMarketOpen(now)
  {
  }
}
