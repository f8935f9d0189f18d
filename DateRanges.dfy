/**
 * The table-driven date offsets of lib/utils.ts: `CalculateRange` (where a chart
 * range starts, in Unix seconds), `calculateInterval` (the bar size for a range)
 * and `getStartDate` (a `YYYY-MM-DD` date some days back).
 */
module DateRanges {
  import opened Wrappers
  import opened JsDate
  import opened NumberText
  import opened TradingCalendar

  /** The labels `CalculateRange` accepts, each reaching further back than the one before it, then `max`. */
  const AcceptedRanges: seq<string> := ["1d", "5d", "1w", "1m", "3m", "6m", "1y", "2y", "5y", "max"]

  /**
   * The time value `from` holds after the `switch` of `CalculateRange`, when `from`
   * starts as a copy of `close`; None for a label the `switch` throws on.
   */
  function RangeStart(range: string, close: int): Option<int> {
    match range
    case "1d" => Some(WithDate(close, DateFromTime(close) - 1))
    case "5d" => Some(WithDate(close, DateFromTime(close) - 5))
    case "1w" => Some(WithDate(close, DateFromTime(close) - 7))
    case "1m" => Some(WithMonth(close, MonthFromTime(close) - 1))
    case "3m" => Some(WithMonth(close, MonthFromTime(close) - 3))
    case "6m" => Some(WithMonth(close, MonthFromTime(close) - 6))
    case "1y" => Some(WithFullYear(close, YearFromTime(close) - 1))
    case "2y" => Some(WithFullYear(close, YearFromTime(close) - 2))
    case "5y" => Some(WithFullYear(close, YearFromTime(close) - 5))
    case "max" => Some(0)
    case _ => None
  }

  /** What `CalculateRange(range)` returns, or the message of the error it throws, at clock reading `now`. */
  function CalculateRangeOf(range: string, now: int): Result<int, string> {
    match RangeStart(range, LastMarketCloseOf(now))
    case Some(from) => Success(from / MsPerSecond)
    case None => Failure("Invalid range: " + range)
  }

  /**
   * `CalculateRange(range)`: moves a copy of the last market close back by the
   * range. Each case returns where the source's `break` leads to the shared return.
   */
  method CalculateRange(range: string, now: int) returns (r: Result<int, string>)
    ensures r == CalculateRangeOf(range, now)
  {
    var lastMarketClose, steps := GetLastMarketCloseDate(now);
    var from := new Date(lastMarketClose);
    match range {
      case "1d" =>
        from.SetDate(from.GetDate() - 1);
        return Success(from.GetTime() / MsPerSecond);
      case "5d" =>
        from.SetDate(from.GetDate() - 5);
        return Success(from.GetTime() / MsPerSecond);
      case "1w" =>
        from.SetDate(from.GetDate() - 7);
        return Success(from.GetTime() / MsPerSecond);
      case "1m" =>
        from.SetMonth(from.GetMonth() - 1);
        return Success(from.GetTime() / MsPerSecond);
      case "3m" =>
        from.SetMonth(from.GetMonth() - 3);
        return Success(from.GetTime() / MsPerSecond);
      case "6m" =>
        from.SetMonth(from.GetMonth() - 6);
        return Success(from.GetTime() / MsPerSecond);
      case "1y" =>
        from.SetFullYear(from.GetFullYear() - 1);
        return Success(from.GetTime() / MsPerSecond);
      case "2y" =>
        from.SetFullYear(from.GetFullYear() - 2);
        return Success(from.GetTime() / MsPerSecond);
      case "5y" =>
        from.SetFullYear(from.GetFullYear() - 5);
        return Success(from.GetTime() / MsPerSecond);
      case "max" =>
        from := new Date(0);
        return Success(from.GetTime() / MsPerSecond);
      case _ => return Failure("Invalid range: " + range);
    }
  }

  /** `calculateInterval(range)`, or the message of the error it throws. */
  function CalculateInterval(range: string): (r: Result<string, string>)
    ensures r.Success? ==> r.value in ["15m", "1h", "1d"]
    ensures r.Failure? ==> r.error == "Invalid range: " + range
  {
    match range
    case "1d" => Success("15m")
    case "1w" | "1m" => Success("1h")
    case "3m" | "1y" => Success("1d")
    case _ => Failure("Invalid range: " + range)
  }

  /** The intervals for which `getStartDate` goes back a single day. */
  const OneDayIntervals: seq<string> := ["1d", "1m", "2m", "5m", "15m", "30m", "60m", "90m", "1h"]

  /**
   * The number of days the `switch` of `getStartDate` picks for an interval: one
   * for the minute, hour and day intervals, more for the longer ones, none for
   * any other label.
   */
  function SubtractDays(interval: string): (days: nat)
    ensures days == 1 <==> interval in OneDayIntervals
    ensures interval == "5d" ==> days == 5
    ensures interval == "1wk" ==> days == 7
    ensures interval == "1mo" ==> days == 30
    ensures interval == "3mo" ==> days == 90
    ensures days == 0 <==> interval !in OneDayIntervals + ["5d", "1wk", "1mo", "3mo"]
    ensures days <= 90
  {
    match interval
    case "1d" | "1m" | "2m" | "5m" | "15m" | "30m" | "60m" | "90m" | "1h" => 1
    case "5d" => 5
    case "1wk" => 7
    case "1mo" => 30
    case "3mo" => 90
    case _ => 0
  }

  /** The `${year}-${month}-${day}` text of a time value, month and day padded to two digits. */
  function IsoDate(t: int): string {
    IntToString(YearFromTime(t)) + "-"
      + PadStart(IntToString(MonthFromTime(t) + 1), 2, '0') + "-"
      + PadStart(IntToString(DateFromTime(t)), 2, '0')
  }

  /** The time value `getStartDate(interval)` formats: `now`, the interval's day count back. */
  function StartOf(interval: string, now: int): int {
    now - SubtractDays(interval) * MsPerDay
  }

  /** What `getStartDate(interval)` returns at clock reading `now`. */
  function StartDateOf(interval: string, now: int): string {
    IsoDate(StartOf(interval, now))
  }

  /** `getStartDate(interval)`: today's date moved back by the interval's day count, as text. */
  method GetStartDate(interval: string, now: int) returns (s: string)
    ensures s == StartDateOf(interval, now)
  {
    var today := new Date(now);
    var subtractDays := SubtractDays(interval);
    today.SetDate(today.GetDate() - subtractDays);
    SetDateBack(now, subtractDays);
    assert today.time == StartOf(interval, now);
    var year := today.GetFullYear();
    var month := PadStart(IntToString(today.GetMonth() + 1), 2, '0');
    var day := PadStart(IntToString(today.GetDate()), 2, '0');
    s := IntToString(year) + "-" + month + "-" + day;
  }
}

/** What the range and date helpers guarantee. */
module DateRangeProperties {
  import opened Wrappers
  import opened JsDate
  import opened NumberText
  import opened TradingCalendar
  import opened DateRanges

  /** `CalculateRange` succeeds exactly on the accepted labels and otherwise names the label it rejects. */
  lemma {:induction false} CalculateRangeDomain(range: string, now: int)
    ensures CalculateRangeOf(range, now).Success? <==> range in AcceptedRanges
    ensures CalculateRangeOf(range, now).Failure? ==> CalculateRangeOf(range, now).error == "Invalid range: " + range
  {
    if range !in AcceptedRanges {
      assert RangeStart(range, LastMarketCloseOf(now)) == None;
    }
  }

  /** The labels the extension ladder produces for months are not among them. */
  lemma LadderMonthLabelsRejected(now: int)
    ensures CalculateRangeOf("1mo", now) == Failure("Invalid range: 1mo")
    ensures CalculateRangeOf("3mo", now) == Failure("Invalid range: 3mo")
    ensures CalculateRangeOf("6mo", now) == Failure("Invalid range: 6mo")
    ensures CalculateRangeOf("ytd", now).Failure? && CalculateRangeOf("10y", now).Failure?
  {
    assert "Invalid range: " + "1mo" == "Invalid range: 1mo";
    assert "Invalid range: " + "3mo" == "Invalid range: 3mo";
    assert "Invalid range: " + "6mo" == "Invalid range: 6mo";
  }

  /** `max` starts at the epoch. */
  lemma MaxIsEpoch(now: int)
    ensures CalculateRangeOf("max", now) == Success(0)
  {
  }

  /** `1d`, `5d` and `1w` go back exactly 1, 5 and 7 days. */
  lemma {:induction false} DayRangesExact(close: int)
    ensures RangeStart("1d", close) == Some(close - 1 * MsPerDay)
    ensures RangeStart("5d", close) == Some(close - 5 * MsPerDay)
    ensures RangeStart("1w", close) == Some(close - 7 * MsPerDay)
  {
    SetDateBack(close, 1);
    SetDateBack(close, 5);
    SetDateBack(close, 7);
  }

  /** The number of months a month or year range goes back, 0 for the other labels. */
  function MonthsBack(range: string): nat {
    match range
    case "1m" => 1
    case "3m" => 3
    case "6m" => 6
    case "1y" => 12
    case "2y" => 24
    case "5y" => 60
    case _ => 0
  }

  /** The same day of the month `k` months earlier lies between 28 and 31 days per month back. */
  lemma {:induction false} MonthsBackBounds(close: int, k: nat)
    ensures var c := CivilFromDay(Day(close));
            var from := MakeDate(MakeDay(c.year, c.month - k, c.date), TimeWithinDay(close));
            TimeWithinDay(from) == TimeWithinDay(close)
            && Day(close) - 31 * k <= Day(from) <= Day(close) - 28 * k
  {
    var c := CivilFromDay(Day(close));
    MonthsBackEarlier(c.year, c.month, k);
    MonthsBackLater(c.year, c.month, k);
    MakeDayDate(c.year, c.month - k, c.date);
    MakeDayDate(c.year, c.month, c.date);
    DayOfMakeDate(MakeDay(c.year, c.month - k, c.date), TimeWithinDay(close));
  }

  /** `setFullYear(getFullYear() - years)` is `years` times twelve months back. */
  lemma YearsBack(close: int, years: int)
    ensures var c := CivilFromDay(Day(close));
            WithFullYear(close, YearFromTime(close) - years)
            == MakeDate(MakeDay(c.year, c.month - 12 * years, c.date), TimeWithinDay(close))
  {
    var c := CivilFromDay(Day(close));
    YearsAreMonths(c.year, c.month, c.date, years);
  }

  /** The month and year ranges put `from` on the same day of the month, `MonthsBack` months earlier. */
  lemma {:induction false} MonthRangeCivil(range: string, close: int)
    requires MonthsBack(range) > 0
    ensures var c := CivilFromDay(Day(close));
            RangeStart(range, close)
            == Some(MakeDate(MakeDay(c.year, c.month - MonthsBack(range), c.date), TimeWithinDay(close)))
  {
    if range == "1y" {
      YearsBack(close, 1);
    } else if range == "2y" {
      YearsBack(close, 2);
    } else if range == "5y" {
      YearsBack(close, 5);
    }
  }

  /**
   * The month and year ranges keep the time of day and go back between 28 and
   * 31 days per month; a day-of-month the target month lacks runs over into the next.
   */
  lemma {:induction false} MonthRangesBounds(range: string, close: int)
    requires MonthsBack(range) > 0
    ensures RangeStart(range, close).Some?
    ensures var from := RangeStart(range, close).value;
            var k := MonthsBack(range);
            TimeWithinDay(from) == TimeWithinDay(close)
            && Day(close) - 31 * k <= Day(from) <= Day(close) - 28 * k
  {
    MonthRangeCivil(range, close);
    MonthsBackBounds(close, MonthsBack(range));
  }

  /** Every accepted label but `max` starts at least one whole day before the close, at the same time of day. */
  lemma {:induction false} RangeStartsEarlier(range: string, close: int)
    requires range in AcceptedRanges && range != "max"
    ensures RangeStart(range, close).Some?
    ensures TimeWithinDay(RangeStart(range, close).value) == TimeWithinDay(close)
    ensures Day(RangeStart(range, close).value) <= Day(close) - 1
  {
    if range == "1d" {
      DayRangesExact(close);
      DaysBack(close, 1);
    } else if range == "5d" {
      DayRangesExact(close);
      DaysBack(close, 5);
    } else if range == "1w" {
      DayRangesExact(close);
      DaysBack(close, 7);
    } else {
      assert MonthsBack(range) > 0;
      MonthRangesBounds(range, close);
    }
  }

  /** Each accepted label reaches strictly further back than the label before it, up to `5y`. */
  lemma {:induction false} LongerRangesStartEarlier(i: int, close: int)
    requires 0 <= i < 8
    ensures RangeStart(AcceptedRanges[i], close).Some? && RangeStart(AcceptedRanges[i + 1], close).Some?
    ensures Day(RangeStart(AcceptedRanges[i + 1], close).value) < Day(RangeStart(AcceptedRanges[i], close).value)
    ensures RangeStart(AcceptedRanges[i + 1], close).value < RangeStart(AcceptedRanges[i], close).value
  {
    var a, b := AcceptedRanges[i], AcceptedRanges[i + 1];
    RangeStartsEarlier(a, close);
    RangeStartsEarlier(b, close);
    if i <= 1 {
      DayRangesExact(close);
      DaysBack(close, 1);
      DaysBack(close, 5);
      DaysBack(close, 7);
    } else if i == 2 {
      DayRangesExact(close);
      DaysBack(close, 7);
      MonthRangesBounds(b, close);
    } else {
      MonthRangesBounds(a, close);
      MonthRangesBounds(b, close);
    }
    var fa, fb := RangeStart(a, close).value, RangeStart(b, close).value;
    DaySplit(fa);
    DaySplit(fb);
  }

  /**
   * The start `CalculateRange` returns for any accepted label but `max` is earlier
   * than the end `fetchChartData` asks for, the last close in whole seconds.
   */
  lemma {:induction false} RangeEndsBeforeClose(range: string, now: int)
    requires range in AcceptedRanges && range != "max"
    ensures CalculateRangeOf(range, now).Success?
    ensures CalculateRangeOf(range, now).value < LastMarketCloseOf(now) / MsPerSecond
  {
    var close := LastMarketCloseOf(now);
    RangeStartsEarlier(range, close);
    var from := RangeStart(range, close).value;
    DaySplit(from);
    DaySplit(close);
    SecondsOf(Day(from), TimeWithinDay(from));
    SecondsOf(Day(close), TimeWithinDay(close));
  }

  /** `calculateInterval` accepts only labels `CalculateRange` accepts, and maps them as its table says. */
  lemma {:induction false} IntervalDomain(range: string, now: int)
    ensures CalculateInterval(range).Success? <==> range in ["1d", "1w", "1m", "3m", "1y"]
    ensures CalculateInterval(range).Success? ==> CalculateRangeOf(range, now).Success?
    ensures CalculateInterval(range) == Success("15m") <==> range == "1d"
    ensures CalculateInterval(range) == Success("1h") <==> range in ["1w", "1m"]
    ensures CalculateInterval(range) == Success("1d") <==> range in ["3m", "1y"]
  {
    if range in ["1d", "1w", "1m", "3m", "1y"] {
      CalculateRangeDomain(range, now);
    }
  }

  /**
   * For a four-digit year the date text is `YYYY-MM-DD`: ten characters, dashes at
   * 4 and 7, a month 01-12 and a day 01-31 that, read back, name the day of `t`.
   */
  lemma {:induction false} IsoDateDenotesDay(t: int)
    requires 1000 <= YearFromTime(t) <= 9999
    ensures var s := IsoDate(t);
            |s| == 10 && s[4] == '-' && s[7] == '-'
            && 1 <= ParseRadix(s[5..7], 10) <= 12
            && 1 <= ParseRadix(s[8..10], 10) <= 31
            && MakeDay(ParseRadix(s[..4], 10), ParseRadix(s[5..7], 10) - 1, ParseRadix(s[8..10], 10)) == Day(t)
  {
    var c := CivilFromDay(Day(t));
    var y, m, d := IntToString(c.year), PadStart(IntToString(c.month + 1), 2, '0'), PadStart(IntToString(c.date), 2, '0');
    FourDigitParse(c.year);
    TwoDigitsParse(c.month + 1);
    TwoDigitsParse(c.date);
    TwoDigits(c.month + 1);
    TwoDigits(c.date);
    var s := IsoDate(t);
    assert s == y + "-" + m + "-" + d;
    assert s[..4] == y && s[5..7] == m && s[8..10] == d;
  }

  /** The date `getStartDate` writes is the interval's day count before today. */
  lemma {:induction false} StartDateDaysBack(interval: string, now: int)
    requires 1000 <= YearFromTime(StartOf(interval, now)) <= 9999
    ensures var s := StartDateOf(interval, now);
            |s| == 10
            && MakeDay(ParseRadix(s[..4], 10), ParseRadix(s[5..7], 10) - 1, ParseRadix(s[8..10], 10))
               == Day(now) - SubtractDays(interval)
  {
    var t := StartOf(interval, now);
    IsoDateDenotesDay(t);
    DaysBack(now, SubtractDays(interval));
  }
}
