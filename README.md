# Stock dashboard chart-data path, modelled in Dafny

This project models the chart-data path of a Next.js stock dashboard:

- the New York trading calendar (`isMarketOpen`, `getLastMarketCloseDate`);
- the date-window helpers (`CalculateRange`, `calculateInterval`, `getStartDate`);
- the hex encoding of buffers and the result-code messages of `lib/utils.ts`;
- the range and interval clamping, the extension ladder, and the retry and
  range-extension loop of `fetchChartData`;
- the error wrapping of `fetchQuote`;
- the decisions that `StockChart` and `MarketsChart` take on the two fetch
  results: the range caption, the quote projection and filter, the
  price-change guard, and which view is shown.

Time is a local wall-clock time value in milliseconds. `JsDate` gives it the
ECMAScript date semantics: day number, weekday with 1970-01-01 a Thursday,
civil year/month/date, and month overflow in `setDate`/`setMonth`/`setFullYear`.
`JsDate.Date` is a mutable date object. The code that steps a `Date` in place
(`getLastMarketCloseDate`, `CalculateRange`, `getStartDate`) is modelled as
methods over that class. Each method is proved equal to a closed-form function.

The chart provider is a script: a sequence of outcomes, one consumed per call.
A run records each provider call with its query and each 2000 ms wait.
`ChartFetch.Attempts` is the specification of the loop.
`ChartFetch.AttemptLoop` keeps the source's `for` loop with the counter reset
to 0 and the `try`/`catch` retry, and is proved equal to it.

Module layout:

- `Wrappers`: `Option`, `Result`.
- `NumberText`: `toString(radix)`, `String(n)`, `padStart`.
- `JsDate`: ECMAScript time values and the `Date` class.
- `TradingCalendar`, `TradingCalendarProperties`.
- `BufferHex`, `ResultMessages`.
- `DateRanges`, `DateRangeProperties`.
- `ChartFetch`, `ChartFetchProperties`.
- `QuoteFetch`.
- `ChartViews`.

The model keeps these behaviours of the code as written:

- An empty answer on an attempt other than the last returns
  `{ quotes: [], meta }` at once when the response is an object without
  quotes. It does not retry and does not extend. A falsy response there is
  different: reading `chartData.meta` throws, and the `catch` retries after
  2000 ms like any other throw.
- The range extension can happen any number of times. The counter is reset to
  0 while `range` never changes. So, when the window of `extendRange(range)` can
  be computed, a provider that keeps answering empty on the last attempt keeps
  the loop going. `ChartFetchProperties.ScenarioNeverSettles` shows this. Among
  the accepted ranges the one exception is `5d`: it extends to `1mo`, which
  `CalculateRange` rejects, so the call ends with the sentinel after one round.
- The ladder labels `1mo`, `3mo` and `6mo` are rejected by `CalculateRange`.
  The rejection is thrown inside the `try`, so on the last attempt it becomes
  the `{ quotes: [], meta: {} }` sentinel.
- `CalculateRange(range)` for the first window sits outside the `try`, so an
  unaccepted range such as `ytd` or `10y` rejects the whole call.

## Model

| member | source | states |
|---|---|---|
| JsDate.DayOfWeek | lib/utils.ts:18 | `getDay()` is always a weekday number 0..6 |
| JsDate.TimeWithinDay | lib/utils.ts:19-20 | the time of day is within [0, 24 h) whatever the sign of the time value |
| JsDate.CivilFromDay | lib/utils.ts:172-174 | the year, month and date `getFullYear`/`getMonth`/`getDate` report form a valid calendar date that denotes exactly that day |
| JsDate.Normalize | lib/utils.ts:195 | an out-of-range day-of-month or month overflows into a valid calendar date denoting the same day, as `setDate`/`setMonth` do |
| JsDate.Date.constructor | lib/utils.ts:182 | `new Date(t)` holds the time value `t` |
| JsDate.Date.SetDate | lib/utils.ts:186 | `setDate` keeps year, month and time of day and sets the day-of-month, overflowing into neighbouring months |
| JsDate.Date.SetMonth | lib/utils.ts:195 | `setMonth` keeps year, day-of-month and time of day, overflowing into neighbouring years and months |
| JsDate.Date.SetFullYear | lib/utils.ts:204 | `setFullYear` keeps month, day-of-month and time of day |
| JsDate.Date.SetHours | lib/utils.ts:44 | `setHours(16, 0, 0, 0)` keeps the day and sets the time of day |
| JsDate.SetDateBack | lib/utils.ts:169 | `setDate(getDate() - k)` moves a time value back exactly `k` whole days, across month and year boundaries |
| JsDate.DaysBack | lib/utils.ts:169 | `k` whole days back is `k` day numbers back at the same time of day |
| JsDate.YearsAreMonths | lib/utils.ts:204 | moving the year back `k` is moving the month back `12 k` |
| JsDate.MonthsBackEarlier | lib/utils.ts:195 | `k` months back starts at least `28 k` days earlier |
| JsDate.MonthsBackLater | lib/utils.ts:195 | `k` months back starts at most `31 k` days earlier |
| NumberText.ToRadix | lib/utils.ts:103 | `n.toString(radix)` is never empty; `ToRadixDigits` and `ParseToRadix` state its digits and its value |
| NumberText.ToRadixDigits | lib/utils.ts:103 | `toString(radix)` writes only digits of the radix, with a leading `0` only for zero |
| NumberText.ParseToRadix | lib/utils.ts:103 | reading back what `toString(radix)` wrote gives the number |
| NumberText.PadStart | lib/utils.ts:173 | `padStart(len)` yields `len` characters, or the string itself when it is longer |
| NumberText.PadStartShape | lib/utils.ts:103 | `padStart` keeps the string at the end and puts only the fill character in front |
| NumberText.IntToString | lib/utils.ts:173-176 | `String(n)` is never empty; `TwoDigits`, `TwoDigitsParse` and `FourDigitParse` state its digits for months, days and years |
| NumberText.TwoDigits | lib/utils.ts:173-174 | `String(v).padStart(2, "0")` is the two decimal digits of `v` for `0 <= v < 100` |
| NumberText.TwoDigitsParse | lib/utils.ts:173-174 | the zero-padded two-digit text reads back to `v` |
| NumberText.FourDigitParse | lib/utils.ts:172 | a four-digit year is written in four characters that read back to the year |
| TradingCalendar.IsMarketOpen | lib/utils.ts:15-29 | open iff Monday to Friday and local time in [09:30, 16:00): 09:30 is open, 16:00 is closed |
| TradingCalendar.BeforeOpen | lib/utils.ts:36-39 | the pre-open test holds iff the local time of day is before 09:30 |
| TradingCalendar.WalkContinues | lib/utils.ts:47-49 | while the date is on a weekend day the walk back may take another step, and it never takes more than two |
| TradingCalendar.WalkEndsAtLastClose | lib/utils.ts:47-49 | a walk that stops on a weekday stops on the day of the last close |
| TradingCalendar.GetLastMarketCloseDate | lib/utils.ts:31-53 | the date-stepping method returns the closed-form last close, after at most two weekend steps |
| TradingCalendarProperties.LastCloseIsWeekdayAtFour | lib/utils.ts:43-49 | the result is always 16:00:00.000 on a Monday to Friday |
| TradingCalendarProperties.SkippedDaysAreWeekend | lib/utils.ts:46-49 | at most two days are skipped, and every skipped day is a Saturday or Sunday |
| TradingCalendarProperties.SameDayFromOpen | lib/utils.ts:36-44 | from 09:30 on a weekday the close is that same day |
| TradingCalendarProperties.PreviousDayBeforeOpen | lib/utils.ts:36-41 | before 09:30 the close is on an earlier day, with only weekend days in between |
| TradingCalendarProperties.CloseIsAheadIffOpen | lib/utils.ts:31-49 | the close lies after now exactly while the market is open |
| TradingCalendarProperties.CloseIsMostRecent | lib/utils.ts:31-49 | no weekday 16:00 at or before now is later than the returned close |
| TradingCalendarProperties.ClosedMarketCloseIsPast | lib/utils.ts:31-49 | outside trading hours the close is at or before now |
| TradingCalendarProperties.WeekendIsClosed | lib/utils.ts:24-25 | weekends are always closed |
| BufferHex.ByteToHex | lib/utils.ts:103 | each byte becomes its high and low nibble as lowercase hex, zero-padded to two characters |
| BufferHex.GetStringFromBuffer | lib/utils.ts:101-104 | `n` bytes give `2n` characters, all lowercase hex digits |
| BufferHex.ByteAt | lib/utils.ts:101-104 | byte `i` is written at characters `2i` and `2i+1` |
| BufferHex.DecodeEncode | lib/utils.ts:101-104 | decoding the hex pairs returns the original bytes |
| BufferHex.EncodeDecode | lib/utils.ts:101-104 | every string of lowercase hex pairs is the encoding of the bytes it decodes to |
| ResultMessages.GetMessageFromCode | lib/utils.ts:115-130 | a message exists iff the string is one of the six result codes, and it is never empty |
| ResultMessages.MessagesDistinct | lib/utils.ts:106-130 | different result codes have different messages |
| DateRanges.CalculateRange | lib/utils.ts:180-220 | the method that moves a copy of the last close returns the closed-form start in whole seconds, or the `Invalid range` error |
| DateRanges.CalculateInterval | lib/utils.ts:222-242 | the interval is one of `15m`, `1h`, `1d`, or the error names the range |
| DateRanges.SubtractDays | lib/utils.ts:141-167 | one day exactly for `1d` and the minute and hour intervals; 5, 7, 30 and 90 days for `5d`, `1wk`, `1mo` and `3mo`; none exactly for labels outside the `switch` |
| DateRanges.GetStartDate | lib/utils.ts:137-177 | the method returns the `year-MM-DD` text of now moved back by the interval's day count |
| DateRangeProperties.CalculateRangeDomain | lib/utils.ts:184-216 | succeeds exactly on `1d 5d 1w 1m 3m 6m 1y 2y 5y max`, otherwise fails with `Invalid range: <range>` |
| DateRangeProperties.LadderMonthLabelsRejected | lib/utils.ts:215-216 | `1mo`, `3mo`, `6mo`, `ytd` and `10y` are rejected |
| DateRangeProperties.MaxIsEpoch | lib/utils.ts:212-213 | `max` starts at 0 |
| DateRangeProperties.DayRangesExact | lib/utils.ts:185-193 | `1d`, `5d` and `1w` start exactly 1, 5 and 7 days before the close |
| DateRangeProperties.MonthsBackBounds | lib/utils.ts:194-202 | the same date `k` months earlier keeps the time of day and lies 28 to 31 days per month back |
| DateRangeProperties.YearsBack | lib/utils.ts:203-211 | moving the full year back is moving the month back twelve times as far |
| DateRangeProperties.MonthRangeCivil | lib/utils.ts:194-211 | the month and year ranges land on the same date and time of day the range's months earlier |
| DateRangeProperties.MonthRangesBounds | lib/utils.ts:194-211 | the month and year ranges keep the time of day and go back 28 to 31 days per month |
| DateRangeProperties.RangeStartsEarlier | lib/utils.ts:184-211 | every accepted range but `max` starts at least a day before the close, at the same time of day |
| DateRangeProperties.LongerRangesStartEarlier | lib/utils.ts:184-211 | each accepted range up to `5y` starts strictly earlier than the one before it |
| DateRangeProperties.RangeEndsBeforeClose | lib/utils.ts:181-219 | the returned start, in seconds, is before the last close in seconds |
| DateRangeProperties.IntervalDomain | lib/utils.ts:225-239 | `1d` gives `15m`, `1w`/`1m` give `1h`, `3m`/`1y` give `1d`, nothing else succeeds, and every accepted label is one `CalculateRange` accepts |
| DateRangeProperties.IsoDateDenotesDay | lib/utils.ts:171-176 | the text is `YYYY-MM-DD`: ten characters, a month 01-12, a day 01-31, and read back it names the same day |
| DateRangeProperties.StartDateDaysBack | lib/utils.ts:141-176 | the date text names the day the interval's day count before today |
| ChartFetch.ValidateRange | lib/yahoo-finance/fetchChartData.ts:12-13 | the result is always a valid range: the input when valid, the default otherwise |
| ChartFetch.ValidateInterval | lib/yahoo-finance/fetchChartData.ts:15-18 | the result is always permitted for the range: the input when permitted, the list head otherwise |
| ChartFetch.IndexOf | lib/yahoo-finance/fetchChartData.ts:95 | `indexOf` is the first position of the label, or -1 when it is absent |
| ChartFetch.ExtendRange | lib/yahoo-finance/fetchChartData.ts:93-97 | the extension is always a label of the nine-step ladder |
| ChartFetch.FetchChartData | lib/yahoo-finance/fetchChartData.ts:22-90 | rejects when the first window cannot be computed, otherwise runs the attempt loop from attempt 1 on the query (start, last close in seconds, interval) |
| ChartFetch.AttemptLoop | lib/yahoo-finance/fetchChartData.ts:40-89 | the loop with its counter reset and its retry produces exactly the run of the specification `Attempts` |
| ChartFetch.UnfoldRetry | lib/yahoo-finance/fetchChartData.ts:79-83 | a throw with attempts left is one call and one 2000 ms wait, then the same query at the next attempt |
| ChartFetch.UnfoldExtend | lib/yahoo-finance/fetchChartData.ts:59-64 | an empty answer on the last attempt is one call, then the extended start with the count back at 1 |
| ChartFetch.StepOf | lib/yahoo-finance/fetchChartData.ts:41-87 | one pass of the loop body: it calls once with the current query, then settles with a response, or waits 2000 ms and retries the same query at the next attempt, or restarts at attempt 1 with only `period1` changed |
| ChartFetch.UnfoldLast | lib/yahoo-finance/fetchChartData.ts:54-87 | a non-empty answer is returned as it is; an empty one before the last attempt gives empty quotes with its meta; a throw, or an empty answer that cannot extend, on the last attempt gives the sentinel |
| ChartFetchProperties.ValidateRangeIdempotent | lib/yahoo-finance/fetchChartData.ts:12-13 | clamping a range twice is clamping it once |
| ChartFetchProperties.ValidateIntervalIdempotent | lib/yahoo-finance/fetchChartData.ts:15-18 | clamping an interval twice is clamping it once |
| ChartFetchProperties.ExtendMaxStays | lib/yahoo-finance/fetchChartData.ts:96 | `max` extends to `max` |
| ChartFetchProperties.IndexOfDistinct | lib/yahoo-finance/fetchChartData.ts:94-95 | on the ladder of distinct labels, `indexOf` finds each label at its own position |
| ChartFetchProperties.ExtendClimbs | lib/yahoo-finance/fetchChartData.ts:94-96 | every ladder label but `max` extends to its successor |
| ChartFetchProperties.ExtendOffLadder | lib/yahoo-finance/fetchChartData.ts:95-96 | a label off the ladder extends to `1d` |
| ChartFetchProperties.LadderRungsCalculable | lib/yahoo-finance/fetchChartData.ts:61-62 | `CalculateRange` fails on a ladder label iff it is `1mo`, `3mo` or `6mo` |
| ChartFetchProperties.AttemptsCalls | lib/yahoo-finance/fetchChartData.ts:40-89 | the loop never rejects, calls the provider at most once per scripted outcome, and has used all of them when it runs out |
| ChartFetchProperties.ResolvedEndsWithCall | lib/yahoo-finance/fetchChartData.ts:47-78 | a run that resolves ends with the provider call that decided it |
| ChartFetchProperties.AttemptsResult | lib/yahoo-finance/fetchChartData.ts:54-78 | a non-empty response is returned unchanged, and it is the answer to the last call made |
| ChartFetchProperties.AttemptsEmptyResult | lib/yahoo-finance/fetchChartData.ts:67-86 | every other response resolved with has present, empty quotes |
| ChartFetchProperties.ExtensionChangesOnlyStart | lib/yahoo-finance/fetchChartData.ts:34-64 | every call keeps ticker, `period2` and interval; its start is the first one or the extended one |
| ChartFetchProperties.FirstEventIsCall | lib/yahoo-finance/fetchChartData.ts:47-50 | the first thing the loop does is call the provider with the initial query |
| ChartFetchProperties.WaitsThenRetries | lib/yahoo-finance/fetchChartData.ts:81-83 | every wait is 2000 ms, follows a call, and is followed by the same call again |
| ChartFetchProperties.RejectsOnlyOnBadRange | lib/yahoo-finance/fetchChartData.ts:30-31 | the call rejects iff `CalculateRange` rejects the range, with its message and before any provider call |
| ChartFetchProperties.NoAttemptsResolvesUndefined | lib/yahoo-finance/fetchChartData.ts:40-90 | with fewer than one retry the loop never runs and the call resolves with `undefined` |
| ChartFetchProperties.ScenarioTwoThrowsThenData | lib/yahoo-finance/fetchChartData.ts:79-83 | two throws then data: three calls with two waits between them, and the data |
| ChartFetchProperties.ScenarioEmptyFirstAnswer | lib/yahoo-finance/fetchChartData.ts:59-67 | an empty first answer returns at once with empty quotes and its meta |
| ChartFetchProperties.ScenarioExtendThenEmpty | lib/yahoo-finance/fetchChartData.ts:59-67 | an empty last attempt extends the start, and the next empty answer returns with the extended query |
| ChartFetchProperties.OneDayExtendsToFiveDays | lib/yahoo-finance/fetchChartData.ts:93-97 | `1d` extends to `5d`, and both windows can be computed |
| ChartFetchProperties.ScenarioLadderLabelRejected | lib/yahoo-finance/fetchChartData.ts:59-86 | `5d` extends to `1mo`, which `CalculateRange` rejects inside the `try`, so the last attempt yields the sentinel |
| ChartFetchProperties.ScenarioAlwaysThrows | lib/yahoo-finance/fetchChartData.ts:79-87 | a provider that always throws is called once per remaining attempt, and the call resolves with the sentinel |
| ChartFetchProperties.ThrowsReachLastAttempt | lib/yahoo-finance/fetchChartData.ts:79-83 | throws before the last attempt only delay the outcome of the last attempt |
| ChartFetchProperties.ScenarioNeverSettles | lib/yahoo-finance/fetchChartData.ts:59-64 | when the extended window can be computed, a provider that keeps answering empty on the last attempt keeps the loop going for as long as it is called (`5d`, extended to the rejected `1mo`, ends with the sentinel instead) |
| QuoteFetch.TryQuote | lib/yahoo-finance/fetchQuote.ts:7-17 | the `try` succeeds iff the provider answers with a truthy response |
| QuoteFetch.WrapError | lib/yahoo-finance/fetchQuote.ts:18-26 | the re-thrown message starts with the prefix followed by the ticker |
| QuoteFetch.FetchQuote | lib/yahoo-finance/fetchQuote.ts:4-28 | succeeds iff the provider answers, and then with that very quote |
| QuoteFetch.FailureNoData | lib/yahoo-finance/fetchQuote.ts:11-23 | a falsy response fails with the no-data message re-wrapped by the `catch` |
| QuoteFetch.FailureError | lib/yahoo-finance/fetchQuote.ts:20-23 | a thrown `Error` fails with its message behind the prefix and ticker |
| QuoteFetch.FailureUnknown | lib/yahoo-finance/fetchQuote.ts:24-25 | any other thrown value fails with `Unknown error` |
| QuoteFetch.FailureNamesTicker | lib/yahoo-finance/fetchQuote.ts:18-26 | every failure message contains the ticker |
| QuoteFetch.InvalidTickerScenario | lib/yahoo-finance/fetchQuote.ts:11-23 | no data for `INVALIDTICKER` gives the full message naming it |
| ChartViews.RangeText | components/chart/StockChart.tsx:13-25 | the caption table covers exactly the eleven ranges, and only `1d` has an empty caption |
| ChartViews.ToChartQuote | components/chart/StockChart.tsx:53-56 | a point keeps the date as it is, and has a close iff the raw close is neither `null` nor `undefined` |
| ChartViews.Keep | components/chart/StockChart.tsx:57 | the `filter` callback: a point is kept iff its close is defined and its date is not `null` (a definition; `FilterKeptExact` states what the filter does with it) |
| ChartViews.MapQuotes | components/chart/StockChart.tsx:53-56 | the projection maps each entry in place and keeps the length |
| ChartViews.FilterKept | components/chart/StockChart.tsx:57 | the filter never lengthens the list |
| ChartViews.FilterKeptExact | components/chart/StockChart.tsx:57 | a point survives iff it is in the input and has a close and a date that is not `null` |
| ChartViews.FilterKeptSubsequence | components/chart/StockChart.tsx:57 | the filter keeps the order of what it keeps |
| ChartViews.FilterKeptAppend | components/chart/StockChart.tsx:57 | filtering a concatenation filters each part |
| ChartViews.FilterKeptAll | components/chart/StockChart.tsx:57 | nothing is dropped iff every entry is kept |
| ChartViews.ChartQuotes | components/chart/StockChart.tsx:52-57 | the points are no more than the raw entries, each one passes the filter, and none is dropped when every raw entry has a close and a non-`null` date |
| ChartViews.ChartQuotesIff | components/chart/StockChart.tsx:52-57 | a point is shown iff it projects a raw entry with a close and a date that is not `null` |
| ChartViews.ChartQuotesOrdered | components/chart/StockChart.tsx:52-57 | the points are an order-preserving subsequence of the projections, no longer than the raw list |
| ChartViews.UndefinedDateKept | components/chart/StockChart.tsx:57 | an `undefined` date is kept, a `null` date or a missing close is dropped |
| ChartViews.PriceChange | components/chart/StockChart.tsx:45-50 | the price change is 0 when there are no quotes |
| ChartViews.ShowPercent | components/chart/StockChart.tsx:150 | the percentage is never shown for a zero change or for `1d`, and for the eleven ranges it is shown exactly otherwise |
| ChartViews.ShowPercentIff | components/chart/StockChart.tsx:150 | the percentage is shown iff there are quotes, the change is not 0 and the range is not `1d` |
| ChartViews.ExchangeLabel | components/chart/StockChart.tsx:65-67 | `NasdaqGS` is shown as `NASDAQ`, any other name as it is |
| ChartViews.StockChart | components/chart/StockChart.tsx:37-176 | renders iff the chart resolves with quotes and the quote succeeds, and waits iff the chart fetch never settles; `StockChartOutcome` and `StockChartBody` state what it throws and what it renders |
| ChartViews.StockChartOutcome | components/chart/StockChart.tsx:37-50 | a failed chart fetch is thrown before a failed quote; an `undefined` chart throws on reading it |
| ChartViews.StockChartBody | components/chart/StockChart.tsx:169-176 | exactly one of no-data and the chart is shown, chosen on the raw length; the chart gets the filtered points, the header the quote's fields |
| ChartViews.AreaChartWithNoPoints | components/chart/StockChart.tsx:169-176 | one entry without a close renders the chart with no points |
| ChartViews.ResolvedFetchHasQuotes | components/chart/StockChart.tsx:43-50 | whenever `fetchChartData` resolves with a response, StockChart renders with a successful quote |
| ChartViews.MarketsChart | components/chart/MarketsChart.tsx:15-63 | the error view is shown iff either fetch rejects, the chart data is `undefined`, or the header's currency formatting throws (a price with a missing or malformed currency), and nothing is thrown; it waits iff the chart fetch never settles and the quote succeeds; the data and no-data views carry the fetched quote, whose header formats, and the chart gets the non-empty filtered points |
| ChartViews.MarketsChartData | components/chart/MarketsChart.tsx:28-54 | the chart is shown iff the header formats and some entry has a close and a date that is not `null`, and it gets exactly the filtered points |
| ChartViews.MarketsChartAbsentQuotes | components/chart/MarketsChart.tsx:28-54 | a response without `quotes` shows the no-data view, or the error view when the header throws |
| ChartViews.MarketsHeaderThrows | components/chart/MarketsChart.tsx:43-46 | with a price, a missing currency or the malformed `US` gives the error view, and `USD` does not |

## Left out

- `fetcher`, `formatDate` and `formatNumber` are HTTP I/O and locale formatting. They are not part of this model.
- `nanoid` and `cn` (randomness, class-name merging) are not part of this model.
- `sleep`, `runAsyncFnWithoutBlocking` and the `delay` of `fetchChartData` are not modelled as time passing. A wait appears only as a recorded `Wait(2000)` event.
- Time zones: `toZonedTime(…, "America/New_York")`, daylight saving and the `toUTCString` round trip are left out. The local New York wall-clock time is an input of the calendar code. `getStartDate` reads `new Date()` with no zone conversion, so the `now` of `DateRanges.GetStartDate` is the server's local clock.
- `ChartFetch.FetchChartData`: one clock reading serves the whole call. The source reads the clock again when the extension calls `CalculateRange`, so a call that spans a market open or a midnight can differ.
- The yahoo-finance2 client, `noStore()` and the console logging are left out. Each provider is a script of outcomes. A chart script that runs out stands for a call that never settles (`ScriptExhausted`).
- `Promise.all` concurrency is reduced to its outcome. A rejection of either fetch wins, and an unsettled chart fetch makes the component wait.
- `calculatePriceChange`, `toFixed` and the text `toLocaleString` writes are left out because they are floating-point arithmetic and formatting. The price change is an input, and the formatted close is the raw close kept as an opaque value.
- The markup of the components is not modelled, nor the formatted header text. Of the quote's price and currency the model keeps only whether they are present and, for MarketsChart, whether `toLocaleString` with the currency style throws on them: with a price, a missing currency throws a `TypeError` and one that is not three ASCII letters (`IsWellFormedCurrencyCode`, section 6.3.1 of ECMA-402) a `RangeError`. StockChart's header cannot throw on them and is not modelled, nor are the pre- and post-market changes.
- The constants module behind `VALID_RANGES`, `DEFAULT_RANGE` and `INTERVALS_FOR_RANGE` is not part of this model. It is the `RangeConfig` parameter, and the preconditions state what the code relies on.
- `JsDate.DayFromYear` counts years one by one from 1970. Its equality with the closed formula of ECMAScript is not stated.
- The `TimeClip` range limit and invalid (`NaN`) dates are not modelled. Time values are unbounded integers.
- `QuoteFetch.FetchQuote`: "the provider is called exactly once" holds by construction, because the function takes a single outcome. It is not a separate contract.
- `DateRangeProperties.IsoDateDenotesDay`: the read-back is stated only for four-digit years. For other years the text has a different width.
- `DateRangeProperties.StartDateDaysBack`: stated only when the start date has a four-digit year, for the same reason.
- `DateRangeProperties.RangeEndsBeforeClose`: stated for every accepted range but `max`. `max` starts at 0, which `DateRangeProperties.MaxIsEpoch` states.
