/**
 * The decisions components/chart/StockChart.tsx and components/chart/MarketsChart.tsx
 * take on what the two fetches give them: the range caption, the quote
 * projection and filter, the price-change guard, and which view is shown.
 * Markup, styling and number formatting are not modelled.
 */
module ChartViews {
  import opened Wrappers
  import opened ChartFetch
  import opened QuoteFetch
  import JsDate
  import TradingCalendar
  import DateRanges
  import ChartFetchProperties

  // ---------------------------------------------------------------------------
  // The range caption

  /** The eleven `Range` labels the caption table is keyed by. */
  const RangeLabels: seq<string> := ["1d", "5d", "1m", "3m", "6m", "1y", "2y", "5y", "10y", "ytd", "max"]

  /**
   * `rangeTextMapping[range]`; `None` is the `undefined` a label outside the table
   * reads. The table covers exactly the eleven labels, and only `1d` has an empty caption.
   */
  function RangeText(range: string): (caption: Option<string>)
    ensures caption.Some? <==> range in RangeLabels
    ensures caption == Some("") <==> range == "1d"
  {
    match range
    case "1d" => Some("")
    case "5d" => Some("Past 5 Days")
    case "1m" => Some("Past Month")
    case "3m" => Some("Past 3 Months")
    case "6m" => Some("Past 6 Months")
    case "1y" => Some("Past Year")
    case "2y" => Some("Past 2 Years")
    case "5y" => Some("Past 5 Years")
    case "10y" => Some("Past 10 Years")
    case "ytd" => Some("Year to Date")
    case "max" => Some("Max")
    case _ => None
  }

  // ---------------------------------------------------------------------------
  // The quote projection and filter

  /**
   * One point handed to the area chart. `close` stands for `quote.close?.toFixed(2)`:
   * the closing price when there is one, `None` for `undefined`.
   */
  datatype ChartQuote = ChartQuote(date: Nullish<int>, close: Option<real>)

  /** The `map` callback: the date as it is, and the close only when it is neither `null` nor `undefined`. */
  function ToChartQuote(q: RawQuote): (c: ChartQuote)
    ensures c.date == q.date
    ensures c.close.Some? <==> q.close.Value?
    ensures c.close.Some? ==> c.close.value == q.close.value
  {
    ChartQuote(q.date, if q.close.Value? then Some(q.close.value) else None)
  }

  /** The `filter` callback: `quote.close !== undefined && quote.date !== null`. */
  predicate Keep(c: ChartQuote) {
    c.close.Some? && !c.date.Null?
  }

  /** `quotes.map(...)`. */
  function MapQuotes(quotes: seq<RawQuote>): (r: seq<ChartQuote>)
    ensures |r| == |quotes|
    ensures forall i :: 0 <= i < |quotes| ==> r[i] == ToChartQuote(quotes[i])
  {
    seq(|quotes|, i requires 0 <= i < |quotes| => ToChartQuote(quotes[i]))
  }

  /** `.filter(...)` with the `Keep` callback. */
  function FilterKept(cs: seq<ChartQuote>): (r: seq<ChartQuote>)
    ensures |r| <= |cs|
  {
    if cs == [] then []
    else (if Keep(cs[0]) then [cs[0]] else []) + FilterKept(cs[1..])
  }

  /**
   * The projected and filtered points both components give the area chart: no more
   * than the raw entries, each one kept by the filter, and all of them when every
   * raw entry has a close and a date that is not `null`.
   */
  function ChartQuotes(quotes: seq<RawQuote>): (points: seq<ChartQuote>)
    ensures |points| <= |quotes|
    ensures forall i :: 0 <= i < |points| ==> Keep(points[i])
    ensures (forall i :: 0 <= i < |quotes| ==> quotes[i].close.Value? && !quotes[i].date.Null?) ==>
              points == MapQuotes(quotes)
  {
    FilterKeptExact(MapQuotes(quotes));
    FilterKeptAll(MapQuotes(quotes));
    FilterKept(MapQuotes(quotes))
  }

  /** `a` is `b` with some entries dropped, the rest in their order. */
  predicate IsSubsequence(a: seq<ChartQuote>, b: seq<ChartQuote>)
    decreases |b|
  {
    if a == [] then true
    else if b == [] then false
    else if a[0] == b[0] then IsSubsequence(a[1..], b[1..])
    else IsSubsequence(a, b[1..])
  }

  /** The filter keeps exactly the entries `Keep` accepts: everything it returns is one of them, and each of them is returned. */
  lemma {:induction false} FilterKeptExact(cs: seq<ChartQuote>)
    ensures forall c :: c in FilterKept(cs) <==> c in cs && Keep(c)
  {
    if cs != [] {
      FilterKeptExact(cs[1..]);
      assert cs == [cs[0]] + cs[1..];
    }
  }

  /** The filter preserves the order of what it keeps. */
  lemma {:induction false} FilterKeptSubsequence(cs: seq<ChartQuote>)
    ensures IsSubsequence(FilterKept(cs), cs)
  {
    if cs != [] {
      FilterKeptSubsequence(cs[1..]);
      var rest := FilterKept(cs[1..]);
      if Keep(cs[0]) {
        assert FilterKept(cs)[1..] == rest;
      } else if rest != [] {
        FilterKeptExact(cs[1..]);
        assert rest[0] in rest;
        assert FilterKept(cs) == rest && rest[0] != cs[0];
      }
    }
  }

  /** Filtering a concatenation filters each part. */
  lemma {:induction false} FilterKeptAppend(a: seq<ChartQuote>, b: seq<ChartQuote>)
    ensures FilterKept(a + b) == FilterKept(a) + FilterKept(b)
  {
    if a == [] {
      assert a + b == b;
    } else {
      var head := if Keep(a[0]) then [a[0]] else [];
      assert (a + b)[0] == a[0] && (a + b)[1..] == a[1..] + b;
      FilterKeptAppend(a[1..], b);
      calc {
        FilterKept(a + b);
        head + FilterKept(a[1..] + b);
        head + (FilterKept(a[1..]) + FilterKept(b));
        (head + FilterKept(a[1..])) + FilterKept(b);
        FilterKept(a) + FilterKept(b);
      }
    }
  }

  /** Nothing is dropped exactly when every entry is kept. */
  lemma {:induction false} FilterKeptAll(cs: seq<ChartQuote>)
    ensures FilterKept(cs) == cs <==> forall i :: 0 <= i < |cs| ==> Keep(cs[i])
  {
    if cs != [] {
      FilterKeptAll(cs[1..]);
      if !Keep(cs[0]) {
        assert |FilterKept(cs)| < |cs|;
      } else {
        assert forall i :: 1 <= i < |cs| ==> cs[i] == cs[1..][i - 1];
      }
    }
  }

  /** A point is in `ChartQuotes(quotes)` iff it is the projection of an entry with a close and a date that is not `null`. */
  lemma ChartQuotesIff(quotes: seq<RawQuote>, c: ChartQuote)
    ensures c in ChartQuotes(quotes) <==>
              exists i :: 0 <= i < |quotes| && quotes[i].close.Value? && !quotes[i].date.Null? && c == ToChartQuote(quotes[i])
  {
    var mapped := MapQuotes(quotes);
    FilterKeptExact(mapped);
    if c in ChartQuotes(quotes) {
      var i :| 0 <= i < |mapped| && mapped[i] == c;
      assert quotes[i].close.Value? && !quotes[i].date.Null? && c == ToChartQuote(quotes[i]);
    }
    if exists i :: 0 <= i < |quotes| && quotes[i].close.Value? && !quotes[i].date.Null? && c == ToChartQuote(quotes[i]) {
      var i :| 0 <= i < |quotes| && quotes[i].close.Value? && !quotes[i].date.Null? && c == ToChartQuote(quotes[i]);
      assert mapped[i] == c;
    }
  }

  /** The points are the projections of the raw entries, in the raw order, with none invented. */
  lemma ChartQuotesOrdered(quotes: seq<RawQuote>)
    ensures IsSubsequence(ChartQuotes(quotes), MapQuotes(quotes))
    ensures |ChartQuotes(quotes)| <= |quotes|
  {
    FilterKeptSubsequence(MapQuotes(quotes));
  }

  /** An entry whose date is `undefined` (not `null`) and whose close is present is kept. */
  lemma UndefinedDateKept(close: real)
    ensures ChartQuotes([RawQuote(Undefined, Value(close))]) == [ChartQuote(Undefined, Some(close))]
    ensures ChartQuotes([RawQuote(Null, Value(close))]) == []
    ensures ChartQuotes([RawQuote(Value(0), Null)]) == []
  {
    assert MapQuotes([RawQuote(Undefined, Value(close))]) == [ChartQuote(Undefined, Some(close))];
    assert MapQuotes([RawQuote(Null, Value(close))]) == [ChartQuote(Null, Some(close))];
    assert MapQuotes([RawQuote(Value(0), Null)]) == [ChartQuote(Value(0), None)];
  }

  // ---------------------------------------------------------------------------
  // StockChart

  /** `chart.quotes.length && calculatePriceChange(...)`, with `change` what `calculatePriceChange` gives. */
  function PriceChange(quotes: seq<RawQuote>, change: real): (p: real)
    ensures |quotes| == 0 ==> p == 0.0
    ensures |quotes| > 0 ==> p == change
  {
    if |quotes| == 0 then 0.0 else change
  }

  /** `priceChange !== 0 && rangeTextMapping[range] !== ""`: whether the percentage is shown. */
  predicate ShowPercent(priceChange: real, range: string): (show: bool)
    ensures show ==> priceChange != 0.0
    ensures range == "1d" ==> !show
    ensures range in RangeLabels ==> (show <==> priceChange != 0.0 && range != "1d")
  {
    priceChange != 0.0 && RangeText(range) != Some("")
  }

  /** For the eleven labels, the percentage is shown iff the price moved and the range is not `1d`. */
  lemma ShowPercentIff(quotes: seq<RawQuote>, change: real, range: string)
    requires range in RangeLabels
    ensures ShowPercent(PriceChange(quotes, change), range) <==> |quotes| > 0 && change != 0.0 && range != "1d"
  {
  }

  /** The exchange name as shown: `NasdaqGS` as `NASDAQ`, any other name as it is. */
  function ExchangeLabel(fullExchangeName: string): (shown: string)
    ensures fullExchangeName == "NasdaqGS" ==> shown == "NASDAQ"
    ensures fullExchangeName != "NasdaqGS" ==> shown == fullExchangeName
  {
    if fullExchangeName == "NasdaqGS" then "NASDAQ" else fullExchangeName
  }

  /** The part below the header: the no-data notice or the area chart with its points. */
  datatype ChartBody = NoData | AreaChart(points: seq<ChartQuote>)

  /** What StockChart renders, with the caption and the percentage decision. */
  datatype StockView = StockView(symbol: string, exchange: string, shortName: string,
                                 rangeText: Option<string>, showPercent: bool, body: ChartBody)

  /** What a thrown error in StockChart comes from. */
  datatype StockError =
    | ChartFetchFailed(message: string)  // `fetchChartData` rejected
    | QuoteFetchFailed(message: string)  // `fetchQuote` rejected
    | ReadOfUndefined                    // `chart.meta` or `chart.quotes.length` read from `undefined`

  /** StockChart renders, throws, or waits for a chart fetch that never settles. */
  datatype StockOutcome = Renders(view: StockView) | Raises(error: StockError) | Waits

  /** The component for the chart fetch's outcome, the quote fetch's outcome and the value `calculatePriceChange` gives. */
  function StockChart(range: string, chart: FetchResult, quote: Result<Quote, string>, change: real): (r: StockOutcome)
    ensures r.Renders? <==> chart.Resolved? && chart.response.quotes.Some? && quote.Success?
    ensures r.Waits? <==> chart.ScriptExhausted?
  {
    match chart
    case ScriptExhausted => Waits
    case Rejected(message) => Raises(ChartFetchFailed(message))
    case ResolvedUndefined =>
      if quote.Failure? then Raises(QuoteFetchFailed(quote.error)) else Raises(ReadOfUndefined)
    case Resolved(response) =>
      match (quote, response.quotes)
      case (Failure(error), _) => Raises(QuoteFetchFailed(error))
      case (Success(_), None) => Raises(ReadOfUndefined)
      case (Success(q), Some(raw)) =>
        var priceChange := PriceChange(raw, change);
        Renders(StockView(q.symbol, ExchangeLabel(q.fullExchangeName), q.shortName, RangeText(range),
                          ShowPercent(priceChange, range),
                          if |raw| == 0 then NoData else AreaChart(ChartQuotes(raw))))
  }

  /** What StockChart throws, and that the chart fetch's failure comes before the quote's. */
  lemma StockChartOutcome(range: string, chart: FetchResult, quote: Result<Quote, string>, change: real)
    ensures chart.Rejected? ==> StockChart(range, chart, quote, change) == Raises(ChartFetchFailed(chart.message))
    ensures (chart.Resolved? || chart.ResolvedUndefined?) && quote.Failure? ==>
              StockChart(range, chart, quote, change) == Raises(QuoteFetchFailed(quote.error))
    ensures chart.ResolvedUndefined? && quote.Success? ==> StockChart(range, chart, quote, change) == Raises(ReadOfUndefined)
  {
  }

  /** The no-data notice is chosen on the raw length, so a response whose every entry is filtered out still gets the area chart. */
  lemma StockChartBody(range: string, response: ChartResponse, quote: Quote, change: real)
    requires response.quotes.Some?
    ensures var view := StockChart(range, Resolved(response), Success(quote), change).view;
            && (view.body.NoData? <==> |response.quotes.value| == 0)
            && (view.body.AreaChart? ==> view.body.points == ChartQuotes(response.quotes.value))
            && view.symbol == quote.symbol && view.shortName == quote.shortName
            && view.exchange == ExchangeLabel(quote.fullExchangeName)
            && view.rangeText == RangeText(range)
            && view.showPercent == ShowPercent(PriceChange(response.quotes.value, change), range)
  {
  }

  /** A response of one entry without a close renders the area chart with no points. */
  lemma AreaChartWithNoPoints(range: string, date: Nullish<int>, meta: Meta, quote: Quote, change: real)
    ensures StockChart(range, Resolved(ChartResponse(Some([RawQuote(date, Undefined)]), meta)), Success(quote), change).view.body
            == AreaChart([])
  {
    assert MapQuotes([RawQuote(date, Undefined)]) == [ChartQuote(date, None)];
  }

  /** A chart fetch that resolves always carries a quote list, so StockChart only reads from `undefined` when no attempt was made. */
  lemma ResolvedFetchHasQuotes(ticker: string, range: string, interval: string, retries: int, now: int,
                               script: seq<ProviderOutcome>, quote: Quote, change: real)
    requires FetchChartDataOf(ticker, range, interval, retries, now, script).result.Resolved?
    ensures StockChart(range, FetchChartDataOf(ticker, range, interval, retries, now, script).result, Success(quote), change).Renders?
  {
    var run := FetchChartDataOf(ticker, range, interval, retries, now, script);
    assert run.result.response.quotes.Some? by {
      match DateRanges.CalculateRangeOf(range, now)
      case Failure(_) =>
      case Success(period1) =>
        var query := Query(period1, TradingCalendar.LastMarketCloseOf(now) / JsDate.MsPerSecond, interval);
        ChartFetchProperties.AttemptsEmptyResult(ticker, script, query, 1, retries,
                                            DateRanges.CalculateRangeOf(ExtendRange(range), now));
    }
  }

  // ---------------------------------------------------------------------------
  // MarketsChart

  /** What MarketsChart renders. */
  datatype MarketsOutcome =
    | MarketsData(quote: Quote, points: seq<ChartQuote>)  // the header and the area chart
    | MarketsNoData(quote: Quote)                         // the header and "No data available for the selected range and interval"
    | MarketsError                                        // "Error loading chart data. Please try again later."
    | MarketsWaits                                        // `Promise.all` has not settled

  /** `IsWellFormedCurrencyCode` of ECMA-402 (section 6.3.1): exactly three ASCII letters, in either case. */
  predicate WellFormedCurrencyCode(code: string) {
    |code| == 3 && forall i :: 0 <= i < 3 ==> 'A' <= code[i] <= 'Z' || 'a' <= code[i] <= 'z'
  }

  /**
   * The header's `regularMarketPrice?.toLocaleString(undefined, {style: "currency", currency})`
   * returns: it is skipped without a price, and with a price it throws a `TypeError`
   * on a missing currency and a `RangeError` on a malformed one.
   */
  predicate HeaderFormats(q: Quote) {
    q.regularMarketPrice.None? || (q.currency.Some? && WellFormedCurrencyCode(q.currency.value))
  }

  /**
   * The component for the two fetches' outcomes. `Promise.all` rejects as soon as
   * either fetch rejects, and waits while the chart fetch has not settled. Every
   * failure, the header's formatting included, becomes the error view; nothing is
   * thrown out of the component.
   */
  function MarketsChart(chart: FetchResult, quote: Result<Quote, string>): (r: MarketsOutcome)
    ensures r == MarketsError <==> chart.Rejected? || quote.Failure? || chart.ResolvedUndefined? ||
                                     (chart.Resolved? && !HeaderFormats(quote.value))
    ensures r == MarketsWaits <==> chart.ScriptExhausted? && quote.Success?
    ensures r.MarketsData? || r.MarketsNoData? ==>
              chart.Resolved? && quote.Success? && r.quote == quote.value && HeaderFormats(r.quote)
    ensures r.MarketsData? ==>
              chart.response.quotes.Some? && r.points == ChartQuotes(chart.response.quotes.value) && r.points != []
  {
    match (chart, quote)
    case (Rejected(_), _) => MarketsError
    case (_, Failure(_)) => MarketsError
    case (ScriptExhausted, Success(_)) => MarketsWaits
    case (ResolvedUndefined, Success(_)) => MarketsError
    case (Resolved(response), Success(q)) =>
      var points := if response.quotes.Some? then ChartQuotes(response.quotes.value) else [];
      if !HeaderFormats(q) then MarketsError
      else if |points| > 0 then MarketsData(q, points) else MarketsNoData(q)
  }

  /** The chart is shown iff the header formats and some entry survives the filter, and it is shown with exactly the surviving points. */
  lemma MarketsChartData(response: ChartResponse, quote: Quote)
    ensures MarketsChart(Resolved(response), Success(quote)).MarketsData? <==>
              HeaderFormats(quote) && response.quotes.Some? &&
              exists i :: 0 <= i < |response.quotes.value| && response.quotes.value[i].close.Value? && !response.quotes.value[i].date.Null?
    ensures MarketsChart(Resolved(response), Success(quote)).MarketsData? ==>
              MarketsChart(Resolved(response), Success(quote)) == MarketsData(quote, ChartQuotes(response.quotes.value))
  {
    if response.quotes.Some? {
      var raw := response.quotes.value;
      if exists i :: 0 <= i < |raw| && raw[i].close.Value? && !raw[i].date.Null? {
        var i :| 0 <= i < |raw| && raw[i].close.Value? && !raw[i].date.Null?;
        ChartQuotesIff(raw, ToChartQuote(raw[i]));
      }
      if |ChartQuotes(raw)| > 0 {
        ChartQuotesIff(raw, ChartQuotes(raw)[0]);
      }
    }
  }

  /** A response without `quotes` shows the no-data view, or the error view when the header throws. */
  lemma MarketsChartAbsentQuotes(meta: Meta, quote: Quote)
    ensures MarketsChart(Resolved(ChartResponse(None, meta)), Success(quote)) ==
              if HeaderFormats(quote) then MarketsNoData(quote) else MarketsError
  {
  }

  /** A price without a currency, or with one that is not three letters, turns a successful fetch into the error view. */
  lemma MarketsHeaderThrows(response: ChartResponse, quote: Quote)
    requires quote.regularMarketPrice.Some?
    ensures quote.currency.None? ==> MarketsChart(Resolved(response), Success(quote)) == MarketsError
    ensures quote.currency == Some("US") ==> MarketsChart(Resolved(response), Success(quote)) == MarketsError
    ensures quote.currency == Some("USD") ==> MarketsChart(Resolved(response), Success(quote)) != MarketsError
  {
  }
}
