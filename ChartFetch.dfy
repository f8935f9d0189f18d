/**
 * lib/yahoo-finance/fetchChartData.ts: range and interval clamping, the range
 * extension ladder, and `fetchChartData`, the retry and range-extension loop
 * around the chart provider.
 *
 * The provider is a script: a sequence of outcomes, one consumed per call.
 * The run records what the loop does that can be seen from outside: each
 * provider call with its query, and each 2000 ms wait.
 */
module ChartFetch {
  import opened Wrappers
  import opened JsDate
  import opened TradingCalendar
  import opened DateRanges

  // ---------------------------------------------------------------------------
  // Configuration and clamping

  /** The constants module: the valid ranges, the default one, and the intervals each range permits. */
  datatype RangeConfig = RangeConfig(validRanges: seq<string>, defaultRange: string, intervalsForRange: map<string, seq<string>>)

  /** What the constants are expected to satisfy: a valid default and a non-empty interval list for every valid range. */
  predicate ValidConfig(cfg: RangeConfig) {
    && cfg.defaultRange in cfg.validRanges
    && (forall r :: r in cfg.validRanges ==> r in cfg.intervalsForRange && |cfg.intervalsForRange[r]| > 0)
  }

  /** `validateRange`: the range when it is valid, the default otherwise. */
  function ValidateRange(cfg: RangeConfig, range: string): (r: string)
    requires cfg.defaultRange in cfg.validRanges
    ensures r in cfg.validRanges
    ensures range in cfg.validRanges ==> r == range
    ensures range !in cfg.validRanges ==> r == cfg.defaultRange
  {
    if range in cfg.validRanges then range else cfg.defaultRange
  }

  /** `validateInterval`: the interval when the range permits it, the range's first interval otherwise. */
  function ValidateInterval(cfg: RangeConfig, range: string, interval: string): (i: string)
    requires range in cfg.intervalsForRange && |cfg.intervalsForRange[range]| > 0
    ensures i in cfg.intervalsForRange[range]
    ensures interval in cfg.intervalsForRange[range] ==> i == interval
    ensures interval !in cfg.intervalsForRange[range] ==> i == cfg.intervalsForRange[range][0]
  {
    var permitted := cfg.intervalsForRange[range];
    if interval in permitted then interval else permitted[0]
  }

  // ---------------------------------------------------------------------------
  // Range extension

  /** The ladder `extendRange` climbs, shortest first. */
  const RangeOrder: seq<string> := ["1d", "5d", "1mo", "3mo", "6mo", "1y", "2y", "5y", "max"]

  /** `s.indexOf(x)`: the first position of `x` in `s`, or -1. */
  function IndexOf(s: seq<string>, x: string): (i: int)
    ensures -1 <= i < |s|
    ensures i >= 0 ==> s[i] == x && x !in s[..i]
    ensures i == -1 ==> x !in s
  {
    if s == [] then -1
    else if s[0] == x then 0
    else
      var j := IndexOf(s[1..], x);
      assert s[1..][..j + 1] == s[1..j + 2] by { }
      if j == -1 then -1 else j + 1
  }

  /** `extendRange`: the ladder's next label, `max` staying `max`. */
  function ExtendRange(range: string): (r: string)
    ensures r in RangeOrder
  {
    var i := IndexOf(RangeOrder, range);
    var next := if i + 1 < |RangeOrder| - 1 then i + 1 else |RangeOrder| - 1;
    RangeOrder[next]
  }

  // ---------------------------------------------------------------------------
  // The provider, the query and the run

  /** A value that may be `null` or `undefined`. */
  datatype Nullish<T> = Value(value: T) | Null | Undefined

  /** One entry of the provider's `quotes`; its close is a number the model does not look into. */
  datatype RawQuote = RawQuote(date: Nullish<int>, close: Nullish<real>)

  /** The provider's metadata, kept as an opaque key-value record. */
  datatype Meta = Meta(fields: map<string, string>)

  /** A chart response; `quotes` may be absent. */
  datatype ChartResponse = ChartResponse(quotes: Option<seq<RawQuote>>, meta: Meta)

  /** What the provider does when called: answer, answer with nothing, or throw. */
  datatype ProviderOutcome = Responds(response: ChartResponse) | RespondsNothing | Throws(message: string)

  /** The `queryOptions` object: start and end in Unix seconds, and the interval. */
  datatype Query = Query(period1: int, period2: int, interval: string)

  /** What can be seen of the loop from outside. */
  datatype Event = Call(ticker: string, query: Query) | Wait(ms: int)

  /**
   * How the call ends: the promise rejects, resolves with a response, or resolves
   * with `undefined` (no attempt at all); `ScriptExhausted` means the provider
   * script ran out while the loop still wanted to call it.
   */
  datatype FetchResult = Rejected(message: string) | Resolved(response: ChartResponse) | ResolvedUndefined | ScriptExhausted

  datatype FetchRun = FetchRun(result: FetchResult, events: seq<Event>)

  const RetryDelayMs: int := 2000

  /** `{ quotes: [], meta: {} }`, returned when the last attempt throws. */
  const Sentinel: ChartResponse := ChartResponse(Some([]), Meta(map[]))

  /** The negation of `!chartData || !chartData.quotes || chartData.quotes.length === 0`. */
  predicate HasQuotes(data: ChartResponse) {
    data.quotes.Some? && |data.quotes.value| > 0
  }

  function Then(prefix: seq<Event>, run: FetchRun): FetchRun {
    FetchRun(run.result, prefix + run.events)
  }

  /** How one attempt ends: the call settles, or the loop goes on with these events, this query and this attempt number. */
  datatype Step = Settle(result: FetchResult, events: seq<Event>) | Continue(events: seq<Event>, query: Query, attempt: int)

  /**
   * One call with the current query, then: settled with a response, or a 2000 ms
   * wait and the same query at the next attempt, or the extended start at attempt 1.
   */
  predicate StepShaped(ticker: string, query: Query, attempt: int, retries: int, extended: Result<int, string>, step: Step) {
    && (step.Settle? ==> step.events == [Call(ticker, query)] && step.result.Resolved?)
    && (step.Continue? ==>
          || (step.events == [Call(ticker, query), Wait(RetryDelayMs)] && step.query == query
              && step.attempt == attempt + 1 && attempt < retries)
          || (step.events == [Call(ticker, query)] && extended.Success?
              && step.query == query.(period1 := extended.value) && step.attempt == 1))
  }

  /**
   * The body of the loop for one provider outcome at attempt `attempt`, with
   * `extended` what `CalculateRange(extendRange(range))` gives. Every attempt
   * makes one call with the current query. It settles on a response, or goes on
   * after a 2000 ms wait with the same query and the next attempt number, or goes
   * on at once with the extended start and attempt 1.
   */
  function StepOf(ticker: string, outcome: ProviderOutcome, query: Query, attempt: int, retries: int,
                  extended: Result<int, string>): (step: Step)
    ensures StepShaped(ticker, query, attempt, retries, extended, step)
  {
    var call := [Call(ticker, query)];
    if outcome.Responds? && HasQuotes(outcome.response) then
      Settle(Resolved(outcome.response), call)
    else if outcome.Throws? || (outcome.RespondsNothing? && attempt != retries) then
      // the provider threw, or `chartData.meta` was read from `undefined`
      if attempt < retries then Continue(call + [Wait(RetryDelayMs)], query, attempt + 1)
      else Settle(Resolved(Sentinel), call)
    else if attempt == retries then
      match extended
      case Success(period1) => Continue(call, query.(period1 := period1), 1)
      case Failure(_) => Settle(Resolved(Sentinel), call)
    else
      Settle(Resolved(ChartResponse(Some([]), outcome.response.meta)), call)
  }

  /** The loop from attempt `attempt` on, with `script` the provider's remaining outcomes. */
  function Attempts(ticker: string, script: seq<ProviderOutcome>, query: Query, attempt: int, retries: int,
                    extended: Result<int, string>): FetchRun
    decreases |script|
  {
    if attempt > retries then FetchRun(ResolvedUndefined, [])
    else if script == [] then FetchRun(ScriptExhausted, [])
    else
      match StepOf(ticker, script[0], query, attempt, retries, extended)
      case Settle(result, events) => FetchRun(result, events)
      case Continue(events, query', attempt') => Then(events, Attempts(ticker, script[1..], query', attempt', retries, extended))
  }

  /** What `fetchChartData(ticker, range, interval, retries)` does at clock reading `now`. */
  function FetchChartDataOf(ticker: string, range: string, interval: string, retries: int, now: int,
                            script: seq<ProviderOutcome>): FetchRun
  {
    match CalculateRangeOf(range, now)
    case Failure(message) => FetchRun(Rejected(message), [])
    case Success(period1) =>
      var query := Query(period1, LastMarketCloseOf(now) / MsPerSecond, interval);
      Attempts(ticker, script, query, 1, retries, CalculateRangeOf(ExtendRange(range), now))
  }

  /** `fetchChartData`: the range window, then the attempt loop over the scripted provider. */
  method FetchChartData(ticker: string, range: string, interval: string, retries: int, now: int,
                        script: seq<ProviderOutcome>) returns (result: FetchResult, events: seq<Event>)
    ensures FetchRun(result, events) == FetchChartDataOf(ticker, range, interval, retries, now, script)
  {
    var lastMarketClose, steps := GetLastMarketCloseDate(now);
    var period1 := CalculateRange(range, now);
    if period1.Failure? {
      return Rejected(period1.error), [];
    }
    var query := Query(period1.value, lastMarketClose / MsPerSecond, interval);
    // `range` never changes, so `extendRange(range)` names the same label at every extension
    var extendedRange := ExtendRange(range);
    result, events := AttemptLoop(ticker, extendedRange, now, script, query, retries);
  }

  lemma ThenThen(a: seq<Event>, b: seq<Event>, run: FetchRun)
    ensures Then(a + b, run) == Then(a, Then(b, run))
  {
    assert (a + b) + run.events == a + (b + run.events);
  }

  /** A throw with attempts left: a wait, then the same query at the next attempt. */
  lemma UnfoldRetry(ticker: string, script: seq<ProviderOutcome>, query: Query, attempt: int, retries: int,
                    extended: Result<int, string>)
    requires attempt < retries && script != []
    requires script[0].Throws? || script[0].RespondsNothing?
    ensures Attempts(ticker, script, query, attempt, retries, extended)
            == Then([Call(ticker, query), Wait(RetryDelayMs)], Attempts(ticker, script[1..], query, attempt + 1, retries, extended))
  {
  }

  /** An empty answer to the last attempt: the extended start, and the count back at 1. */
  lemma UnfoldExtend(ticker: string, script: seq<ProviderOutcome>, query: Query, retries: int, extended: Result<int, string>)
    requires script != [] && extended.Success?
    requires script[0].RespondsNothing? || (script[0].Responds? && !HasQuotes(script[0].response))
    ensures Attempts(ticker, script, query, retries, retries, extended)
            == Then([Call(ticker, query)], Attempts(ticker, script[1..], query.(period1 := extended.value), 1, retries, extended))
  {
  }

  /** One attempt in front of the rest of the loop. */
  lemma UnfoldStep(ticker: string, script: seq<ProviderOutcome>, query: Query, attempt: int, retries: int,
                   extended: Result<int, string>)
    requires attempt <= retries && script != []
    ensures var step := StepOf(ticker, script[0], query, attempt, retries, extended);
            Attempts(ticker, script, query, attempt, retries, extended)
            == if step.Settle? then FetchRun(step.result, step.events)
               else Then(step.events, Attempts(ticker, script[1..], step.query, step.attempt, retries, extended))
  {
  }

  /** The attempts a run ends with: an answer, the script running out, or the sentinel after the last attempt. */
  lemma UnfoldLast(ticker: string, script: seq<ProviderOutcome>, query: Query, attempt: int, retries: int,
                   extended: Result<int, string>)
    requires attempt <= retries
    ensures script == [] ==> Attempts(ticker, script, query, attempt, retries, extended) == FetchRun(ScriptExhausted, [])
    ensures script != [] && script[0].Responds? && HasQuotes(script[0].response) ==>
              Attempts(ticker, script, query, attempt, retries, extended)
              == FetchRun(Resolved(script[0].response), [Call(ticker, query)])
    ensures script != [] && script[0].Responds? && !HasQuotes(script[0].response) && attempt < retries ==>
              Attempts(ticker, script, query, attempt, retries, extended)
              == FetchRun(Resolved(ChartResponse(Some([]), script[0].response.meta)), [Call(ticker, query)])
    ensures script != [] && attempt == retries
            && (script[0].Throws? || (!(script[0].Responds? && HasQuotes(script[0].response)) && extended.Failure?)) ==>
              Attempts(ticker, script, query, attempt, retries, extended) == FetchRun(Resolved(Sentinel), [Call(ticker, query)])
  {
  }

  /**
   * The `for` loop of `fetchChartData`, its counter reset to 0 when the range is
   * extended; `extendedRange` is `extendRange(range)`.
   */
  method AttemptLoop(ticker: string, extendedRange: string, now: int, script: seq<ProviderOutcome>, query0: Query,
                     retries: int) returns (result: FetchResult, events: seq<Event>)
    ensures FetchRun(result, events) == Attempts(ticker, script, query0, 1, retries, CalculateRangeOf(extendedRange, now))
  {
    ghost var extended := CalculateRangeOf(extendedRange, now);
    var query := query0;
    var remaining := script;
    events := [];
    var attempt := 1;
    while attempt <= retries
      invariant 1 <= attempt
      invariant Attempts(ticker, script, query0, 1, retries, extended)
                == Then(events, Attempts(ticker, remaining, query, attempt, retries, extended))
      decreases |remaining|
    {
      UnfoldLast(ticker, remaining, query, attempt, retries, extended);
      if remaining == [] {
        return ScriptExhausted, events;
      }
      ghost var before := events;
      ghost var (q, a, r) := (query, attempt, remaining);
      var outcome := remaining[0];
      remaining := remaining[1..];
      events := events + [Call(ticker, query)];
      var thrown := false;
      if outcome.Throws? {
        thrown := true;
      } else if outcome.RespondsNothing? || !HasQuotes(outcome.response) {
        if attempt == retries {
          var extendedPeriod := CalculateRange(extendedRange, now);
          if extendedPeriod.Failure? {
            thrown := true;
          } else {
            query := query.(period1 := extendedPeriod.value);
            attempt := 0;
            UnfoldExtend(ticker, r, q, retries, extended);
            ThenThen(before, [Call(ticker, q)], Attempts(ticker, remaining, query, 1, retries, extended));
          }
        } else if outcome.RespondsNothing? {
          thrown := true;
        } else {
          return Resolved(ChartResponse(Some([]), outcome.response.meta)), events;
        }
      } else {
        return Resolved(outcome.response), events;
      }
      if thrown {
        if attempt < retries {
          events := events + [Wait(RetryDelayMs)];
          UnfoldRetry(ticker, r, q, a, retries, extended);
          assert events == before + [Call(ticker, q), Wait(RetryDelayMs)];
          ThenThen(before, [Call(ticker, q), Wait(RetryDelayMs)], Attempts(ticker, remaining, query, attempt + 1, retries, extended));
        } else {
          return Resolved(Sentinel), events;
        }
      }
      attempt := attempt + 1;
    }
    return ResolvedUndefined, events;
  }
}
