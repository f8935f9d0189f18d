/** What `fetchChartData` and its helpers guarantee, and the scenarios that show how the loop behaves. */
module ChartFetchProperties {
  import opened Wrappers
  import opened JsDate
  import opened TradingCalendar
  import opened DateRanges
  import opened ChartFetch
  import DateRangeProperties

  // ---------------------------------------------------------------------------
  // Clamping and the ladder

  /** Clamping a range twice is clamping it once. */
  lemma ValidateRangeIdempotent(cfg: RangeConfig, range: string)
    requires ValidConfig(cfg)
    ensures ValidateRange(cfg, ValidateRange(cfg, range)) == ValidateRange(cfg, range)
    ensures ValidateRange(cfg, range) in cfg.intervalsForRange
  {
  }

  /** Clamping an interval twice is clamping it once. */
  lemma ValidateIntervalIdempotent(cfg: RangeConfig, range: string, interval: string)
    requires ValidConfig(cfg) && range in cfg.validRanges
    ensures ValidateInterval(cfg, range, ValidateInterval(cfg, range, interval)) == ValidateInterval(cfg, range, interval)
  {
  }

  /** `max` is the top of the ladder and stays there. */
  lemma ExtendMaxStays()
    ensures ExtendRange("max") == "max"
  {
    IndexOfDistinct(RangeOrder, 8);
  }

  /** The position of a label that occurs once in a list is the position `indexOf` finds. */
  lemma IndexOfDistinct(s: seq<string>, i: int)
    requires 0 <= i < |s|
    requires forall j, k :: 0 <= j < k < |s| ==> s[j] != s[k]
    ensures IndexOf(s, s[i]) == i
  {
    var j := IndexOf(s, s[i]);
    assert s[i] in s;
  }

  /** Every other rung of the ladder moves to the next one. */
  lemma {:induction false} ExtendClimbs(i: int)
    requires 0 <= i < |RangeOrder| - 1
    ensures ExtendRange(RangeOrder[i]) == RangeOrder[i + 1]
  {
    IndexOfDistinct(RangeOrder, i);
  }

  /** A label off the ladder (`1w`, `1m`, `ytd`, ...) extends to `1d`, since `indexOf` gives -1. */
  lemma ExtendOffLadder(range: string)
    requires range !in RangeOrder
    ensures ExtendRange(range) == "1d"
  {
  }

  /** Exactly the ladder's month rungs are labels that `CalculateRange` rejects. */
  lemma {:induction false} LadderRungsCalculable(i: int, now: int)
    requires 0 <= i < |RangeOrder|
    ensures CalculateRangeOf(RangeOrder[i], now).Failure? <==> 2 <= i <= 4
  {
    DateRangeProperties.CalculateRangeDomain(RangeOrder[i], now);
  }

  // ---------------------------------------------------------------------------
  // The attempt loop

  /** The number of provider calls in a run. */
  function CallCount(events: seq<Event>): nat {
    if events == [] then 0 else CallCount(events[..|events| - 1]) + (if events[|events| - 1].Call? then 1 else 0)
  }

  lemma {:induction false} CallCountAppend(a: seq<Event>, b: seq<Event>)
    ensures CallCount(a + b) == CallCount(a) + CallCount(b)
    decreases |b|
  {
    if b != [] {
      var init := b[..|b| - 1];
      CallCountAppend(a, init);
      assert (a + b)[..|a + b| - 1] == a + init;
      assert (a + b)[|a + b| - 1] == b[|b| - 1];
      assert CallCount(a + b) == CallCount(a + init) + (if b[|b| - 1].Call? then 1 else 0);
      assert CallCount(b) == CallCount(init) + (if b[|b| - 1].Call? then 1 else 0);
    } else {
      assert a + b == a;
    }
  }

  /**
   * The loop never rejects, makes one provider call per outcome it consumes, and
   * stops only when it has a result or the script is used up.
   */
  lemma {:induction false} AttemptsCalls(ticker: string, script: seq<ProviderOutcome>, query: Query, attempt: int,
                                         retries: int, extended: Result<int, string>)
    ensures var run := Attempts(ticker, script, query, attempt, retries, extended);
            && !run.result.Rejected?
            && CallCount(run.events) <= |script|
            && (run.result == ScriptExhausted ==> CallCount(run.events) == |script|)
    decreases |script|
  {
    if attempt <= retries && script != [] {
      var step := StepOf(ticker, script[0], query, attempt, retries, extended);
      UnfoldStep(ticker, script, query, attempt, retries, extended);
      if step.Continue? {
        var call := [Call(ticker, query)];
        assert CallCount(call) == 1 by { assert call[..0] == []; }
        assert CallCount(step.events) == 1 by {
          if |step.events| == 2 {
            assert step.events[..1] == call;
          }
        }
        AttemptsCalls(ticker, script[1..], step.query, step.attempt, retries, extended);
        CallCountAppend(step.events, Attempts(ticker, script[1..], step.query, step.attempt, retries, extended).events);
      }
    }
  }

  /** A run that resolves ends with the call whose answer decided it. */
  lemma {:induction false} ResolvedEndsWithCall(ticker: string, script: seq<ProviderOutcome>, query: Query, attempt: int,
                                                retries: int, extended: Result<int, string>)
    ensures var run := Attempts(ticker, script, query, attempt, retries, extended);
            run.result.Resolved? ==> |run.events| > 0 && run.events[|run.events| - 1].Call?
    decreases |script|
  {
    if attempt <= retries && script != [] {
      var step := StepOf(ticker, script[0], query, attempt, retries, extended);
      UnfoldStep(ticker, script, query, attempt, retries, extended);
      if step.Continue? {
        var next := Attempts(ticker, script[1..], step.query, step.attempt, retries, extended).events;
        ResolvedEndsWithCall(ticker, script[1..], step.query, step.attempt, retries, extended);
        if next != [] {
          assert (step.events + next)[|step.events + next| - 1] == next[|next| - 1];
        }
      }
    }
  }

  /** A resolved run with quotes names the provider's answer to one of the calls it made. */
  predicate AnswersLastCall(script: seq<ProviderOutcome>, run: FetchRun) {
    run.result.Resolved? && HasQuotes(run.result.response) ==>
      1 <= CallCount(run.events) <= |script| && script[CallCount(run.events) - 1] == Responds(run.result.response)
  }

  /** One call in front of a run shifts the answer it names one outcome later in the script. */
  lemma AnswersLastCallShift(script: seq<ProviderOutcome>, prefix: seq<Event>, next: FetchRun)
    requires script != [] && CallCount(prefix) == 1
    requires AnswersLastCall(script[1..], next)
    ensures AnswersLastCall(script, Then(prefix, next))
  {
    CallCountAppend(prefix, next.events);
  }

  /** A resolved run with quotes hands back, unchanged, the answer to its last provider call. */
  lemma {:induction false} AttemptsResult(ticker: string, script: seq<ProviderOutcome>, query: Query, attempt: int,
                                          retries: int, extended: Result<int, string>)
    ensures AnswersLastCall(script, Attempts(ticker, script, query, attempt, retries, extended))
    decreases |script|
  {
    if attempt <= retries && script != [] {
      var call := [Call(ticker, query)];
      assert CallCount(call) == 1 by { assert call[..0] == []; }
      var outcome := script[0];
      if outcome.Responds? && HasQuotes(outcome.response) {
      } else if outcome.Throws? || (outcome.RespondsNothing? && attempt != retries) {
        if attempt < retries {
          var waited := call + [Wait(RetryDelayMs)];
          assert CallCount(waited) == 1 by { assert waited[..1] == call; }
          UnfoldRetry(ticker, script, query, attempt, retries, extended);
          AttemptsResult(ticker, script[1..], query, attempt + 1, retries, extended);
          AnswersLastCallShift(script, waited, Attempts(ticker, script[1..], query, attempt + 1, retries, extended));
        }
      } else if attempt == retries && extended.Success? {
        var query' := query.(period1 := extended.value);
        UnfoldExtend(ticker, script, query, retries, extended);
        AttemptsResult(ticker, script[1..], query', 1, retries, extended);
        AnswersLastCallShift(script, call, Attempts(ticker, script[1..], query', 1, retries, extended));
      }
    }
  }

  /** Every other response the loop resolves with has an empty, present quote list. */
  lemma {:induction false} AttemptsEmptyResult(ticker: string, script: seq<ProviderOutcome>, query: Query, attempt: int,
                                               retries: int, extended: Result<int, string>)
    ensures var run := Attempts(ticker, script, query, attempt, retries, extended);
            run.result.Resolved? && !HasQuotes(run.result.response) ==> run.result.response.quotes == Some([])
    decreases |script|
  {
    if attempt <= retries && script != [] {
      var outcome := script[0];
      var rest := script[1..];
      if outcome.Responds? && HasQuotes(outcome.response) {
      } else if outcome.Throws? || (outcome.RespondsNothing? && attempt != retries) {
        if attempt < retries {
          AttemptsEmptyResult(ticker, rest, query, attempt + 1, retries, extended);
        }
      } else if attempt == retries && extended.Success? {
        AttemptsEmptyResult(ticker, rest, query.(period1 := extended.value), 1, retries, extended);
      }
    }
  }


  /**
   * Every call asks for the same ticker, end and interval; its start is the
   * original one or, after an extension, the extended one.
   */
  predicate CallsShareQuery(events: seq<Event>, ticker: string, query: Query, extended: Result<int, string>) {
    forall i :: 0 <= i < |events| && events[i].Call? ==>
      && events[i].ticker == ticker
      && events[i].query.period2 == query.period2
      && events[i].query.interval == query.interval
      && (events[i].query.period1 == query.period1 || (extended.Success? && events[i].query.period1 == extended.value))
  }

  /** Extension changes only the start of the query. */
  lemma {:induction false} ExtensionChangesOnlyStart(ticker: string, script: seq<ProviderOutcome>, query: Query, attempt: int,
                                                     retries: int, extended: Result<int, string>)
    ensures CallsShareQuery(Attempts(ticker, script, query, attempt, retries, extended).events, ticker, query, extended)
    decreases |script|
  {
    if attempt <= retries && script != [] {
      var step := StepOf(ticker, script[0], query, attempt, retries, extended);
      UnfoldStep(ticker, script, query, attempt, retries, extended);
      if step.Continue? {
        var next := Attempts(ticker, script[1..], step.query, step.attempt, retries, extended).events;
        ExtensionChangesOnlyStart(ticker, script[1..], step.query, step.attempt, retries, extended);
        var all := step.events + next;
        forall i | 0 <= i < |all| && all[i].Call?
          ensures all[i].ticker == ticker && all[i].query.period2 == query.period2 && all[i].query.interval == query.interval
          ensures all[i].query.period1 == query.period1 || (extended.Success? && all[i].query.period1 == extended.value)
        {
          if i >= |step.events| {
            assert all[i] == next[i - |step.events|];
          }
        }
      }
    }
  }

  /** A run that is still going starts with a call carrying the current query. */
  lemma FirstEventIsCall(ticker: string, script: seq<ProviderOutcome>, query: Query, attempt: int,
                         retries: int, extended: Result<int, string>)
    requires attempt <= retries
    ensures var run := Attempts(ticker, script, query, attempt, retries, extended);
            (run.events == [] ==> run.result == ScriptExhausted)
            && (run.events != [] ==> run.events[0] == Call(ticker, query))
  {
  }

  /**
   * Every wait lasts 2000 ms, follows a call, and is followed by a call with the
   * same query, unless the script ends there.
   */
  predicate WaitsRetrySameQuery(run: FetchRun) {
    forall i :: 0 <= i < |run.events| && run.events[i].Wait? ==>
      && run.events[i].ms == RetryDelayMs
      && i >= 1 && run.events[i - 1].Call?
      && (i + 1 < |run.events| ==> run.events[i + 1] == run.events[i - 1])
      && (i + 1 == |run.events| ==> run.result == ScriptExhausted)
  }

  /** A throw with attempts left waits 2000 ms and retries with the same query. */
  lemma {:induction false} WaitsThenRetries(ticker: string, script: seq<ProviderOutcome>, query: Query, attempt: int,
                                            retries: int, extended: Result<int, string>)
    ensures WaitsRetrySameQuery(Attempts(ticker, script, query, attempt, retries, extended))
    decreases |script|
  {
    var run := Attempts(ticker, script, query, attempt, retries, extended);
    if attempt <= retries && script != [] {
      var step := StepOf(ticker, script[0], query, attempt, retries, extended);
      UnfoldStep(ticker, script, query, attempt, retries, extended);
      if step.Continue? {
        var k := |step.events|;
        var next := Attempts(ticker, script[1..], step.query, step.attempt, retries, extended);
        WaitsThenRetries(ticker, script[1..], step.query, step.attempt, retries, extended);
        if k == 2 {
          FirstEventIsCall(ticker, script[1..], step.query, step.attempt, retries, extended);
        }
        assert run.events == step.events + next.events;
        forall i | 0 <= i < |run.events| && run.events[i].Wait?
          ensures run.events[i].ms == RetryDelayMs && i >= 1 && run.events[i - 1].Call?
          ensures i + 1 < |run.events| ==> run.events[i + 1] == run.events[i - 1]
          ensures i + 1 == |run.events| ==> run.result == ScriptExhausted
        {
          if i >= k {
            assert run.events[i] == next.events[i - k];
            if i - 1 >= k {
              assert run.events[i - 1] == next.events[i - 1 - k];
            }
            if i + 1 < |run.events| {
              assert run.events[i + 1] == next.events[i + 1 - k];
            }
          }
        }
      }
    }
  }

  /** The call rejects exactly when `CalculateRange(range)` throws, before any provider call. */
  lemma {:induction false} RejectsOnlyOnBadRange(ticker: string, range: string, interval: string, retries: int, now: int,
                                                 script: seq<ProviderOutcome>)
    ensures var run := FetchChartDataOf(ticker, range, interval, retries, now, script);
            && (run.result.Rejected? <==> range !in AcceptedRanges)
            && (run.result.Rejected? ==> run.result.message == "Invalid range: " + range && run.events == [])
  {
    DateRangeProperties.CalculateRangeDomain(range, now);
    match CalculateRangeOf(range, now)
    case Failure(_) =>
    case Success(period1) =>
      var query := Query(period1, LastMarketCloseOf(now) / MsPerSecond, interval);
      AttemptsCalls(ticker, script, query, 1, retries, CalculateRangeOf(ExtendRange(range), now));
  }

  /** With no attempts allowed the loop body never runs and the promise resolves with `undefined`. */
  lemma NoAttemptsResolvesUndefined(ticker: string, range: string, interval: string, retries: int, now: int,
                                    script: seq<ProviderOutcome>)
    requires range in AcceptedRanges && retries < 1
    ensures FetchChartDataOf(ticker, range, interval, retries, now, script) == FetchRun(ResolvedUndefined, [])
  {
    DateRangeProperties.CalculateRangeDomain(range, now);
  }

  // ---------------------------------------------------------------------------
  // Scenarios

  /** Two throws, then an answer with quotes: that answer, after two waits, with no extension. */
  lemma ScenarioTwoThrowsThenData(ticker: string, query: Query, extended: Result<int, string>,
                                  e1: string, e2: string, data: ChartResponse)
    requires HasQuotes(data)
    ensures Attempts(ticker, [Throws(e1), Throws(e2), Responds(data)], query, 1, 3, extended)
            == FetchRun(Resolved(data), [Call(ticker, query), Wait(2000), Call(ticker, query), Wait(2000), Call(ticker, query)])
  {
    var s := [Throws(e1), Throws(e2), Responds(data)];
    var call := Call(ticker, query);
    assert s[1..] == [Throws(e2), Responds(data)] && s[1..][1..] == [Responds(data)];
    assert Attempts(ticker, s[1..][1..], query, 3, 3, extended) == FetchRun(Resolved(data), [call]);
    assert Attempts(ticker, s[1..], query, 2, 3, extended) == FetchRun(Resolved(data), [call, Wait(2000), call]);
  }

  /** An empty answer before the last attempt is returned at once with its metadata, without extension. */
  lemma ScenarioEmptyFirstAnswer(ticker: string, query: Query, extended: Result<int, string>, data: ChartResponse,
                                 script: seq<ProviderOutcome>, retries: int)
    requires retries > 1 && !HasQuotes(data)
    ensures Attempts(ticker, [Responds(data)] + script, query, 1, retries, extended)
            == FetchRun(Resolved(ChartResponse(Some([]), data.meta)), [Call(ticker, query)])
  {
    assert ([Responds(data)] + script)[0] == Responds(data);
  }

  /**
   * Two throws and then an empty answer to the last attempt: the start moves to
   * the extended one, the count restarts, and an empty answer to the new first
   * attempt is returned with its metadata.
   */
  lemma {:induction false} ScenarioExtendThenEmpty(ticker: string, query: Query, extendedStart: int, e1: string, e2: string,
                                                   empty1: ChartResponse, empty2: ChartResponse)
    requires !HasQuotes(empty1) && !HasQuotes(empty2)
    ensures var query' := query.(period1 := extendedStart);
            Attempts(ticker, [Throws(e1), Throws(e2), Responds(empty1), Responds(empty2)], query, 1, 3, Success(extendedStart))
            == FetchRun(Resolved(ChartResponse(Some([]), empty2.meta)),
                        [Call(ticker, query), Wait(2000), Call(ticker, query), Wait(2000), Call(ticker, query), Call(ticker, query')])
  {
    var ext := Success(extendedStart);
    var query' := query.(period1 := extendedStart);
    var script := [Throws(e1), Throws(e2), Responds(empty1), Responds(empty2)];
    var call := Call(ticker, query);
    assert script[1..] == [Throws(e2), Responds(empty1), Responds(empty2)];
    assert script[1..][1..] == [Responds(empty1), Responds(empty2)];
    assert script[1..][1..][1..] == [Responds(empty2)];
    var last := Attempts(ticker, [Responds(empty2)], query', 1, 3, ext);
    assert last == FetchRun(Resolved(ChartResponse(Some([]), empty2.meta)), [Call(ticker, query')]);
    assert Attempts(ticker, script[1..][1..], query, 3, 3, ext) == Then([call], last);
    assert Attempts(ticker, script[1..], query, 2, 3, ext) == Then([call, Wait(2000)], Then([call], last));
  }

  /** For `1d` the extension is `5d`, which `CalculateRange` accepts. */
  lemma {:induction false} OneDayExtendsToFiveDays(now: int)
    ensures ExtendRange("1d") == "5d"
    ensures CalculateRangeOf("1d", now).Success? && CalculateRangeOf("5d", now).Success?
  {
    ExtendClimbs(0);
    DateRangeProperties.CalculateRangeDomain("1d", now);
    DateRangeProperties.CalculateRangeDomain("5d", now);
  }

  /**
   * `5d` extends to `1mo`, which `CalculateRange` rejects inside the `try`: an
   * empty answer on the last attempt ends in the `{ quotes: [], meta: {} }` result.
   */
  lemma {:induction false} ScenarioLadderLabelRejected(ticker: string, interval: string, now: int, e1: string, e2: string,
                                                       empty: ChartResponse)
    requires !HasQuotes(empty)
    ensures FetchChartDataOf(ticker, "5d", interval, 3, now, [Throws(e1), Throws(e2), Responds(empty)]).result
            == Resolved(Sentinel)
  {
    ExtendClimbs(1);
    LadderRungsCalculable(2, now);
    DateRangeProperties.CalculateRangeDomain("5d", now);
    var script := [Throws(e1), Throws(e2), Responds(empty)];
    var ext := CalculateRangeOf("1mo", now);
    var query := Query(CalculateRangeOf("5d", now).value, LastMarketCloseOf(now) / MsPerSecond, interval);
    assert script[1..] == [Throws(e2), Responds(empty)];
    assert script[1..][1..] == [Responds(empty)];
    assert Attempts(ticker, script[1..][1..], query, 3, 3, ext).result == Resolved(Sentinel);
    assert Attempts(ticker, script[1..], query, 2, 3, ext).result == Resolved(Sentinel);
    assert Attempts(ticker, script, query, 1, 3, ext).result == Resolved(Sentinel);
  }


  /** A provider that keeps throwing: after `retries - attempt + 1` calls, the empty result. */
  lemma {:induction false} ScenarioAlwaysThrows(ticker: string, script: seq<ProviderOutcome>, query: Query, attempt: int,
                                                retries: int, extended: Result<int, string>)
    requires 1 <= attempt <= retries && |script| > retries - attempt
    requires forall i :: 0 <= i < |script| ==> script[i].Throws?
    ensures var run := Attempts(ticker, script, query, attempt, retries, extended);
            run.result == Resolved(Sentinel) && CallCount(run.events) == retries - attempt + 1
    decreases retries - attempt
  {
    var call := [Call(ticker, query)];
    assert CallCount(call) == 1 by { assert call[..0] == []; }
    if attempt < retries {
      var waited := call + [Wait(RetryDelayMs)];
      var next := Attempts(ticker, script[1..], query, attempt + 1, retries, extended);
      assert CallCount(waited) == 1 by { assert waited[..1] == call; }
      ScenarioAlwaysThrows(ticker, script[1..], query, attempt + 1, retries, extended);
      CallCountAppend(waited, next.events);
    }
  }

  /** `n` throws. */
  function Throwing(n: nat, message: string): (s: seq<ProviderOutcome>)
    ensures |s| == n && forall i :: 0 <= i < n ==> s[i] == Throws(message)
  {
    if n == 0 then [] else [Throws(message)] + Throwing(n - 1, message)
  }

  /** `rounds` rounds of throwing on every attempt but the last and answering empty on the last. */
  function EmptyOnLastAttempt(retries: nat, rounds: nat, message: string, empty: ChartResponse): seq<ProviderOutcome> {
    if rounds == 0 then []
    else if retries == 0 then []
    else Throwing(retries - 1, message) + [Responds(empty)] + EmptyOnLastAttempt(retries, rounds - 1, message, empty)
  }

  /** Throws before the last attempt lead, one call and one wait each, to the last attempt. */
  lemma {:induction false} ThrowsReachLastAttempt(ticker: string, rest: seq<ProviderOutcome>, query: Query, attempt: int,
                                                  retries: int, extended: Result<int, string>, message: string)
    requires 1 <= attempt <= retries
    ensures Attempts(ticker, Throwing(retries - attempt, message) + rest, query, attempt, retries, extended).result
            == Attempts(ticker, rest, query, retries, retries, extended).result
    decreases retries - attempt
  {
    if attempt < retries {
      var s := Throwing(retries - attempt, message) + rest;
      assert s[0] == Throws(message);
      assert s[1..] == Throwing(retries - attempt - 1, message) + rest;
      ThrowsReachLastAttempt(ticker, rest, query, attempt + 1, retries, extended, message);
    } else {
      assert Throwing(0, message) + rest == rest;
    }
  }

  /**
   * Whenever the extended range can be computed, a provider that throws until the
   * last attempt and then answers empty keeps the loop extending and restarting
   * for as long as it is called: the run never settles.
   */
  lemma {:induction false} ScenarioNeverSettles(ticker: string, query: Query, retries: int, extended: Result<int, string>,
                                                rounds: nat, message: string, empty: ChartResponse)
    requires retries >= 1 && extended.Success? && !HasQuotes(empty)
    ensures Attempts(ticker, EmptyOnLastAttempt(retries, rounds, message, empty), query, 1, retries, extended).result
            == ScriptExhausted
    decreases rounds
  {
    var s := EmptyOnLastAttempt(retries, rounds, message, empty);
    if rounds > 0 {
      var next := EmptyOnLastAttempt(retries, rounds - 1, message, empty);
      var tail := [Responds(empty)] + next;
      assert s == Throwing(retries - 1, message) + tail;
      ThrowsReachLastAttempt(ticker, tail, query, 1, retries, extended, message);
      assert tail[0] == Responds(empty) && tail[1..] == next;
      ScenarioNeverSettles(ticker, query.(period1 := extended.value), retries, extended, rounds - 1, message, empty);
    }
  }
}
