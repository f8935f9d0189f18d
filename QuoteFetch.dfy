/**
 * lib/yahoo-finance/fetchQuote.ts: one call to the quote provider, with every
 * failure re-thrown as an error whose message names the ticker.
 */
module QuoteFetch {
  import opened Wrappers

  /**
   * The parts of a provider quote the dashboard reads; the rest is passed through untouched.
   * `regularMarketPrice` and `currency` are `None` when the response leaves them `undefined`.
   */
  datatype Quote = Quote(symbol: string, shortName: string, fullExchangeName: string,
                         regularMarketPrice: Option<real>, currency: Option<string>)

  /** What the quote provider does when called. */
  datatype QuoteOutcome =
    | Answers(quote: Quote)       // a truthy response
    | AnswersNothing              // a falsy response
    | ThrowsError(message: string) // throws an `Error`
    | ThrowsValue                 // throws something that is not an `Error`

  /** A thrown value, as the `catch` sees it. */
  datatype Thrown = ErrorObject(message: string) | OtherValue

  const NoDataMessage: string := "No data returned from Yahoo Finance API"
  const WrapPrefix: string := "Failed to fetch stock quote for "

  /** The body of the `try`: the response, or what it throws. */
  function TryQuote(outcome: QuoteOutcome): (r: Result<Quote, Thrown>)
    ensures r.Success? <==> outcome.Answers?
  {
    match outcome
    case Answers(quote) => Success(quote)
    case AnswersNothing => Failure(ErrorObject(NoDataMessage))
    case ThrowsError(message) => Failure(ErrorObject(message))
    case ThrowsValue => Failure(OtherValue)
  }

  /** The message of the error the `catch` throws. */
  function WrapError(ticker: string, thrown: Thrown): (message: string)
    ensures |message| >= |WrapPrefix| + |ticker|
    ensures message[..|WrapPrefix|] == WrapPrefix
    ensures message[|WrapPrefix|..|WrapPrefix| + |ticker|] == ticker
  {
    match thrown
    case ErrorObject(m) => WrapPrefix + ticker + ": " + m
    case OtherValue => WrapPrefix + ticker + ": Unknown error"
  }

  /** `fetchQuote(ticker)`: the quote, or the message of the error its promise rejects with. */
  function FetchQuote(ticker: string, outcome: QuoteOutcome): (r: Result<Quote, string>)
    ensures r.Success? <==> outcome.Answers?
    ensures outcome.Answers? ==> r.value == outcome.quote
  {
    match TryQuote(outcome)
    case Success(quote) => Success(quote)
    case Failure(thrown) => Failure(WrapError(ticker, thrown))
  }

  /** `sub` occurs in `s` at position `i`. */
  predicate OccursAt(s: string, sub: string, i: int) {
    0 <= i <= |s| - |sub| && s[i..i + |sub|] == sub
  }

  /** `sub` occurs in `s`. */
  ghost predicate Contains(s: string, sub: string) {
    exists i :: OccursAt(s, sub, i)
  }

  /** A falsy response fails with the no-data message, re-wrapped by the `catch`. */
  lemma FailureNoData(ticker: string)
    ensures FetchQuote(ticker, AnswersNothing)
            == Failure("Failed to fetch stock quote for " + ticker + ": No data returned from Yahoo Finance API")
  {
    assert ": " + NoDataMessage == ": No data returned from Yahoo Finance API";
    assert WrapPrefix + ticker + ": " + NoDataMessage == WrapPrefix + ticker + (": " + NoDataMessage);
  }

  /** A thrown `Error` fails with its message behind the prefix. */
  lemma FailureError(ticker: string, message: string)
    ensures FetchQuote(ticker, ThrowsError(message)) == Failure("Failed to fetch stock quote for " + ticker + ": " + message)
  {
  }

  /** Any other thrown value fails with `Unknown error`. */
  lemma FailureUnknown(ticker: string)
    ensures FetchQuote(ticker, ThrowsValue) == Failure("Failed to fetch stock quote for " + ticker + ": Unknown error")
  {
  }

  /** Every failure message contains the ticker. */
  lemma {:induction false} FailureNamesTicker(ticker: string, outcome: QuoteOutcome)
    requires FetchQuote(ticker, outcome).Failure?
    ensures Contains(FetchQuote(ticker, outcome).error, ticker)
  {
    var message := FetchQuote(ticker, outcome).error;
    assert OccursAt(message, ticker, |WrapPrefix|);
  }

  /** A provider with no data for `INVALIDTICKER` makes the call fail with a message naming it. */
  lemma InvalidTickerScenario()
    ensures FetchQuote("INVALIDTICKER", AnswersNothing)
            == Failure("Failed to fetch stock quote for " + "INVALIDTICKER" + ": No data returned from Yahoo Finance API")
    ensures Contains(FetchQuote("INVALIDTICKER", AnswersNothing).error, "INVALIDTICKER")
  {
    FailureNoData("INVALIDTICKER");
    FailureNamesTicker("INVALIDTICKER", AnswersNothing);
  }
}
