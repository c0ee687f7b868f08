/**
 * The request loop shared by the data services: one GET per attempt, retry
 * of transport failures and of retryable responses with a backoff wait, and
 * the classification of the final error.
 *
 * The HTTP client is replaced by a script: `outcomes[k]` is what the
 * (k+1)-th call produced, either a raised transport failure or a response
 * whose body the parser did or did not understand. `draws[k]` is the
 * uniform draw the (k+1)-th backoff uses.
 */
module Transport {
  import opened Text
  import opened Config
  import opened Errors
  import opened Types
  import Http

  const UNPARSEABLE_RESPONSE: string := "UNPARSEABLE_RESPONSE"
  const EXCERPT_LIMIT: nat := 2048
  const REQUEST_FAILED: string := "要求の実行に失敗しました。"

  /** What the response parser made of a body. */
  datatype ParseOutcome = Parsed(parsed: ParsedResponse) | ParseFailed(exceptionName: string)

  datatype HttpResponse = HttpResponse(
    statusCode: int,
    text: string,
    retryAfter: Option<string>,
    /** The Retry-After header read as an HTTP date, minus the current time. */
    retryAfterDate: Option<real>,
    requestUrl: string,
    parse: ParseOutcome)

  datatype Outcome =
    | Raised(failure: Http.TransportFailure, message: string)
    | Responded(response: HttpResponse)

  /** A successful request: the parsed body, the request URL and the raw text. */
  datatype Success = Success(parsed: ParsedResponse, requestUrl: string, rawText: string)

  /** How many attempts a transport failure may use. */
  function EffectiveTransportMaxAttempts(rc: RetryConfig): (n: int)
    ensures rc.transportMaxAttempts.None? ==> n == rc.maxAttempts
    ensures rc.transportMaxAttempts.Some? ==> n >= 1 && n >= rc.transportMaxAttempts.value
    ensures rc.transportMaxAttempts.Some? && rc.transportMaxAttempts.value >= 1 ==> n == rc.transportMaxAttempts.value
  {
    match rc.transportMaxAttempts
    case None => rc.maxAttempts
    case Some(configured) => if configured >= 1 then configured else 1
  }

  /** The loop runs `max(max_attempts, transport cap)` times at most. */
  function TotalAttempts(rc: RetryConfig): (n: int)
    ensures n >= rc.maxAttempts && n >= EffectiveTransportMaxAttempts(rc)
    ensures n == rc.maxAttempts || n == EffectiveTransportMaxAttempts(rc)
  {
    var t := EffectiveTransportMaxAttempts(rc);
    if rc.maxAttempts >= t then rc.maxAttempts else t
  }

  /** Full-jitter backoff with base `base_delay * max(0, jitter_ratio)` and cap `cap_delay`. */
  function ComputeBackoff(attempt: nat, rc: RetryConfig, u: real): (seconds: real)
    requires 0.0 <= u < 1.0
    ensures rc.baseDelay >= 0.0 && rc.capDelay >= 0.0 ==> 0.0 <= seconds <= rc.capDelay
  {
    var ratio := Http.Max(0.0, rc.jitterRatio);
    var base := rc.baseDelay * ratio;
    var seconds := Http.FullJitterBackoff(attempt, base, rc.capDelay, u);
    if rc.baseDelay >= 0.0 && rc.capDelay >= 0.0 then
      assert base >= 0.0;
      Http.BackoffBounds(attempt, base, rc.capDelay, u);
      seconds
    else seconds
  }

  function Take(s: string, n: nat): (r: string)
    ensures |r| <= n && |r| <= |s| && r == s[..|r|]
    ensures |s| >= n ==> |r| == n
    ensures |s| < n ==> r == s
  {
    if |s| <= n then s else s[..n]
  }

  /**
   * The parser's result, or, when it fails, a stand-in carrying the HTTP
   * status, the UNPARSEABLE_RESPONSE id, no rows and the text's first
   * 2048 characters.
   */
  function ParseWithFallback(response: HttpResponse): (p: ParsedResponse)
    ensures response.parse.Parsed? ==> p == response.parse.parsed
    ensures response.parse.ParseFailed? ==>
      && p.status == response.statusCode
      && p.messageId == UNPARSEABLE_RESPONSE
      && p.rows == [] && p.parameters == [] && p.nextPosition.None? && p.dateRaw.None?
      && |p.excerpt| <= EXCERPT_LIMIT && |p.excerpt| <= |response.text|
      && p.excerpt == response.text[..|p.excerpt|]
      && (|response.text| >= EXCERPT_LIMIT ==> |p.excerpt| == EXCERPT_LIMIT)
  {
    match response.parse
    case Parsed(parsed) => parsed
    case ParseFailed(name) =>
      ParsedResponse(
        response.statusCode,
        UNPARSEABLE_RESPONSE,
        "APIレスポンスの本文を解析できませんでした。fallback_status=" + IntToString(response.statusCode)
          + ", parser_error=" + name,
        None, [], None, [], None,
        Take(response.text, EXCERPT_LIMIT))
  }

  /** The `BojApiError` subclass for a failed response. */
  function MakeApiError(parsed: ParsedResponse, requestUrl: string, captureFullResponse: bool, rawText: string): (e: BojError)
    ensures e.ApiError?
    ensures parsed.messageId == UNPARSEABLE_RESPONSE ==> e.kind == Gateway
    ensures parsed.messageId != UNPARSEABLE_RESPONSE ==>
      && (parsed.status == 400 <==> e.kind == BadRequest)
      && (parsed.status == 500 <==> e.kind == ServerError)
      && (parsed.status == 503 <==> e.kind == Unavailable)
      && (parsed.status !in {400, 500, 503} <==> e.kind == GenericApiError)
    ensures e.status == parsed.status && e.messageId == parsed.messageId
    ensures e.requestUrl == requestUrl && e.excerpt == parsed.excerpt
    ensures e.rawResponse == if captureFullResponse then Some(rawText) else None
  {
    var kind :=
      if parsed.messageId == UNPARSEABLE_RESPONSE then Gateway
      else if parsed.status == 400 then BadRequest
      else if parsed.status == 500 then ServerError
      else if parsed.status == 503 then Unavailable
      else GenericApiError;
    ApiError(kind, parsed.status, parsed.messageId, requestUrl, parsed.excerpt,
             if captureFullResponse then Some(rawText) else None)
  }

  /** Whether a response asks for another attempt (before the attempt budget is consulted). */
  function ShouldRetryResponse(parsedStatus: int, httpStatus: int, hasRetryAfter: bool, rc: RetryConfig, attempt: int): (r: bool)
    ensures parsedStatus in {500, 503} ==> r
    ensures parsedStatus !in {500, 503} && httpStatus == 403 && rc.retryOn403 && hasRetryAfter ==>
      (r <==> attempt < rc.retryOn403MaxAttempts)
    ensures parsedStatus !in {500, 503} && !(httpStatus == 403 && rc.retryOn403 && hasRetryAfter) ==>
      (r <==> httpStatus in {429, 500, 503})
  {
    if parsedStatus in {500, 503} then true
    else if httpStatus == 403 && rc.retryOn403 && hasRetryAfter then attempt < rc.retryOn403MaxAttempts
    else Http.ShouldRetryHttpStatus(httpStatus, rc.retryOn403, hasRetryAfter)
  }

  /** What one attempt leads to: a wait and another attempt, or the end of the loop. */
  datatype Step = Retry(wait: real) | Stop(result: Result<Success>)

  function FailureName(f: Http.TransportFailure): string {
    match f
    case Timeout => "TimeoutException"
    case ConnectFailure => "ConnectError"
    case ReadFailure => "ReadError"
    case RemoteProtocolFailure => "RemoteProtocolError"
    case WriteFailure => "WriteError"
    case LocalProtocolFailure => "LocalProtocolError"
    case ProxyFailure => "ProxyError"
    case UnsupportedProtocol => "UnsupportedProtocol"
    case DecodingFailure => "DecodingError"
    case TooManyRedirects => "TooManyRedirects"
    case OtherFailure => "Exception"
  }

  function TransportFailed(failure: Http.TransportFailure, message: string): BojError {
    TransportError(message, Some(FailureName(failure)))
  }

  function StepAt(rc: RetryConfig, captureFullResponse: bool, outcome: Outcome, attempt: nat, u: real): (s: Step)
    requires 0.0 <= u < 1.0
    ensures outcome.Raised? ==>
      (s.Retry? <==> Http.ShouldRetryTransportError(outcome.failure) && attempt < EffectiveTransportMaxAttempts(rc))
    ensures outcome.Raised? && s.Stop? ==> s.result == Err(TransportFailed(outcome.failure, outcome.message))
    ensures outcome.Raised? && s.Retry? ==> s.wait == ComputeBackoff(attempt, rc, u)
    ensures outcome.Responded? && s.Retry? ==> attempt < rc.maxAttempts
    ensures outcome.Responded? && s.Stop? && s.result.Ok? ==> s.result.value.parsed.status == 200
    ensures outcome.Responded? ==>
      var response := outcome.response;
      var parsed := ParseWithFallback(response);
      var retry := ShouldRetryResponse(parsed.status, response.statusCode, response.retryAfter.Some?, rc, attempt)
                   && attempt < rc.maxAttempts;
      && (retry ==> s == Retry(Http.DecideWaitSeconds(Http.ParseRetryAfter(response.retryAfter, response.retryAfterDate),
                                                      0.0, ComputeBackoff(attempt, rc, u)).seconds))
      && (!retry && parsed.status != 200 ==>
            s == Stop(Err(MakeApiError(parsed, response.requestUrl, captureFullResponse, response.text))))
      && (!retry && parsed.status == 200 ==> s == Stop(Ok(Success(parsed, response.requestUrl, response.text))))
  {
    match outcome
    case Raised(failure, message) =>
      if Http.ShouldRetryTransportError(failure) && attempt < EffectiveTransportMaxAttempts(rc) then
        Retry(ComputeBackoff(attempt, rc, u))
      else Stop(Err(TransportFailed(failure, message)))
    case Responded(response) =>
      var parsed := ParseWithFallback(response);
      if ShouldRetryResponse(parsed.status, response.statusCode, response.retryAfter.Some?, rc, attempt)
         && attempt < rc.maxAttempts then
        var retryAfter := Http.ParseRetryAfter(response.retryAfter, response.retryAfterDate);
        Retry(Http.DecideWaitSeconds(retryAfter, 0.0, ComputeBackoff(attempt, rc, u)).seconds)
      else if parsed.status != 200 then
        Stop(Err(MakeApiError(parsed, response.requestUrl, captureFullResponse, response.text)))
      else Stop(Ok(Success(parsed, response.requestUrl, response.text)))
  }

  /** The whole request: its result, the number of GET calls and the waits slept between them. */
  datatype Run = Run(result: Result<Success>, calls: nat, waits: seq<real>)

  ghost predicate Scripted(rc: RetryConfig, outcomes: seq<Outcome>, draws: seq<real>) {
    |outcomes| >= TotalAttempts(rc) && |draws| >= TotalAttempts(rc)
    && forall k :: 0 <= k < |draws| ==> 0.0 <= draws[k] < 1.0
  }

  /** The decision taken at every attempt the budget allows: attempt k+1 at index k. */
  ghost function Decisions(rc: RetryConfig, captureFullResponse: bool, outcomes: seq<Outcome>, draws: seq<real>)
    : (steps: seq<Step>)
    requires Scripted(rc, outcomes, draws)
    ensures |steps| == if TotalAttempts(rc) >= 0 then TotalAttempts(rc) else 0
    ensures forall k :: 0 <= k < |steps| ==> steps[k] == StepAt(rc, captureFullResponse, outcomes[k], k + 1, draws[k])
  {
    var n := if TotalAttempts(rc) >= 0 then TotalAttempts(rc) else 0;
    seq(n, k requires 0 <= k < n => StepAt(rc, captureFullResponse, outcomes[k], k + 1, draws[k]))
  }

  /** The last transport failure seen once `outcome` has been tried. */
  function NextLast(outcome: Outcome, last: Option<Outcome>): Option<Outcome> {
    if outcome.Raised? then Some(outcome) else last
  }

  /** The attempts from `attempt` on, following the decisions `steps`, given the last transport failure seen so far. */
  ghost function RunOver(steps: seq<Step>, outcomes: seq<Outcome>, attempt: nat, last: Option<Outcome>): Run
    requires |outcomes| >= |steps| && attempt >= 1
    decreases |steps| + 1 - attempt
  {
    if attempt > |steps| then
      match last
      case Some(Raised(failure, message)) => Run(Err(TransportFailed(failure, message)), 0, [])
      case _ => Run(Err(TransportError(REQUEST_FAILED, None)), 0, [])
    else
      match steps[attempt - 1]
      case Stop(result) => Run(result, 1, [])
      case Retry(wait) =>
        var rest := RunOver(steps, outcomes, attempt + 1, NextLast(outcomes[attempt - 1], last));
        Run(rest.result, rest.calls + 1, [wait] + rest.waits)
  }

  /** The attempts from `attempt` on, given the last transport failure seen so far. */
  ghost function RunFrom(rc: RetryConfig, captureFullResponse: bool, outcomes: seq<Outcome>, draws: seq<real>,
                         attempt: nat, last: Option<Outcome>): Run
    requires Scripted(rc, outcomes, draws) && attempt >= 1
  {
    RunOver(Decisions(rc, captureFullResponse, outcomes, draws), outcomes, attempt, last)
  }

  ghost function Prepend(calls: nat, waits: seq<real>, run: Run): Run {
    Run(run.result, run.calls + calls, waits + run.waits)
  }

  /** One attempt of RunFrom, unfolded. */
  lemma RunFromUnfold(rc: RetryConfig, captureFullResponse: bool, outcomes: seq<Outcome>, draws: seq<real>,
                      attempt: nat, last: Option<Outcome>)
    requires Scripted(rc, outcomes, draws) && 1 <= attempt <= TotalAttempts(rc)
    ensures var outcome := outcomes[attempt - 1];
      var s := StepAt(rc, captureFullResponse, outcome, attempt, draws[attempt - 1]);
      var run := RunFrom(rc, captureFullResponse, outcomes, draws, attempt, last);
      && (s.Stop? ==> run == Run(s.result, 1, []))
      && (s.Retry? ==> run == Prepend(1, [s.wait], RunFrom(rc, captureFullResponse, outcomes, draws, attempt + 1,
                                                           NextLast(outcome, last))))
  {
  }

  /** A retried attempt moves one call and one wait from RunFrom into the prefix. */
  lemma RetryStep(rc: RetryConfig, captureFullResponse: bool, outcomes: seq<Outcome>, draws: seq<real>,
                  attempt: nat, last: Option<Outcome>, calls: nat, waits: seq<real>)
    requires Scripted(rc, outcomes, draws) && 1 <= attempt <= TotalAttempts(rc)
    requires StepAt(rc, captureFullResponse, outcomes[attempt - 1], attempt, draws[attempt - 1]).Retry?
    ensures var outcome := outcomes[attempt - 1];
      var wait := StepAt(rc, captureFullResponse, outcome, attempt, draws[attempt - 1]).wait;
      Prepend(calls, waits, RunFrom(rc, captureFullResponse, outcomes, draws, attempt, last))
      == Prepend(calls + 1, waits + [wait],
                 RunFrom(rc, captureFullResponse, outcomes, draws, attempt + 1,
                         NextLast(outcome, last)))
  {
    RunFromUnfold(rc, captureFullResponse, outcomes, draws, attempt, last);
    var outcome := outcomes[attempt - 1];
    var wait := StepAt(rc, captureFullResponse, outcome, attempt, draws[attempt - 1]).wait;
    var next := RunFrom(rc, captureFullResponse, outcomes, draws, attempt + 1,
                        NextLast(outcome, last));
    assert waits + ([wait] + next.waits) == (waits + [wait]) + next.waits;
  }

  /** Past the last attempt, RunFrom reports the last transport failure, or a generic one. */
  lemma RunFromEnd(rc: RetryConfig, captureFullResponse: bool, outcomes: seq<Outcome>, draws: seq<real>,
                   attempt: nat, last: Option<Outcome>)
    requires Scripted(rc, outcomes, draws) && attempt >= 1 && attempt > TotalAttempts(rc)
    requires last.None? || last.value.Raised?
    ensures RunFrom(rc, captureFullResponse, outcomes, draws, attempt, last)
      == Run(Err(if last.Some? then TransportFailed(last.value.failure, last.value.message)
                 else TransportError(REQUEST_FAILED, None)), 0, [])
  {
  }

  /** The attempt loop of a synchronous GET, proved to follow RunFrom from the first attempt. */
  method PerformSyncRequest(rc: RetryConfig, captureFullResponse: bool, outcomes: seq<Outcome>, draws: seq<real>)
    returns (result: Result<Success>, calls: nat, waits: seq<real>)
    requires Scripted(rc, outcomes, draws)
    ensures Run(result, calls, waits) == RunFrom(rc, captureFullResponse, outcomes, draws, 1, None)
  {
    var last: Option<Outcome> := None;
    var total := TotalAttempts(rc);
    calls, waits := 0, [];
    var attempt := 1;
    while attempt <= total
      invariant 1 <= attempt && (total >= 0 ==> attempt <= total + 1) && calls == attempt - 1
      invariant last.None? || last.value.Raised?
      invariant RunFrom(rc, captureFullResponse, outcomes, draws, 1, None)
        == Prepend(calls, waits, RunFrom(rc, captureFullResponse, outcomes, draws, attempt, last))
      decreases total + 1 - attempt
    {
      var outcome := outcomes[attempt - 1];
      var step := StepAt(rc, captureFullResponse, outcome, attempt, draws[attempt - 1]);
      calls := calls + 1;
      if step.Stop? {
        RunFromUnfold(rc, captureFullResponse, outcomes, draws, attempt, last);
        result := step.result;
        return;
      }
      RetryStep(rc, captureFullResponse, outcomes, draws, attempt, last, calls - 1, waits);
      waits := waits + [step.wait];
      if outcome.Raised? {
        last := Some(outcome);
      }
      attempt := attempt + 1;
    }
    RunFromEnd(rc, captureFullResponse, outcomes, draws, attempt, last);
    if last.Some? {
      result := Err(TransportFailed(last.value.failure, last.value.message));
    } else {
      result := Err(TransportError(REQUEST_FAILED, None));
    }
  }

  /** No decision retries on the last attempt the budget allows. */
  ghost predicate WithinBudget(steps: seq<Step>) {
    forall k :: 0 <= k < |steps| && steps[k].Retry? ==> k + 1 < |steps|
  }

  /**
   * Whatever the decisions, as long as the last one stops, the run from any
   * attempt makes at least one call, no more than the attempts left, and
   * sleeps once between consecutive calls.
   */
  lemma {:induction false} RunOverShape(steps: seq<Step>, outcomes: seq<Outcome>, attempt: nat, last: Option<Outcome>)
    requires |outcomes| >= |steps| && 1 <= attempt <= |steps| && WithinBudget(steps)
    ensures var run := RunOver(steps, outcomes, attempt, last);
      1 <= run.calls <= |steps| - attempt + 1 && |run.waits| == run.calls - 1
    decreases |steps| - attempt
  {
    if steps[attempt - 1].Retry? {
      RunOverShape(steps, outcomes, attempt + 1, NextLast(outcomes[attempt - 1], last));
    }
  }

  /** The decisions of the attempt loop never retry past the total budget. */
  lemma DecisionsWithinBudget(rc: RetryConfig, captureFullResponse: bool, outcomes: seq<Outcome>, draws: seq<real>)
    requires Scripted(rc, outcomes, draws)
    ensures WithinBudget(Decisions(rc, captureFullResponse, outcomes, draws))
  {
    var steps := Decisions(rc, captureFullResponse, outcomes, draws);
    forall k | 0 <= k < |steps| && steps[k].Retry?
      ensures k + 1 < |steps|
    {
      RetryBeforeLast(rc, captureFullResponse, outcomes[k], k + 1, draws[k]);
    }
  }

  /**
   * With a positive budget the loop always ends inside it: between 1 and
   * `max(max_attempts, transport cap)` calls, one wait between consecutive
   * calls.
   */
  lemma RunFromShape(rc: RetryConfig, captureFullResponse: bool, outcomes: seq<Outcome>,
                     draws: seq<real>, attempt: nat, last: Option<Outcome>)
    requires Scripted(rc, outcomes, draws) && 1 <= attempt <= TotalAttempts(rc)
    ensures var run := RunFrom(rc, captureFullResponse, outcomes, draws, attempt, last);
      1 <= run.calls <= TotalAttempts(rc) - attempt + 1 && |run.waits| == run.calls - 1
  {
    DecisionsWithinBudget(rc, captureFullResponse, outcomes, draws);
    RunOverShape(Decisions(rc, captureFullResponse, outcomes, draws), outcomes, attempt, last);
  }

  /** An attempt that is retried is never the last one the budget allows. */
  lemma RetryBeforeLast(rc: RetryConfig, captureFullResponse: bool, outcome: Outcome, attempt: nat, u: real)
    requires 0.0 <= u < 1.0 && StepAt(rc, captureFullResponse, outcome, attempt, u).Retry?
    ensures attempt < TotalAttempts(rc)
  {
  }

  lemma CallsWithinBudget(rc: RetryConfig, captureFullResponse: bool, outcomes: seq<Outcome>, draws: seq<real>)
    requires Scripted(rc, outcomes, draws)
    ensures var run := RunFrom(rc, captureFullResponse, outcomes, draws, 1, None);
      && (TotalAttempts(rc) >= 1 ==> 1 <= run.calls <= TotalAttempts(rc) && |run.waits| == run.calls - 1)
      && (TotalAttempts(rc) < 1 ==> run == Run(Err(TransportError(REQUEST_FAILED, None)), 0, []))
  {
    if TotalAttempts(rc) >= 1 {
      RunFromShape(rc, captureFullResponse, outcomes, draws, 1, None);
    } else {
      RunFromEnd(rc, captureFullResponse, outcomes, draws, 1, None);
    }
  }

  /** Decisions that retry up to attempt `stop` and stop there end the run at `stop`, with that decision's result. */
  lemma {:induction false} RunOverRetriesUntil(steps: seq<Step>, outcomes: seq<Outcome>, attempt: nat,
                                               last: Option<Outcome>, stop: nat)
    requires |outcomes| >= |steps| && 1 <= attempt <= stop <= |steps|
    requires forall k :: attempt - 1 <= k < stop - 1 ==> steps[k].Retry?
    requires steps[stop - 1].Stop?
    ensures var run := RunOver(steps, outcomes, attempt, last);
      run.calls == stop - attempt + 1 && run.result == steps[stop - 1].result
    decreases stop - attempt
  {
    if attempt < stop {
      RunOverRetriesUntil(steps, outcomes, attempt + 1, NextLast(outcomes[attempt - 1], last), stop);
    }
  }

  /** When every decision that stops with success carries STATUS 200, so does the run. */
  lemma {:induction false} RunOverSucceeds(steps: seq<Step>, outcomes: seq<Outcome>, attempt: nat, last: Option<Outcome>)
    requires |outcomes| >= |steps| && attempt >= 1
    requires forall k :: 0 <= k < |steps| && steps[k].Stop? && steps[k].result.Ok? ==>
      steps[k].result.value.parsed.status == 200
    ensures var run := RunOver(steps, outcomes, attempt, last);
      run.result.Ok? ==> run.result.value.parsed.status == 200
    decreases |steps| + 1 - attempt
  {
    if attempt <= |steps| && steps[attempt - 1].Retry? {
      RunOverSucceeds(steps, outcomes, attempt + 1, NextLast(outcomes[attempt - 1], last));
    }
  }

  /** A request that succeeds returned a body whose STATUS is 200. */
  lemma SuccessMeansStatus200(rc: RetryConfig, captureFullResponse: bool, outcomes: seq<Outcome>, draws: seq<real>)
    requires Scripted(rc, outcomes, draws)
    ensures var run := RunFrom(rc, captureFullResponse, outcomes, draws, 1, None);
      run.result.Ok? ==> run.result.value.parsed.status == 200
  {
    RunOverSucceeds(Decisions(rc, captureFullResponse, outcomes, draws), outcomes, 1, None);
  }

  /**
   * When every call raises a retryable transport failure, exactly
   * transport-cap calls are made and the last failure is reported.
   */
  lemma PersistentTransportFailure(rc: RetryConfig, captureFullResponse: bool, outcomes: seq<Outcome>, draws: seq<real>)
    requires Scripted(rc, outcomes, draws) && EffectiveTransportMaxAttempts(rc) >= 1
    requires forall k :: 0 <= k < EffectiveTransportMaxAttempts(rc) ==>
      outcomes[k].Raised? && Http.ShouldRetryTransportError(outcomes[k].failure)
    ensures var run := RunFrom(rc, captureFullResponse, outcomes, draws, 1, None);
      var final := outcomes[EffectiveTransportMaxAttempts(rc) - 1];
      && run.calls == EffectiveTransportMaxAttempts(rc)
      && run.result == Err(TransportFailed(final.failure, final.message))
  {
    var steps := Decisions(rc, captureFullResponse, outcomes, draws);
    var cap := EffectiveTransportMaxAttempts(rc);
    assert steps[cap - 1].Stop?;
    RunOverRetriesUntil(steps, outcomes, 1, None, cap);
  }

  /**
   * When every response carries body STATUS 500, exactly `max_attempts`
   * calls are made and the request fails with the server error.
   */
  lemma PersistentServerError(rc: RetryConfig, captureFullResponse: bool, outcomes: seq<Outcome>, draws: seq<real>)
    requires Scripted(rc, outcomes, draws) && rc.maxAttempts >= 1
    requires forall k :: 0 <= k < rc.maxAttempts ==>
      outcomes[k].Responded? && outcomes[k].response.parse.Parsed?
      && outcomes[k].response.parse.parsed.status == 500
      && outcomes[k].response.parse.parsed.messageId != UNPARSEABLE_RESPONSE
    ensures var run := RunFrom(rc, captureFullResponse, outcomes, draws, 1, None);
      && run.calls == rc.maxAttempts
      && run.result.Err? && run.result.error.ApiError? && run.result.error.kind == ServerError
  {
    var steps := Decisions(rc, captureFullResponse, outcomes, draws);
    var m := rc.maxAttempts;
    forall k | 0 <= k < m
      ensures k + 1 < m ==> steps[k].Retry?
      ensures k + 1 == m ==> steps[k].Stop? && steps[k].result.Err? && steps[k].result.error.ApiError?
                             && steps[k].result.error.kind == ServerError
    {
      ServerErrorStep(rc, captureFullResponse, outcomes[k], k + 1, draws[k]);
    }
    RunOverRetriesUntil(steps, outcomes, 1, None, m);
  }

  /**
   * When the attempts before attempt `n` are all retried and attempt `n`
   * gets a reply whose STATUS is not 200 and that is not retried, the
   * request makes `n` calls and raises the error classified from that reply.
   */
  lemma FinalReplyError(rc: RetryConfig, captureFullResponse: bool, outcomes: seq<Outcome>, draws: seq<real>, n: nat)
    requires Scripted(rc, outcomes, draws) && 1 <= n <= TotalAttempts(rc)
    requires forall k :: 0 <= k < n - 1 ==> StepAt(rc, captureFullResponse, outcomes[k], k + 1, draws[k]).Retry?
    requires outcomes[n - 1].Responded?
    requires var response := outcomes[n - 1].response;
      var parsed := ParseWithFallback(response);
      parsed.status != 200
      && !(ShouldRetryResponse(parsed.status, response.statusCode, response.retryAfter.Some?, rc, n) && n < rc.maxAttempts)
    ensures var run := RunFrom(rc, captureFullResponse, outcomes, draws, 1, None);
      var response := outcomes[n - 1].response;
      && run.calls == n
      && run.result == Err(MakeApiError(ParseWithFallback(response), response.requestUrl, captureFullResponse, response.text))
  {
    var steps := Decisions(rc, captureFullResponse, outcomes, draws);
    assert steps[n - 1] == StepAt(rc, captureFullResponse, outcomes[n - 1], n, draws[n - 1]);
    RunOverRetriesUntil(steps, outcomes, 1, None, n);
  }

  /** A body STATUS of 500 is retried while attempts remain, and is reported as a server error on the last one. */
  lemma ServerErrorStep(rc: RetryConfig, captureFullResponse: bool, outcome: Outcome, attempt: nat, u: real)
    requires 0.0 <= u < 1.0 && 1 <= attempt <= rc.maxAttempts
    requires outcome.Responded? && outcome.response.parse.Parsed?
      && outcome.response.parse.parsed.status == 500
      && outcome.response.parse.parsed.messageId != UNPARSEABLE_RESPONSE
    ensures var s := StepAt(rc, captureFullResponse, outcome, attempt, u);
      && (attempt < rc.maxAttempts ==> s.Retry?)
      && (attempt == rc.maxAttempts ==> s.Stop? && s.result.Err? && s.result.error.ApiError? && s.result.error.kind == ServerError)
  {
  }
}
