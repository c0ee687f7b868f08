/**
 * HTTP helpers of the retrieval engine: which statuses and transport
 * failures are retried, the full-jitter backoff, the choice of how long to
 * wait before a retry, the Retry-After header, and the rate limiter that
 * spaces requests at least `1 / rate` seconds apart.
 *
 * Clock readings and the uniform random draw are parameters.
 */
module Http {
  import opened Text

  datatype WaitDecision = WaitDecision(seconds: real, source: string)

  /** The transport exceptions httpx can raise, by kind. */
  datatype TransportFailure =
    | Timeout
    | ConnectFailure
    | ReadFailure
    | RemoteProtocolFailure
    | WriteFailure
    | LocalProtocolFailure
    | ProxyFailure
    | UnsupportedProtocol
    | DecodingFailure
    | TooManyRedirects
    | OtherFailure

  function Max(a: real, b: real): (m: real)
    ensures m >= a && m >= b && (m == a || m == b)
  {
    if a >= b then a else b
  }

  function Min(a: real, b: real): (m: real)
    ensures m <= a && m <= b && (m == a || m == b)
  {
    if a <= b then a else b
  }

  /**
   * Retry-After in seconds. `dateDelay` stands for the header parsed as an
   * HTTP date, minus the current time (None when it is not a date).
   */
  function ParseRetryAfter(value: Option<string>, dateDelay: Option<real>): (r: Option<real>)
    ensures (value.None? || value.value == "") ==> r.None?
    ensures value.Some? && IsDigits(Strip(value.value)) ==> r == Some(DigitsValue(Strip(value.value)) as real)
    ensures value.Some? && value.value != "" && !IsDigits(Strip(value.value)) && dateDelay.None? ==> r.None?
    ensures r.Some? ==> r.value >= 0.0
  {
    if value.None? || value.value == "" then None
    else
      var text := Strip(value.value);
      if IsDigits(text) then Some(DigitsValue(text) as real)
      else match dateDelay
        case None => None
        case Some(d) => Some(Max(0.0, d))
  }

  /** Statuses 429, 500 and 503 are retried; 403 only when enabled and the server sent Retry-After. */
  predicate ShouldRetryHttpStatus(statusCode: int, retryOn403: bool, hasRetryAfter: bool) {
    statusCode in {429, 500, 503} || (statusCode == 403 && retryOn403 && hasRetryAfter)
  }

  /** A status outside 403, 429, 500 and 503 is never retried, whatever the flags say. */
  lemma OnlyFourStatusesRetried(statusCode: int, retryOn403: bool, hasRetryAfter: bool)
    requires ShouldRetryHttpStatus(statusCode, retryOn403, hasRetryAfter)
    ensures statusCode == 403 || statusCode == 429 || statusCode == 500 || statusCode == 503
  {
  }

  /** 429, 500 and 503 are retried whatever the flags; 403 exactly when both flags are set. */
  lemma RetriedStatuses(retryOn403: bool, hasRetryAfter: bool)
    ensures ShouldRetryHttpStatus(429, retryOn403, hasRetryAfter)
    ensures ShouldRetryHttpStatus(500, retryOn403, hasRetryAfter)
    ensures ShouldRetryHttpStatus(503, retryOn403, hasRetryAfter)
    ensures ShouldRetryHttpStatus(403, retryOn403, hasRetryAfter) <==> retryOn403 && hasRetryAfter
  {
  }

  /** Timeouts, connection failures, read failures and remote protocol errors are retried. */
  predicate ShouldRetryTransportError(failure: TransportFailure) {
    failure.Timeout? || failure.ConnectFailure? || failure.ReadFailure? || failure.RemoteProtocolFailure?
  }

  function Pow2(n: nat): (p: real)
    ensures p >= 1.0
  {
    if n == 0 then 1.0 else 2.0 * Pow2(n - 1)
  }

  /**
   * `random.uniform(0, min(cap, base * 2**attempt))`; `u` is the draw of
   * `random.random()` in [0, 1).
   */
  function FullJitterBackoff(attempt: nat, base: real, cap: real, u: real): (r: real)
    requires 0.0 <= u < 1.0
    ensures JitterCap(attempt, base, cap) >= 0.0 ==> 0.0 <= r <= JitterCap(attempt, base, cap)
    ensures JitterCap(attempt, base, cap) < 0.0 ==> JitterCap(attempt, base, cap) <= r <= 0.0
  {
    var upper := JitterCap(attempt, base, cap);
    ScaleBetween(upper, u);
    0.0 + (upper - 0.0) * u
  }

  /** The upper end of the jitter range, `min(cap, base * 2**attempt)`. */
  function JitterCap(attempt: nat, base: real, cap: real): (upper: real)
    ensures upper <= cap && upper <= base * Pow2(attempt)
    ensures upper == cap || upper == base * Pow2(attempt)
  {
    Min(cap, base * Pow2(attempt))
  }

  /** A fraction in [0, 1) of `x` lies between 0 and `x`. */
  lemma ScaleBetween(x: real, u: real)
    requires 0.0 <= u < 1.0
    ensures x >= 0.0 ==> 0.0 <= x * u <= x
    ensures x < 0.0 ==> x <= x * u <= 0.0
  {
    if x >= 0.0 {
      assert x * u <= x * 1.0;
    } else {
      assert (-x) * u <= (-x) * 1.0;
    }
  }

  /** With a non-negative base and cap, the backoff lies in [0, min(cap, base * 2**attempt)]. */
  lemma BackoffBounds(attempt: nat, base: real, cap: real, u: real)
    requires 0.0 <= u < 1.0 && base >= 0.0 && cap >= 0.0
    ensures 0.0 <= FullJitterBackoff(attempt, base, cap, u) <= cap
    ensures FullJitterBackoff(attempt, base, cap, u) <= base * Pow2(attempt)
  {
    var p := Pow2(attempt);
    assert base * p >= 0.0;
    assert JitterCap(attempt, base, cap) >= 0.0;
  }

  /** The wait before a retry: the longest of the server's Retry-After, the local wait and the backoff. */
  function DecideWaitSeconds(retryAfter: Option<real>, localWait: real, backoff: real): (d: WaitDecision)
    ensures d.seconds >= localWait && d.seconds >= backoff
    ensures retryAfter.Some? ==> d.seconds >= retryAfter.value && d.source == "retry_after"
    ensures retryAfter.None? ==> d.source == "local_or_backoff"
    ensures d.seconds == localWait || d.seconds == backoff || (retryAfter.Some? && d.seconds == retryAfter.value)
  {
    match retryAfter
    case None => WaitDecision(Max(localWait, backoff), "local_or_backoff")
    case Some(ra) => WaitDecision(Max(Max(ra, localWait), backoff), "retry_after")
  }

  /** Spaces requests at least `minInterval` seconds apart. */
  class SyncRateLimiter {
    var minInterval: real
    var nextAllowed: real

    constructor (rateLimitPerSec: real)
      ensures minInterval == (if rateLimitPerSec > 0.0 then 1.0 / rateLimitPerSec else 0.0)
      ensures nextAllowed == 0.0
    {
      minInterval := if rateLimitPerSec > 0.0 then 1.0 / rateLimitPerSec else 0.0;
      nextAllowed := 0.0;
    }

    /**
     * Waits until the next request may go. `now` is the monotonic clock on
     * entry and `later` its reading after the sleep, if one happens.
     */
    method Acquire(now: real, later: real) returns (wait: real)
      modifies this
      ensures minInterval == old(minInterval)
      ensures old(minInterval) <= 0.0 ==> wait == 0.0 && nextAllowed == old(nextAllowed)
      ensures old(minInterval) > 0.0 ==> wait == Max(0.0, old(nextAllowed) - now)
      ensures old(minInterval) > 0.0 ==> nextAllowed == (if wait > 0.0 then later else now) + minInterval
      ensures old(minInterval) > 0.0 && later >= now + wait ==> nextAllowed >= old(nextAllowed) + minInterval
    {
      if minInterval <= 0.0 {
        return 0.0;
      }
      var t := now;
      wait := Max(0.0, nextAllowed - t);
      if wait > 0.0 {
        t := later;
      }
      nextAllowed := t + minInterval;
    }
  }
}
