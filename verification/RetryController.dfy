/** firmware/src/send_result.cpp and firmware/src/retry_controller.cpp: the single pending
    measurement, its bounded jittered backoff and the wrapping deadline of the next attempt. */
module Retrying {
  import opened Wrappers
  import opened WrappingClock
  import opened Common

  datatype Measurement = Measurement(
    messageId: MessageId,
    deviceId: string,
    measuredAt: int,
    temperature: real,
    humidity: real)

  datatype Disposition = Accepted | Retryable | Discard | AuthenticationError

  datatype SendResult = SendResult(disposition: Disposition, httpStatus: int, retryAfterSeconds: uint32)

  datatype RetryUpdate =
    | Ignored
    | WasAccepted
    | Discarded
    | AuthenticationFailed
    | RetryScheduled
    | RetriesExhausted

  const MAXIMUM_RETRY_COUNT: int := 6
  const INITIAL_INTERVAL_MS: int := 5_000
  const MAXIMUM_INTERVAL_MS: int := 300_000
  const MAXIMUM_RETRY_AFTER_SECONDS: int := 86_400

  /** Maps one HTTP exchange to what the retry controller does with it. */
  function ClassifySendResult(transportSucceeded: bool, httpStatus: int, retryAfterSeconds: uint32): SendResult {
    if !transportSucceeded then SendResult(Retryable, httpStatus, 0)
    else if httpStatus == 200 || httpStatus == 201 then SendResult(Accepted, httpStatus, 0)
    else if httpStatus == 401 || httpStatus == 403 then SendResult(AuthenticationError, httpStatus, 0)
    else if httpStatus == 429 then SendResult(Retryable, httpStatus, retryAfterSeconds)
    else if 500 <= httpStatus <= 599 then SendResult(Retryable, httpStatus, 0)
    else SendResult(Discard, httpStatus, 0)
  }

  function Pow2(n: nat): nat {
    if n == 0 then 1 else 2 * Pow2(n - 1)
  }

  /** The k-th wait with no jitter, as an unbounded integer: 5 s doubled k - 1 times. */
  function ExactBackoff(k: nat): nat
    requires k >= 1
  {
    INITIAL_INTERVAL_MS * Pow2(k - 1)
  }

  // --- The interval as the firmware computes it, in 32-bit words ---

  /** `x % m` by repeated subtraction, which keeps the proofs below linear. */
  function Remainder(x: nat, m: nat): (r: nat)
    requires m > 0
    ensures r < m
    ensures x < m ==> r == x
  {
    if x < m then x else Remainder(x - m, m)
  }

  /** It is the firmware's `%`. */
  lemma {:induction false} RemainderIsModulo(x: nat, m: nat)
    requires m > 0
    ensures Remainder(x, m) == x % m
  {
    var quotient := QuotientOf(x, m);
    ModuloIsUnique(x, quotient, m, Remainder(x, m));
  }

  lemma {:induction false} QuotientOf(x: nat, m: nat) returns (quotient: nat)
    requires m > 0
    ensures x == quotient * m + Remainder(x, m)
  {
    if x < m {
      quotient := 0;
    } else {
      var q := QuotientOf(x - m, m);
      quotient := q + 1;
      assert quotient * m == q * m + m;
    }
  }

  lemma ModuloIsUnique(x: nat, quotient: nat, m: nat, r: nat)
    requires r < m && x == quotient * m + r
    ensures x % m == r
  {
    MultiplesAreFar(quotient - x / m, m);
    assert (quotient - x / m) * m == quotient * m - (x / m) * m;
  }

  lemma MultiplesAreFar(k: int, m: int)
    requires m > 0
    ensures k == 0 || k * m >= m || k * m <= -m
  {
  }

  function BaseInterval(retryCount: int): uint32
    requires 1 <= retryCount
  {
    var multiplier := Wrap(Pow2(retryCount - 1));
    Min(Wrap(INITIAL_INTERVAL_MS * multiplier), MAXIMUM_INTERVAL_MS)
  }

  function Jitter(base: uint32, random: uint32): uint32 {
    var limit := Min(base / 5, Wrap(MAXIMUM_INTERVAL_MS - base));
    if limit == 0 then 0 else Remainder(random, Wrap(limit + 1))
  }

  function RetryAfterMilliseconds(seconds: uint32): uint32 {
    Wrap(Min(seconds, MAXIMUM_RETRY_AFTER_SECONDS) * 1_000)
  }

  function Interval(retryCount: int, retryAfterSeconds: uint32, random: uint32): uint32
    requires 1 <= retryCount
  {
    var base := BaseInterval(retryCount);
    Max(Wrap(base + Jitter(base, random)), RetryAfterMilliseconds(retryAfterSeconds))
  }

  lemma BaseIntervalIsExact(retryCount: int)
    requires 1 <= retryCount <= MAXIMUM_RETRY_COUNT
    ensures BaseInterval(retryCount) == ExactBackoff(retryCount)
    ensures INITIAL_INTERVAL_MS <= ExactBackoff(retryCount) <= 160_000
  {
    assert Pow2(0) == 1;
    assert Pow2(1) == 2;
    assert Pow2(2) == 4;
    assert Pow2(3) == 8;
    assert Pow2(4) == 16;
    assert Pow2(5) == 32;
  }

  lemma JitterIsBounded(base: uint32, random: uint32)
    requires base <= MAXIMUM_INTERVAL_MS
    ensures base + Jitter(base, random) <= MAXIMUM_INTERVAL_MS
    ensures 5 * Jitter(base, random) <= base
  {
    var limit := Min(base / 5, Wrap(MAXIMUM_INTERVAL_MS - base));
    assert limit <= 60_000;
    assert Wrap(limit + 1) == limit + 1;
  }

  lemma JitterLimit(base: uint32)
    requires 5_000 <= base <= 160_000
    ensures var limit := Min(base / 5, 300_000 - base);
            limit > 0 && Min(base / 5, Wrap(MAXIMUM_INTERVAL_MS - base)) == limit && Wrap(limit + 1) == limit + 1
  {
  }

  lemma JitterByRemainder(base: uint32, random: uint32, limit: nat)
    requires limit == Min(base / 5, Wrap(MAXIMUM_INTERVAL_MS - base)) > 0 && Wrap(limit + 1) == limit + 1
    ensures Jitter(base, random) == Remainder(random, limit + 1)
  {
  }

  lemma JitterIsRemainder(base: uint32, random: uint32)
    requires 5_000 <= base <= 160_000
    ensures Jitter(base, random) == random % (Min(base / 5, 300_000 - base) + 1)
  {
    var limit := Min(base / 5, 300_000 - base);
    JitterLimit(base);
    JitterByRemainder(base, random, limit);
    RemainderIsModulo(random, limit + 1);
  }

  /** The jitter of the k-th wait is the random word modulo a fifth of the wait and one. */
  lemma {:induction false} JitterIsExact(retryCount: int, random: uint32)
    requires 1 <= retryCount <= MAXIMUM_RETRY_COUNT
    ensures var exact := ExactBackoff(retryCount);
            Jitter(BaseInterval(retryCount), random) == random % (Min(exact / 5, 300_000 - exact) + 1)
  {
    BaseIntervalIsExact(retryCount);
    JitterIsRemainder(ExactBackoff(retryCount), random);
  }

  /** The waits without jitter, in milliseconds. */
  lemma BackoffTable()
    ensures ExactBackoff(1) == 5_000 && ExactBackoff(2) == 10_000 && ExactBackoff(3) == 20_000
    ensures ExactBackoff(4) == 40_000 && ExactBackoff(5) == 80_000 && ExactBackoff(6) == 160_000
  {
  }

  lemma ServerWait(seconds: uint32)
    ensures RetryAfterMilliseconds(seconds) == 1_000 * Min(seconds, MAXIMUM_RETRY_AFTER_SECONDS)
  {
  }

  /** For every retry the controller can reach, no 32-bit step wraps: the backoff is the exact
      doubling plus at most 20 percent, within five minutes, and a server wait only lengthens it. */
  lemma {:induction false} IntervalIsBounded(retryCount: int, retryAfterSeconds: uint32, random: uint32)
    requires 1 <= retryCount <= MAXIMUM_RETRY_COUNT
    ensures var exact := ExactBackoff(retryCount);
            var jitter := Jitter(BaseInterval(retryCount), random);
            && 5 * jitter <= exact
            && exact + jitter <= MAXIMUM_INTERVAL_MS
            && Interval(retryCount, retryAfterSeconds, random)
               == Max(exact + jitter, 1_000 * Min(retryAfterSeconds, MAXIMUM_RETRY_AFTER_SECONDS))
    ensures ExactBackoff(retryCount) <= Interval(retryCount, retryAfterSeconds, random) <= 86_400_000
  {
    BaseIntervalIsExact(retryCount);
    JitterIsBounded(BaseInterval(retryCount), random);
    ServerWait(retryAfterSeconds);
  }

  // --- The controller as a value ---

  datatype RetryState = RetryState(pending: Option<Measurement>, retryCount: int, nextAttemptMs: uint32) {

    predicate Valid() {
      0 <= retryCount <= MAXIMUM_RETRY_COUNT
    }

    function Replace(measurement: Measurement, nowMs: uint32): RetryState {
      RetryState(Some(measurement), 0, nowMs)
    }

    predicate IsDue(nowMs: uint32) {
      pending.Some? && DeadlineReached(nowMs, nextAttemptMs)
    }

    function ApplyResult(
      sentId: MessageId, result: SendResult, nowMs: uint32, random: uint32): (RetryState, RetryUpdate)
      requires Valid()
    {
      if pending.None? || pending.value.messageId != sentId then (this, Ignored)
      else match result.disposition
        case Accepted => (this.(pending := None), WasAccepted)
        case Discard => (this.(pending := None), Discarded)
        case AuthenticationError => (this.(pending := None), AuthenticationFailed)
        case Retryable =>
          if retryCount >= MAXIMUM_RETRY_COUNT then (this.(pending := None), RetriesExhausted)
          else
            var k := retryCount + 1;
            (RetryState(pending, k, Wrap(nowMs + Interval(k, result.retryAfterSeconds, random))), RetryScheduled)
    }
  }

  const INITIAL_RETRY_STATE := RetryState(None, 0, 0)

  /** Where the next attempt stands against true time, right after a retry is scheduled. The
      controller is not due before the wait has really passed, and is due at any later poll
      within the following 24 days. */
  lemma {:induction false} RetryDeadlineIsExact(
    s: RetryState, sentId: MessageId, result: SendResult, resultAt: int, random: uint32, poll: int)
    requires s.Valid()
    requires s.ApplyResult(sentId, result, Wrap(resultAt), random).1 == RetryScheduled
    requires resultAt <= poll
    ensures var next := s.ApplyResult(sentId, result, Wrap(resultAt), random).0;
            var due := resultAt + Interval(next.retryCount, result.retryAfterSeconds, random);
            && (next.IsDue(Wrap(poll)) ==> due <= poll)
            && (due <= poll < due + HALF ==> next.IsDue(Wrap(poll)))
  {
    var k := s.retryCount + 1;
    IntervalIsBounded(k, result.retryAfterSeconds, random);
    ScheduledDeadline(resultAt, Interval(k, result.retryAfterSeconds, random), poll);
  }

  lemma ScheduledDeadline(at: int, wait: int, poll: int)
    requires at <= poll && 0 <= wait <= 86_400_000
    ensures var deadline := Wrap(Wrap(at) + wait);
            && (DeadlineReached(Wrap(poll), deadline) ==> at + wait <= poll)
            && (at + wait <= poll < at + wait + HALF ==> DeadlineReached(Wrap(poll), deadline))
  {
    WrapSum(at, wait);
    if DeadlineReached(Wrap(poll), Wrap(at + wait)) {
      DeadlineIsNeverEarly(poll, at + wait);
    }
    if at + wait <= poll < at + wait + HALF {
      DeadlineIsExact(poll, at + wait);
    }
  }

  // --- The controller as the firmware's object ---

  class RetryController {
    var pending: Option<Measurement>
    var retryCount: int
    var nextAttemptMs: uint32

    ghost predicate Valid()
      reads this
    {
      View().Valid()
    }

    ghost function View(): RetryState
      reads this
    {
      RetryState(pending, retryCount, nextAttemptMs)
    }

    constructor ()
      ensures Valid() && View() == INITIAL_RETRY_STATE
    {
      pending, retryCount, nextAttemptMs := None, 0, 0;
    }

    method Replace(measurement: Measurement, nowMs: uint32)
      modifies this
      ensures Valid() && View() == old(View()).Replace(measurement, nowMs)
    {
      pending := Some(measurement);
      retryCount := 0;
      nextAttemptMs := nowMs;
    }

    method IsDue(nowMs: uint32) returns (due: bool)
      ensures due <==> View().IsDue(nowMs)
    {
      due := pending.Some? && DeadlineReached(nowMs, nextAttemptMs);
    }

    method ApplyResult(sentId: MessageId, result: SendResult, nowMs: uint32, random: uint32)
      returns (update: RetryUpdate)
      requires Valid()
      modifies this
      ensures Valid()
      ensures (View(), update) == old(View()).ApplyResult(sentId, result, nowMs, random)
    {
      if pending.None? || pending.value.messageId != sentId {
        return Ignored;
      }
      if result.disposition == Accepted {
        pending := None;
        return WasAccepted;
      }
      if result.disposition == Discard {
        pending := None;
        return Discarded;
      }
      if result.disposition == AuthenticationError {
        pending := None;
        return AuthenticationFailed;
      }
      if retryCount >= MAXIMUM_RETRY_COUNT {
        pending := None;
        return RetriesExhausted;
      }
      retryCount := retryCount + 1;
      nextAttemptMs := Wrap(nowMs + Interval(retryCount, result.retryAfterSeconds, random));
      return RetryScheduled;
    }
  }
}
