/** Exponential back-off over the reals. */
module Backoff {
  import opened Wrappers

  function Pow2(n: nat): (r: real)
    ensures r >= 1.0
  {
    if n == 0 then 1.0 else 2.0 * Pow2(n - 1)
  }

  function CappedDelay(attempt: nat, base: real, max: real): real
    requires attempt >= 1
  {
    var delay := base * Pow2(attempt - 1);
    if delay < max then delay else max
  }

  /** `next_delay_seconds`, with the jitter that was drawn as a parameter; `None` where it raises. */
  function NextDelay(attempt: int, base: real, max: real, jitterRatio: real, jitter: real): Option<real> {
    if attempt < 1 || base <= 0.0 || max <= 0.0 || jitterRatio < 0.0 then None
    else
      var capped := CappedDelay(attempt, base, max);
      if jitterRatio == 0.0 || capped >= max then Some(capped)
      else Some(if capped + jitter < max then capped + jitter else max)
  }

  /** What the uniform draw may return for a delay. */
  predicate JitterInRange(attempt: int, base: real, max: real, jitterRatio: real, jitter: real) {
    attempt >= 1 ==> 0.0 <= jitter <= CappedDelay(attempt, base, max) * jitterRatio
  }

  /** Every delay lies between the capped exponential delay and the maximum, and exceeds the former by no more
      than the jitter ratio allows. */
  lemma DelayInBounds(attempt: int, base: real, max: real, jitterRatio: real, jitter: real)
    requires attempt >= 1 && base > 0.0 && max > 0.0 && jitterRatio >= 0.0
    requires JitterInRange(attempt, base, max, jitterRatio, jitter)
    ensures NextDelay(attempt, base, max, jitterRatio, jitter).Some?
    ensures 0.0 < CappedDelay(attempt, base, max) <= NextDelay(attempt, base, max, jitterRatio, jitter).value <= max
    ensures NextDelay(attempt, base, max, jitterRatio, jitter).value
         <= CappedDelay(attempt, base, max) + CappedDelay(attempt, base, max) * jitterRatio
  {
    assert base * Pow2(attempt - 1) >= base * 1.0;
  }

  /** The capped delay starts at the base or the maximum, never shrinks from one attempt to the next, and
      doubles until it is capped. */
  lemma DelayDoubles(attempt: nat, base: real, max: real)
    requires attempt >= 1 && base > 0.0 && max > 0.0
    ensures attempt == 1 ==> CappedDelay(attempt, base, max) == if base < max then base else max
    ensures CappedDelay(attempt, base, max) <= CappedDelay(attempt + 1, base, max)
    ensures CappedDelay(attempt + 1, base, max) < max ==>
              CappedDelay(attempt + 1, base, max) == 2.0 * CappedDelay(attempt, base, max)
  {
    var d := base * Pow2(attempt - 1);
    assert base * Pow2(attempt) == 2.0 * d;
    assert base * Pow2(attempt - 1) >= base * 1.0;
  }

  /******* Retrying *******/

  /** How one call ends: it returns, or raises something to retry on or not. */
  datatype Attempt<+T> = Returned(value: T) | Retryable(error: string) | Fatal(error: string)

  datatype Retried<+T> = Result(value: T) | Raised(error: string) | InvalidArguments

  function Outcome<T>(a: Attempt<T>): Retried<T> {
    match a
    case Returned(v) => Result(v)
    case Retryable(e) => Raised(e)
    case Fatal(e) => Raised(e)
  }

  /** Whether a delay cannot be computed when one is needed. */
  predicate DelayRaises(base: real, max: real) {
    base <= 0.0 || max <= 0.0
  }

  /** Calls until one call returns, fails for good, or is the last allowed; the outcome is that call's,
      and between two calls it sleeps for the capped delay of the first. Arguments without a delay are
      found out only when the first call has to be retried. */
  method RetryWithBackoff<T>(call: nat -> Attempt<T>, maxAttempts: int, base: real, max: real)
    returns (r: Retried<T>, calls: nat, sleeps: seq<real>)
    ensures r.InvalidArguments?
       <==> maxAttempts < 1 || (DelayRaises(base, max) && maxAttempts > 1 && call(1).Retryable?)
    ensures r.InvalidArguments? ==> calls == (if maxAttempts < 1 then 0 else 1) && sleeps == []
    ensures !r.InvalidArguments? ==>
              && 1 <= calls <= maxAttempts
              && r == Outcome(call(calls))
              && (forall i :: 1 <= i < calls ==> call(i).Retryable?)
              && (call(calls).Retryable? ==> calls == maxAttempts)
              && |sleeps| == calls - 1
              && (forall i :: 0 <= i < |sleeps| ==> sleeps[i] == CappedDelay(i + 1, base, max))
  {
    calls, sleeps := 0, [];
    if maxAttempts < 1 {
      return InvalidArguments, calls, sleeps;
    }
    r := InvalidArguments;
    while calls < maxAttempts
      invariant 0 <= calls <= maxAttempts
      invariant forall i :: 1 <= i <= calls ==> call(i).Retryable?
      invariant calls > 0 && maxAttempts > 1 ==> !DelayRaises(base, max)
      invariant calls < maxAttempts ==> |sleeps| == calls
      invariant calls == maxAttempts ==> |sleeps| == calls - 1 && r == Outcome(call(calls))
      invariant forall i :: 0 <= i < |sleeps| ==> sleeps[i] == CappedDelay(i + 1, base, max)
    {
      calls := calls + 1;
      var outcome := call(calls);
      r := Outcome(outcome);
      if !outcome.Retryable? {
        return;
      }
      if calls < maxAttempts {
        var delay := NextDelay(calls, base, max, 0.0, 0.0);
        if delay.None? {
          return InvalidArguments, calls, sleeps;
        }
        sleeps := sleeps + [delay.value];
      }
    }
  }
}
