/** The bounded retry loop of app/observability/retry.py. */
module Retry {
  import opened Backoff

  /** What one call of the operation does; `RaisesOther` stands for exceptions outside the retryable classes. */
  datatype Attempt<T, E> = Returns(value: T) | RaisesRetryable(message: string) | RaisesOther(error: E)

  datatype Outcome<T, E> = Returned(value: T) | Exhausted(attempts: int, cause: string) | Raised(error: E)

  /** One invocation of the `on_retry` callback. */
  datatype RetryCall = RetryCall(attempt: nat, message: string, delay: real)

  const NO_ATTEMPTS: string := "retry_async was called with no attempts"

  ghost predicate AllRetryable<T, E>(operation: nat -> Attempt<T, E>, n: int) {
    forall i: nat :: 1 <= i <= n ==> operation(i).RaisesRetryable?
  }

  ghost predicate IsCallback<T, E>(call: RetryCall, operation: nat -> Attempt<T, E>, base: real, i: nat) {
    && operation(i + 1).RaisesRetryable?
    && call == RetryCall(i + 1, operation(i + 1).message, Doubled(base, i))
  }

  ghost predicate CallbacksOf<T, E>(retries: seq<RetryCall>, operation: nat -> Attempt<T, E>, base: real) {
    forall i: nat :: i < |retries| ==> IsCallback(retries[i], operation, base, i)
  }

  /** The wait before call `attempt + 1`. */
  function ScheduledDelay(attempt: nat, base: real): (delay: real)
    requires attempt >= 1
    ensures delay == Doubled(base, attempt - 1)
  {
    DoubledIsPower(base, attempt - 1);
    base * Pow2(attempt - 1) as real
  }

  lemma OneMoreRetryable<T, E>(operation: nat -> Attempt<T, E>, n: nat)
    requires AllRetryable(operation, n) && operation(n + 1).RaisesRetryable?
    ensures AllRetryable(operation, n + 1)
  {
  }

  lemma OneMoreCallback<T, E>(retries: seq<RetryCall>, operation: nat -> Attempt<T, E>, base: real)
    requires CallbacksOf(retries, operation, base) && operation(|retries| + 1).RaisesRetryable?
    ensures var n := |retries|;
            CallbacksOf(retries + [RetryCall(n + 1, operation(n + 1).message, Doubled(base, n))], operation, base)
  {
    var n := |retries|;
    var grown := retries + [RetryCall(n + 1, operation(n + 1).message, Doubled(base, n))];
    forall i: nat | i < |grown| ensures IsCallback(grown[i], operation, base, i) {
      if i < n { assert IsCallback(retries[i], operation, base, i); }
    }
  }

  /** The wait before the next call, if there is any, after waits that add up to base * (2^n - 1). */
  lemma OneMoreWait(slept: real, base: real, n: nat)
    requires base >= 0.0 && slept == Geometric(base, n)
    ensures Doubled(base, n) >= 0.0
    ensures (if Doubled(base, n) > 0.0 then slept + Doubled(base, n) else slept) == Geometric(base, n + 1)
  {
    DoubledMonotone(base, 0, n);
  }

  /**
   * `operation(i)` is the outcome of the i-th call, whatever it may be. The loop calls it until the first
   * outcome that is not retryable, at most `attempts` times, and calls back between calls: not after the
   * last one. The delays add up to base * (2^k - 1) for k callbacks.
   */
  method RetryAsync<T, E>(operation: nat -> Attempt<T, E>, attempts: int, base: real)
    returns (outcome: Outcome<T, E>, calls: nat, retries: seq<RetryCall>, slept: real)
    ensures calls <= if attempts > 0 then attempts else 0
    ensures AllRetryable(operation, calls - 1)
    ensures match outcome
            case Returned(value) => calls >= 1 && operation(calls) == Returns(value)
            case Raised(error) => calls >= 1 && operation(calls) == RaisesOther(error)
            case Exhausted(n, cause) =>
              && n == attempts
              && calls == (if attempts > 0 then attempts else 0)
              && AllRetryable(operation, calls)
              && cause == (if calls == 0 then NO_ATTEMPTS else operation(calls).message)
    ensures |retries| == if calls == 0 then 0 else calls - 1
    ensures CallbacksOf(retries, operation, base)
    ensures base >= 0.0 ==> slept == Geometric(base, |retries|)
  {
    calls, retries, slept := 0, [], 0.0;
    var lastError := NO_ATTEMPTS;
    var attempt := 1;
    while attempt <= attempts
      invariant calls == attempt - 1 && (attempts > 0 ==> calls <= attempts) && |retries| == calls
      invariant attempts <= 0 ==> calls == 0
      invariant AllRetryable(operation, calls)
      invariant calls == 0 ==> lastError == NO_ATTEMPTS
      invariant calls > 0 ==> calls < attempts && lastError == operation(calls).message
      invariant CallbacksOf(retries, operation, base)
      invariant base >= 0.0 ==> slept == Geometric(base, calls)
      decreases attempts - attempt
    {
      calls := calls + 1;
      match operation(attempt) {
        case Returns(value) =>
          return Returned(value), calls, retries, slept;
        case RaisesOther(error) =>
          return Raised(error), calls, retries, slept;
        case RaisesRetryable(message) =>
          OneMoreRetryable(operation, attempt - 1);
          lastError := message;
          if attempt >= attempts {
            break;
          }
          var delay := ScheduledDelay(attempt, base);
          OneMoreCallback(retries, operation, base);
          if base >= 0.0 { OneMoreWait(slept, base, attempt - 1); }
          retries := retries + [RetryCall(attempt, message, delay)];
          if delay > 0.0 {
            slept := slept + delay;
          }
      }
      attempt := attempt + 1;
    }
    outcome := Exhausted(attempts, lastError);
  }
}
