/**
 * The retry engine of `io.kvarto.http.common` (RetryUtils.kt).
 *
 * The wrapped operation is a script: call number `i` (counting from 1)
 * returns or throws `script[i - 1]`. A run reports how the engine ended,
 * how many calls it made, and the retry numbers it handed to the backoff
 * strategy together with the delays the strategy answered. Durations are
 * whole milliseconds; the suspension in `delay` itself is not modelled.
 */
module RetryUtils {
  import opened Wrappers
  import opened Throwables
  import Text

  /** What one call of the wrapped operation did. */
  datatype Outcome<T> = Returned(value: T) | Threw(error: Throwable)

  /** `BackoffStrategy` and its implementations; `CustomBackoff` is any other implementing object. */
  datatype BackoffStrategy =
    | ConstantBackoff(timeoutMs: int)
    | ExponentialBackoff(timeoutMs: int, multiplier: int)
    | FibonacciBackoff(baseMs: int)
    | NoBackoff
    | CustomBackoff(delayOf: int -> int)

  datatype RetryConfig = RetryConfig(
    retries: int,
    backoffStrategy: BackoffStrategy,
    totalTimeoutMs: int,
    isRetryable: Throwable -> bool)

  /** `Long.MAX_VALUE`, the default total timeout in milliseconds. */
  const LongMaxValue: int := 0x7fff_ffff_ffff_ffff

  /** What `retry` did: its final outcome, the calls it made, and what it asked the backoff. */
  datatype RetryRun<T> = RetryRun(
    outcome: Outcome<T>,
    calls: nat,
    retryNumbers: seq<int>,
    delaysMs: seq<int>)

  /** The default classifier `isRetryable`. */
  function IsRetryable(t: Throwable): (r: bool)
    ensures t.IOException? || t.TimeoutException? || t.RetriesLimitReachedException? ==> r
    ensures t.VertxException? ==> (r <==> exists i :: Text.OccursAt(t.message.GetOr(""), "timeout", i))
    ensures t.BufferOverflowException? || t.NoSuchElementException? || t.OtherThrowable? ==> !r
  {
    match t
    case IOException(_) => true
    case TimeoutException(_) => true
    case RetriesLimitReachedException(_, _) => true
    case VertxException(message) => Text.ContainsSubstring(message.GetOr(""), "timeout")
    case _ => false
  }

  /** `RetryConfig(retries)` with every other parameter at its default. */
  function DefaultConfig(retries: int): (r: RetryConfig)
    ensures r.retries == retries && r.totalTimeoutMs == LongMaxValue
    ensures forall n :: Answers(r.backoffStrategy, n) && DelayBeforeRetry(r.backoffStrategy, n) == 0
    ensures forall t :: r.isRetryable(t) == IsRetryable(t)
  {
    RetryConfig(retries, NoBackoff, LongMaxValue, IsRetryable)
  }

  /** `NO_RETRY`. */
  const NoRetry: RetryConfig := RetryConfig(0, NoBackoff, LongMaxValue, IsRetryable)

  /** `base` raised to `exponent`. */
  function Power(base: int, exponent: nat): int
  {
    if exponent == 0 then 1 else base * Power(base, exponent - 1)
  }

  lemma {:induction false} PowerAtLeastOne(base: int, exponent: nat)
    requires base >= 1
    ensures Power(base, exponent) >= 1
  {
    if exponent > 0 {
      PowerAtLeastOne(base, exponent - 1);
      ScaleAtLeastBase(base, Power(base, exponent - 1));
    }
  }

  /** A non-negative duration scaled by a positive factor is at least the duration. */
  lemma ScaleAtLeastBase(base: int, factor: int)
    requires base >= 0 && factor >= 1
    ensures base * factor >= base
  {
    assert base * factor == base + base * (factor - 1);
  }

  lemma {:induction false} FibSeriesPositive(n: int)
    ensures FibSeries(n) >= 1
    decreases n
  {
    if n >= 2 {
      FibSeriesPositive(n - 1);
    }
  }

  /** The series `fib` computes: 1, 1, 2, 3, 5, 8, ... for n = 0, 1, 2, 3, 4, 5, ... */
  function FibSeries(n: int): nat
    decreases n
  {
    if n < 2 then 1 else FibSeries(n - 1) + FibSeries(n - 2)
  }

  /** The private `fib` of `FibonacciBackoffStrategy`, a loop run `n - 1` times. */
  method Fib(n: int) returns (r: int)
    ensures r == FibSeries(n)
  {
    if n < 2 {
      return 1;
    }
    var a := 1;
    var b := 1;
    var i := 0;
    while i < n - 1
      invariant 0 <= i <= n - 1
      invariant a == FibSeries(i) && b == FibSeries(i + 1)
    {
      var c := b;
      b := b + a;
      a := c;
      i := i + 1;
    }
    r := b;
  }

  /** The retry number an exponential strategy may be asked about. */
  predicate Answers(strategy: BackoffStrategy, retryNumber: int)
  {
    strategy.ExponentialBackoff? ==> retryNumber >= 1
  }

  /** `getDelayBeforeRetry(retryNumber)`, in milliseconds. */
  function DelayBeforeRetry(strategy: BackoffStrategy, retryNumber: int): (r: int)
    requires Answers(strategy, retryNumber)
    ensures strategy.ConstantBackoff? ==> r == strategy.timeoutMs
    ensures strategy.NoBackoff? ==> r == 0
    ensures strategy.CustomBackoff? ==> r == strategy.delayOf(retryNumber)
    ensures strategy.ExponentialBackoff? && strategy.timeoutMs >= 0 && strategy.multiplier >= 1
            ==> r >= strategy.timeoutMs
    ensures strategy.FibonacciBackoff? && strategy.baseMs >= 0 ==> r >= strategy.baseMs
  {
    match strategy
    case ConstantBackoff(timeoutMs) => timeoutMs
    case ExponentialBackoff(timeoutMs, multiplier) =>
      if timeoutMs >= 0 && multiplier >= 1 then
        PowerAtLeastOne(multiplier, retryNumber - 1);
        ScaleAtLeastBase(timeoutMs, Power(multiplier, retryNumber - 1));
        timeoutMs * Power(multiplier, retryNumber - 1)
      else
        timeoutMs * Power(multiplier, retryNumber - 1)
    case FibonacciBackoff(baseMs) =>
      FibSeriesPositive(retryNumber);
      if baseMs >= 0 then
        ScaleAtLeastBase(baseMs, FibSeries(retryNumber));
        baseMs * FibSeries(retryNumber)
      else
        baseMs * FibSeries(retryNumber)
    case NoBackoff => 0
    case CustomBackoff(delayOf) => delayOf(retryNumber)
  }

  /** A call that threw an error the configuration lets the engine retry. */
  predicate FailedRetryably<T>(config: RetryConfig, outcome: Outcome<T>)
  {
    outcome.Threw? && config.retries != 0 && config.isRetryable(outcome.error)
  }

  /**
   * How a run ends, given the call that concluded it: a returned value is
   * returned; an error the engine may not retry is rethrown unchanged; a
   * retryable error ends the run only on the last permitted call, wrapped in
   * `RetriesLimitReachedException`.
   */
  ghost predicate ConcludedBy<T>(config: RetryConfig, last: Outcome<T>, run: RetryRun<T>)
  {
    && (last.Returned? ==> run.outcome == last)
    && (last.Threw? && !FailedRetryably(config, last) ==> run.outcome == last)
    && (FailedRetryably(config, last) ==>
          run.calls == config.retries + 1
          && run.outcome == Threw(RetriesLimitReachedException("", last.error)))
  }

  /** The retry numbers `from`, `from + 1`, ... handed to the backoff, one per retry. */
  ghost predicate ConsecutiveFrom(retryNumbers: seq<int>, from: int)
  {
    forall i :: 0 <= i < |retryNumbers| ==> retryNumbers[i] == from + i
  }

  /** The delays are the strategy's answers to the retry numbers, position by position. */
  ghost predicate DelaysFollow(strategy: BackoffStrategy, retryNumbers: seq<int>, delaysMs: seq<int>)
  {
    && |delaysMs| == |retryNumbers|
    && forall i :: 0 <= i < |retryNumbers| ==>
         Answers(strategy, retryNumbers[i]) && delaysMs[i] == DelayBeforeRetry(strategy, retryNumbers[i])
  }

  /** The script holds an outcome for every call the engine can make. */
  predicate CoversEveryCall<T>(config: RetryConfig, script: seq<Outcome<T>>)
  {
    0 <= config.retries < |script|
  }

  /**
   * `retryInner(tryNumber, config, f)`: make call `tryNumber + 1`, then
   * return, rethrow, give up, or wait and recurse.
   */
  function RetryInner<T>(tryNumber: nat, config: RetryConfig, script: seq<Outcome<T>>): (run: RetryRun<T>)
    requires CoversEveryCall(config, script) && tryNumber <= config.retries
    ensures tryNumber < run.calls <= config.retries + 1
    ensures forall j :: tryNumber <= j < run.calls - 1 ==> FailedRetryably(config, script[j])
    ensures ConcludedBy(config, script[run.calls - 1], run)
    ensures |run.retryNumbers| == run.calls - 1 - tryNumber
    ensures ConsecutiveFrom(run.retryNumbers, tryNumber + 1)
    ensures DelaysFollow(config.backoffStrategy, run.retryNumbers, run.delaysMs)
    decreases config.retries - tryNumber
  {
    match script[tryNumber]
    case Returned(v) => RetryRun(Returned(v), tryNumber + 1, [], [])
    case Threw(e) =>
      if config.retries == 0 || !config.isRetryable(e) then
        RetryRun(Threw(e), tryNumber + 1, [], [])
      else if tryNumber == config.retries then
        RetryRun(Threw(RetriesLimitReachedException("", e)), tryNumber + 1, [], [])
      else
        var retryNumber := tryNumber + 1;
        var rest := RetryInner(retryNumber, config, script);
        RetryRun(
          rest.outcome,
          rest.calls,
          [retryNumber] + rest.retryNumbers,
          [DelayBeforeRetry(config.backoffStrategy, retryNumber)] + rest.delaysMs)
  }

  /** `retry(config, f)`. */
  function Retry<T>(config: RetryConfig, script: seq<Outcome<T>>): (run: RetryRun<T>)
    requires CoversEveryCall(config, script)
    ensures 1 <= run.calls <= config.retries + 1
    ensures forall j :: 0 <= j < run.calls - 1 ==> FailedRetryably(config, script[j])
    ensures ConcludedBy(config, script[run.calls - 1], run)
    ensures |run.retryNumbers| == run.calls - 1
    ensures ConsecutiveFrom(run.retryNumbers, 1)
    ensures DelaysFollow(config.backoffStrategy, run.retryNumbers, run.delaysMs)
  {
    RetryInner(0, config, script)
  }

  /**
   * `RetryConfig(retries)` with its defaults rethrows an error the default
   * classifier rejects after one call, as the test with `RetryConfig(10)` and
   * a plain `Exception` expects.
   */
  lemma DefaultConfigRethrowsOtherErrors<T>(retries: int, script: seq<Outcome<T>>)
    requires 0 <= retries < |script|
    requires script[0].Threw? && script[0].error.OtherThrowable?
    ensures Retry(DefaultConfig(retries), script) == RetryRun(script[0], 1, [], [])
  {
    RetryRethrowsUnretryable(DefaultConfig(retries), script);
  }

  /**
   * `RetryConfig(retries)` with its defaults retries `IOException`s without
   * waiting: `retries + 1` calls, each retry delayed by zero, then
   * `RetriesLimitReachedException` caused by the last failure.
   */
  lemma DefaultConfigRetriesIOFailuresWithoutDelay<T>(retries: int, script: seq<Outcome<T>>)
    requires 0 < retries < |script|
    requires forall j :: 0 <= j <= retries ==> script[j].Threw? && script[j].error.IOException?
    ensures var run := Retry(DefaultConfig(retries), script);
      && run.calls == retries + 1
      && run.outcome == Threw(RetriesLimitReachedException("", script[retries].error))
      && run.delaysMs == seq(retries, _ => 0)
  {
    var config := DefaultConfig(retries);
    RetryExhaustsRetries(config, script);
    var run := Retry(config, script);
    assert DelaysFollow(config.backoffStrategy, run.retryNumbers, run.delaysMs);
  }

  /** A first call that returns ends the run: one call, its value, no backoff. */
  lemma RetryFirstCallReturns<T>(config: RetryConfig, script: seq<Outcome<T>>)
    requires CoversEveryCall(config, script) && script[0].Returned?
    ensures Retry(config, script) == RetryRun(script[0], 1, [], [])
  {
  }

  /**
   * With no retries configured, or an error the predicate rejects, the first
   * error is rethrown unchanged after one call and the backoff is never asked.
   */
  lemma RetryRethrowsUnretryable<T>(config: RetryConfig, script: seq<Outcome<T>>)
    requires CoversEveryCall(config, script) && script[0].Threw?
    requires config.retries == 0 || !config.isRetryable(script[0].error)
    ensures Retry(config, script) == RetryRun(script[0], 1, [], [])
  {
  }

  /**
   * An operation that always fails retryably runs `retries + 1` times and the
   * run ends with `RetriesLimitReachedException` caused by the last failure,
   * after asking the backoff about retries 1 to `retries`.
   */
  lemma RetryExhaustsRetries<T>(config: RetryConfig, script: seq<Outcome<T>>)
    requires CoversEveryCall(config, script) && config.retries > 0
    requires forall j :: 0 <= j <= config.retries ==> script[j].Threw? && config.isRetryable(script[j].error)
    ensures var run := Retry(config, script);
      && run.calls == config.retries + 1
      && run.outcome == Threw(RetriesLimitReachedException("", script[config.retries].error))
      && run.retryNumbers == seq(config.retries, i => i + 1)
  {
    var run := Retry(config, script);
    assert FailedRetryably(config, script[run.calls - 1]);
  }

  /**
   * When call `k` is the first that returns and every earlier call failed
   * retryably within the budget, the run returns that value after exactly
   * `k` calls, having asked the backoff about retries 1 to `k - 1`.
   */
  lemma RetryReturnsFirstValue<T>(config: RetryConfig, script: seq<Outcome<T>>, k: nat)
    requires CoversEveryCall(config, script) && 1 <= k <= config.retries + 1
    requires forall j :: 0 <= j < k - 1 ==> FailedRetryably(config, script[j])
    requires script[k - 1].Returned?
    ensures var run := Retry(config, script);
      && run.calls == k
      && run.outcome == script[k - 1]
      && run.retryNumbers == seq(k - 1, i => i + 1)
  {
  }

  /** Whatever the script, every error the run ends with is the last call's error or wraps it. */
  lemma RetryErrorExposesLastCause<T>(config: RetryConfig, script: seq<Outcome<T>>)
    requires CoversEveryCall(config, script)
    ensures var run := Retry(config, script);
      run.outcome.Threw? ==>
        script[run.calls - 1].Threw?
        && (run.outcome.error == script[run.calls - 1].error
            || run.outcome.error == RetriesLimitReachedException("", script[run.calls - 1].error))
  {
  }

  /** `NO_RETRY` makes exactly one call and reports its outcome unchanged. */
  lemma NoRetryCallsOnce<T>(script: seq<Outcome<T>>)
    requires |script| > 0
    ensures Retry(NoRetry, script) == RetryRun(script[0], 1, [], [])
  {
  }

  /** A constant strategy answers its duration for every retry number, 0 included. */
  lemma ConstantBackoffIgnoresRetryNumber(timeoutMs: int, m: int, n: int)
    ensures DelayBeforeRetry(ConstantBackoff(timeoutMs), m) == DelayBeforeRetry(ConstantBackoff(timeoutMs), n) == timeoutMs
  {
  }

  lemma NoBackoffIsZero(n: int)
    ensures DelayBeforeRetry(NoBackoff, n) == 0
  {
  }

  /** The exponential delay starts at the base and grows by the multiplier per retry. */
  lemma ExponentialBackoffGrowth(timeoutMs: int, multiplier: int, n: int)
    requires n >= 1
    ensures DelayBeforeRetry(ExponentialBackoff(timeoutMs, multiplier), 1) == timeoutMs
    ensures DelayBeforeRetry(ExponentialBackoff(timeoutMs, multiplier), n + 1)
            == multiplier * DelayBeforeRetry(ExponentialBackoff(timeoutMs, multiplier), n)
  {
  }

  /** The Fibonacci delay is 1, 2, 3, 5, ... times the base. */
  lemma FibonacciBackoffRecurrence(baseMs: int, n: int)
    requires n >= 1
    ensures DelayBeforeRetry(FibonacciBackoff(baseMs), 1) == baseMs
    ensures DelayBeforeRetry(FibonacciBackoff(baseMs), 2) == 2 * baseMs
    ensures DelayBeforeRetry(FibonacciBackoff(baseMs), n + 2)
            == DelayBeforeRetry(FibonacciBackoff(baseMs), n + 1) + DelayBeforeRetry(FibonacciBackoff(baseMs), n)
  {
  }

  /** 10 ms growing threefold: 10, 30, 90, 270 ms for retries 1 to 4. */
  lemma ExponentialBackoffExample()
    ensures DelayBeforeRetry(ExponentialBackoff(10, 3), 1) == 10
    ensures DelayBeforeRetry(ExponentialBackoff(10, 3), 2) == 30
    ensures DelayBeforeRetry(ExponentialBackoff(10, 3), 3) == 90
    ensures DelayBeforeRetry(ExponentialBackoff(10, 3), 4) == 270
  {
  }

  /**
   * Three retryable failures then a value, with a strategy answering
   * `25 * retryNumber`: four calls, retry numbers 1, 2, 3, delays 25, 50, 75 ms.
   */
  lemma RetryBackoffSequenceExample(script: seq<Outcome<int>>)
    requires |script| == 11
    requires script[0].Threw? && script[1].Threw? && script[2].Threw? && script[3] == Returned(0)
    ensures var run := Retry(RetryConfig(10, CustomBackoff(n => 25 * n), LongMaxValue, _ => true), script);
      && run.outcome == Returned(0)
      && run.calls == 4
      && run.retryNumbers == [1, 2, 3]
      && run.delaysMs == [25, 50, 75]
  {
    var config := RetryConfig(10, CustomBackoff(n => 25 * n), LongMaxValue, _ => true);
    RetryReturnsFirstValue(config, script, 4);
  }
}
