/** The two retry policies of `main.ts`.  The operation being retried is an
    oracle `fn: nat -> Result<T, Thrown>` giving the outcome of the k-th
    call (k = 1, 2, ...); the sleeps between attempts are recorded as their
    lengths in milliseconds instead of being slept. */
module Retry {
  import opened Wrappers
  import opened JsValue
  import opened Strings

  function Pow2(k: nat): (r: nat)
    ensures r >= 1
  {
    if k == 0 then 1 else 2 * Pow2(k - 1)
  }

  /** The sleep after failed attempt `attempt`: `min(base * 2^(attempt-1), maxDelay)`. */
  function BackoffDelay(base: int, attempt: nat, maxDelay: int): int
    requires attempt >= 1
  {
    var d := base * Pow2(attempt - 1);
    if d <= maxDelay then d else maxDelay
  }

  /** One run of a retry loop: how it ended, how many calls it made and the
      sleeps it took between them, in order. */
  datatype RetryRun<T> = RetryRun(result: Result<T, Thrown>, calls: nat, delays: seq<int>)

  /** The sleeps a run takes between its first `calls` attempts. */
  predicate IsSchedule(delays: seq<int>, calls: nat, base: int, maxDelay: int) {
    && |delays| == (if calls == 0 then 0 else calls - 1)
    && forall i :: 0 <= i < |delays| ==> delays[i] == BackoffDelay(base, i + 1, maxDelay)
  }

  datatype RetryOptions = RetryOptions(maxRetries: int, baseDelayMs: int, maxDelayMs: int, operationName: string)

  /** The defaults of `withRetry`'s destructuring. */
  const DefaultRetryOptions: RetryOptions := RetryOptions(3, 1000, 30_000, "operation")

  /** The error thrown when the loop body never ran (`maxRetries <= 0`). */
  function GaveUpMessage(operationName: string, maxRetries: int): string {
    operationName + " が " + IntToString(maxRetries) + " 回のリトライ後に失敗しました"
  }

  /** Attempts `attempt..maxRetries` of `withRetry`. */
  function RetryFrom<T>(fn: nat -> Result<T, Thrown>, attempt: nat, opts: RetryOptions): (r: RetryRun<T>)
    requires 1 <= attempt <= opts.maxRetries
    ensures attempt <= r.calls <= opts.maxRetries
    ensures forall k :: attempt <= k < r.calls ==> fn(k).Failure?
    ensures r.result.Success? ==> fn(r.calls) == Success(r.result.value)
    ensures r.result.Failure? ==> r.calls == opts.maxRetries && fn(r.calls) == Failure(r.result.error)
    ensures |r.delays| == r.calls - attempt
    ensures forall i :: 0 <= i < |r.delays| ==> r.delays[i] == BackoffDelay(opts.baseDelayMs, attempt + i, opts.maxDelayMs)
    decreases opts.maxRetries - attempt
  {
    match fn(attempt)
    case Success(v) => RetryRun(Success(v), attempt, [])
    case Failure(e) =>
      if attempt >= opts.maxRetries then RetryRun(Failure(e), attempt, [])
      else
        var rest := RetryFrom(fn, attempt + 1, opts);
        RetryRun(rest.result, rest.calls, [BackoffDelay(opts.baseDelayMs, attempt, opts.maxDelayMs)] + rest.delays)
  }

  /** `withRetry`: at most `maxRetries` calls, the first success is
      returned, the last attempt's error is rethrown, and a generic error is
      thrown without calling `fn` when `maxRetries <= 0`. */
  function WithRetry<T>(fn: nat -> Result<T, Thrown>, opts: RetryOptions): (r: RetryRun<T>)
    ensures r.calls <= (if opts.maxRetries < 0 then 0 else opts.maxRetries)
    ensures r.result.Success? <==> exists k :: 1 <= k <= opts.maxRetries && fn(k).Success?
    ensures r.result.Success? ==> fn(r.calls) == Success(r.result.value)
    ensures forall k :: 1 <= k < r.calls ==> fn(k).Failure?
    ensures opts.maxRetries >= 1 && r.result.Failure? ==>
              r.calls == opts.maxRetries && fn(r.calls) == Failure(r.result.error)
    ensures opts.maxRetries < 1 ==>
              r.calls == 0 && r.result == Failure(Error(GaveUpMessage(opts.operationName, opts.maxRetries)))
    ensures IsSchedule(r.delays, r.calls, opts.baseDelayMs, opts.maxDelayMs)
  {
    if opts.maxRetries < 1 then RetryRun(Failure(Error(GaveUpMessage(opts.operationName, opts.maxRetries))), 0, [])
    else RetryFrom(fn, 1, opts)
  }

  /** An `Error` (or subclass) whose message names a 503. */
  function IsServiceUnavailable(e: Thrown): (unavailable: bool)
    // a thrown value that is not an `Error` is never retried
    ensures e.NonError? ==> !unavailable
    // nor is a `JSON.parse` failure, whose engine text is taken never to mention a 503
    ensures e.ParseError? ==> !unavailable
    // an `Error` is retried exactly when "503" or "Service Unavailable" occurs in its message
    ensures e.Error? || e.TypeError? ==>
              (unavailable <==> exists i :: OccursAt(e.message, "503", i) || OccursAt(e.message, "Service Unavailable", i))
  {
    match e
    case Error(m) =>
      ContainsIffOccurs(m, "503");
      ContainsIffOccurs(m, "Service Unavailable");
      Contains(m, "503") || Contains(m, "Service Unavailable")
    case TypeError(m) =>
      ContainsIffOccurs(m, "503");
      ContainsIffOccurs(m, "Service Unavailable");
      Contains(m, "503") || Contains(m, "Service Unavailable")
    case ParseError => false
    case NonError => false
  }

  const LoginBaseDelayMs: int := 1000
  const LoginMaxDelayMs: int := 30_000
  const DefaultLoginRetries: int := 5

  /** Attempts `attempt..maxRetries` of `loginWithRetry`. */
  function LoginFrom(login: nat -> Result<(), Thrown>, attempt: nat, maxRetries: int): (r: RetryRun<()>)
    requires 1 <= attempt <= maxRetries
    ensures attempt <= r.calls <= maxRetries
    ensures forall k :: attempt <= k < r.calls ==> login(k).Failure? && IsServiceUnavailable(login(k).error)
    ensures r.result.Success? ==> login(r.calls).Success?
    ensures r.result.Failure? ==> login(r.calls) == Failure(r.result.error)
    ensures r.result.Failure? && IsServiceUnavailable(r.result.error) ==> r.calls == maxRetries
    ensures |r.delays| == r.calls - attempt
    ensures forall i :: 0 <= i < |r.delays| ==> r.delays[i] == BackoffDelay(LoginBaseDelayMs, attempt + i, LoginMaxDelayMs)
    decreases maxRetries - attempt
  {
    match login(attempt)
    case Success(_) => RetryRun(Success(()), attempt, [])
    case Failure(e) =>
      if IsServiceUnavailable(e) && attempt < maxRetries then
        var rest := LoginFrom(login, attempt + 1, maxRetries);
        RetryRun(rest.result, rest.calls, [BackoffDelay(LoginBaseDelayMs, attempt, LoginMaxDelayMs)] + rest.delays)
      else RetryRun(Failure(e), attempt, [])
  }

  /** `loginWithRetry`: only a 503 is retried, and only while attempts
      remain; any other error propagates from the attempt that raised it.
      With `maxRetries <= 0` the loop body never runs and the function
      returns normally without logging in. */
  function LoginWithRetry(login: nat -> Result<(), Thrown>, maxRetries: int): (r: RetryRun<()>)
    ensures r.calls <= (if maxRetries < 0 then 0 else maxRetries)
    ensures forall k :: 1 <= k < r.calls ==> login(k).Failure? && IsServiceUnavailable(login(k).error)
    ensures r.result.Success? && r.calls >= 1 ==> login(r.calls).Success?
    ensures r.result.Failure? ==> r.calls >= 1 && login(r.calls) == Failure(r.result.error)
    ensures r.result.Failure? && IsServiceUnavailable(r.result.error) ==> r.calls == maxRetries
    ensures maxRetries < 1 ==> r == RetryRun(Success(()), 0, [])
    ensures IsSchedule(r.delays, r.calls, LoginBaseDelayMs, LoginMaxDelayMs)
  {
    if maxRetries < 1 then RetryRun(Success(()), 0, [])
    else LoginFrom(login, 1, maxRetries)
  }

  /** When every failure is a 503, `loginWithRetry` behaves exactly like
      `withRetry` with a 1 s base and a 30 s cap: same calls, same outcome,
      same sleeps. */
  lemma {:induction false} LoginFromAgreesWithRetryFrom(login: nat -> Result<(), Thrown>, attempt: nat, maxRetries: int, name: string)
    requires 1 <= attempt <= maxRetries
    requires forall k :: attempt <= k <= maxRetries && login(k).Failure? ==> IsServiceUnavailable(login(k).error)
    ensures LoginFrom(login, attempt, maxRetries)
         == RetryFrom(login, attempt, RetryOptions(maxRetries, LoginBaseDelayMs, LoginMaxDelayMs, name))
    decreases maxRetries - attempt
  {
    match login(attempt)
    case Success(v) =>
      assert v == ();
    case Failure(e) =>
      if attempt < maxRetries {
        LoginFromAgreesWithRetryFrom(login, attempt + 1, maxRetries, name);
      }
  }

  lemma LoginAgreesWithGenericRetry(login: nat -> Result<(), Thrown>, maxRetries: int, name: string)
    requires maxRetries >= 1
    requires forall k :: 1 <= k <= maxRetries && login(k).Failure? ==> IsServiceUnavailable(login(k).error)
    ensures LoginWithRetry(login, maxRetries)
         == WithRetry(login, RetryOptions(maxRetries, LoginBaseDelayMs, LoginMaxDelayMs, name))
  {
    LoginFromAgreesWithRetryFrom(login, 1, maxRetries, name);
  }

  /** A first failure that is not a 503 ends the login after one attempt. */
  lemma NonTransientFailsFast(login: nat -> Result<(), Thrown>, maxRetries: int)
    requires maxRetries >= 1
    requires login(1).Failure? && !IsServiceUnavailable(login(1).error)
    ensures LoginWithRetry(login, maxRetries) == RetryRun(Failure(login(1).error), 1, [])
  {
  }

  function Sum(xs: seq<int>): int {
    if |xs| == 0 then 0 else Sum(xs[..|xs| - 1]) + xs[|xs| - 1]
  }

  /** The sum of the first `n` capped delays. */
  function TotalBackoff(n: nat, base: int, maxDelay: int): int {
    if n == 0 then 0 else TotalBackoff(n - 1, base, maxDelay) + BackoffDelay(base, n, maxDelay)
  }

  lemma {:induction false} ScheduleSum(delays: seq<int>, base: int, maxDelay: int)
    requires forall i :: 0 <= i < |delays| ==> delays[i] == BackoffDelay(base, i + 1, maxDelay)
    ensures Sum(delays) == TotalBackoff(|delays|, base, maxDelay)
  {
    if |delays| > 0 {
      ScheduleSum(delays[..|delays| - 1], base, maxDelay);
    }
  }

  /** A login that always fails with a 503 is attempted exactly
      `maxRetries` times, rethrows the last 503, and sleeps the sum of the
      capped exponential series in between. */
  lemma AlwaysUnavailable(login: nat -> Result<(), Thrown>, maxRetries: int)
    requires maxRetries >= 1
    requires forall k :: login(k).Failure? && IsServiceUnavailable(login(k).error)
    ensures var r := LoginWithRetry(login, maxRetries);
            && r.calls == maxRetries
            && r.result == Failure(login(maxRetries).error)
            && Sum(r.delays) == TotalBackoff(maxRetries - 1, LoginBaseDelayMs, LoginMaxDelayMs)
  {
    var r := LoginWithRetry(login, maxRetries);
    ScheduleSum(r.delays, LoginBaseDelayMs, LoginMaxDelayMs);
  }

  /** With the login constants the sleeps are 1, 2, 4, 8 s and the cap
      of 30 s is first reached on the sixth sleep. */
  lemma LoginScheduleValues()
    ensures BackoffDelay(LoginBaseDelayMs, 1, LoginMaxDelayMs) == 1000
    ensures BackoffDelay(LoginBaseDelayMs, 4, LoginMaxDelayMs) == 8000
    ensures BackoffDelay(LoginBaseDelayMs, 5, LoginMaxDelayMs) == 16000
    ensures BackoffDelay(LoginBaseDelayMs, 6, LoginMaxDelayMs) == 30000
    ensures TotalBackoff(4, LoginBaseDelayMs, LoginMaxDelayMs) == 15000
  {
    assert Pow2(5) == 32;
  }

  /** The delays never exceed the cap and, for a non-negative base, never
      shrink from one attempt to the next. */
  lemma {:induction false} BackoffMonotone(base: int, attempt: nat, maxDelay: int)
    requires base >= 0 && attempt >= 1
    ensures BackoffDelay(base, attempt, maxDelay) <= maxDelay
    ensures BackoffDelay(base, attempt, maxDelay) <= BackoffDelay(base, attempt + 1, maxDelay)
  {
    assert Pow2(attempt) == 2 * Pow2(attempt - 1);
    assert base * Pow2(attempt) == 2 * (base * Pow2(attempt - 1));
  }
}
