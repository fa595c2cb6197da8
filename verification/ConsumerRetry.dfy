/**
 The finite retry loop of the Kafka consumer.
 */
module ConsumerRetry {
  import opened Wrappers

  /** The handler's error on its n-th call, if any. */
  type Calls = nat -> Option<string>

  /** The calls before `n` all failed with errors worth retrying. */
  ghost predicate KeptFailing(outcome: Calls, retryable: string -> bool, n: nat) {
    forall i :: 0 <= i < n ==> outcome(i).Some? && retryable(outcome(i).value)
  }

  /**
   handleWithRetry. It makes 1 to maxRetries + 1 calls, stops at the first that succeeds or fails for
   good, reports the outcome of its last call, and sleeps backoff * attempt before each
   retry. With a negative maxRetries it makes no call and reports success.
   */
  method HandleWithRetry(outcome: Calls, retryable: string -> bool, maxRetries: int, backoff: nat)
    returns (err: Option<string>, calls: nat, slept: nat)
    ensures maxRetries < 0 ==> calls == 0 && err.None?
    ensures maxRetries >= 0 ==> 1 <= calls <= maxRetries + 1 && err == outcome(calls - 1)
    ensures maxRetries >= 0 ==> KeptFailing(outcome, retryable, calls - 1)
    ensures maxRetries >= 0 && calls <= maxRetries ==> err.None? || !retryable(err.value)
    ensures 2 * slept == backoff * calls * (calls - 1) || (calls == 0 && slept == 0)
  {
    err, calls, slept := None, 0, 0;
    var attempt := 0;
    while attempt <= maxRetries
      invariant 0 <= attempt && calls == attempt
      invariant attempt <= maxRetries + 1 || (maxRetries < 0 && attempt == 0)
      invariant KeptFailing(outcome, retryable, attempt)
      invariant err == if attempt == 0 then None else outcome(attempt - 1)
      invariant attempt == 0 ==> slept == 0
      invariant attempt > 0 ==> 2 * slept == backoff * attempt * (attempt - 1)
    {
      if attempt > 0 {
        slept := slept + backoff * attempt;
      }
      Triangle(backoff, attempt);
      calls := calls + 1;
      err := outcome(attempt);
      if err.None? { return; }
      if !retryable(err.value) { return; }
      attempt := attempt + 1;
    }
  }

  lemma Triangle(b: nat, n: nat)
    ensures b * n * (n - 1) + 2 * (b * n) == b * (n + 1) * n
  {
    calc {
      b * n * (n - 1) + 2 * (b * n);
      (b * n) * (n + 1);
      b * (n * (n + 1));
      b * (n + 1) * n;
    }
  }
}
