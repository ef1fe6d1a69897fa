/**
 * The retry policy shared by the command channel and the notification loop:
 * the answer `-3` (EAGAIN) is retried with exponential backoff, at most
 * `MaxRetries` times.
 */
module Retry {

  /** `MAX_RETRIES`: the number of retries after the first attempt. */
  const MaxRetries: nat := 4

  /** The code the server answers with when it is temporarily congested. */
  const Eagain: int := -3

  function Pow2(n: nat): (p: nat)
    ensures p >= 1
  {
    if n == 0 then 1 else 2 * Pow2(n - 1)
  }

  /**
   * Milliseconds scheduled after a `-3` answer to attempt `retryno` (0 for
   * the first attempt) before attempt `retryno + 1` is made:
   * `Math.pow(2, retryno + 1) * 1e3`.
   */
  function RetryDelay(retryno: nat): (d: nat) {
    Pow2(retryno + 1) * 1000
  }

  /** Whether the answer `code` to attempt `retryno` schedules another attempt. */
  predicate Retried(code: int, retryno: nat) {
    code == Eagain && retryno < MaxRetries
  }

  /** The backoff accumulated before attempt `n` when every earlier attempt was answered `-3`. */
  function CumulativeDelay(n: nat): (d: nat) {
    if n == 0 then 0 else CumulativeDelay(n - 1) + RetryDelay(n - 1)
  }

  /** The delays of `retries` consecutive retries, the first of them after attempt `from`. */
  function Backoff(from: nat, retries: nat): (d: nat)
    decreases retries
  {
    if retries == 0 then 0 else RetryDelay(from) + Backoff(from + 1, retries - 1)
  }

  /** Consecutive retries from attempt `from` on wait what the cumulative backoff adds between those attempts. */
  lemma {:induction false} BackoffIsCumulative(from: nat, retries: nat)
    ensures Backoff(from, retries) + CumulativeDelay(from) == CumulativeDelay(from + retries)
    decreases retries
  {
    if retries > 0 {
      BackoffIsCumulative(from + 1, retries - 1);
      assert from + 1 + (retries - 1) == from + retries;
    }
  }

  /** The backoff before attempt n sums to 2 + 4 + ... + 2^n seconds. */
  lemma {:induction false} CumulativeDelayClosedForm(n: nat)
    ensures CumulativeDelay(n) == (Pow2(n + 1) - 2) * 1000
  {
    if n > 0 {
      CumulativeDelayClosedForm(n - 1);
    }
  }

  /** The four retries wait 2, 4, 8 and 16 seconds, 30 seconds in all. */
  lemma BackoffSchedule()
    ensures [RetryDelay(0), RetryDelay(1), RetryDelay(2), RetryDelay(3)] == [2000, 4000, 8000, 16000]
    ensures CumulativeDelay(MaxRetries) == 30000
    ensures !Retried(Eagain, MaxRetries)
  {
    CumulativeDelayClosedForm(MaxRetries);
  }

  /** The cumulative backoff only grows with the number of attempts. */
  lemma {:induction false} CumulativeDelayMonotone(m: nat, n: nat)
    requires m <= n
    ensures CumulativeDelay(m) <= CumulativeDelay(n)
  {
    if m < n {
      CumulativeDelayMonotone(m, n - 1);
    }
  }
}
