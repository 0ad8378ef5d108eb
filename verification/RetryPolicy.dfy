/** The attempt counter and the waiting time of InfluxClient::attemptSendBatch. */
module RetryPolicy {
  import opened InfluxTypes

  /** The loop bound; the addition is on size_t and wraps. */
  function MaxAttempts(maxRetries: nat): nat { Successor(maxRetries) }

  /** The value of the size_t loop variable after `failed` failed attempts. */
  function AttemptNumber(failed: nat): nat { (failed + 1) % (SIZE_MAX + 1) }

  lemma AttemptNumberSteps(failed: nat)
    ensures AttemptNumber(0) == 1
    ensures AttemptNumber(failed + 1) == Successor(AttemptNumber(failed))
  {
  }

  /** After `failed` failed attempts the loop is still running and sends once more. */
  ghost predicate SendsAgain(maxRetries: nat, failed: nat) {
    forall f: nat :: f <= failed ==> AttemptNumber(f) <= MaxAttempts(maxRetries)
  }

  /** If no attempt ever succeeds the batch is sent exactly maxRetries + 1 times, unless the bound is
      one of the two largest values of size_t: the largest sends nothing, the second largest never stops. */
  lemma SendsExactlyRetriesPlusOne(maxRetries: nat, failed: nat)
    requires maxRetries <= SIZE_MAX
    ensures maxRetries < SIZE_MAX - 1 ==> (SendsAgain(maxRetries, failed) <==> failed <= maxRetries)
    ensures maxRetries == SIZE_MAX - 1 ==> SendsAgain(maxRetries, failed)
    ensures maxRetries == SIZE_MAX ==> !SendsAgain(maxRetries, failed)
  {
    if maxRetries == SIZE_MAX {
      assert AttemptNumber(0) == 1 && MaxAttempts(maxRetries) == 0;
    } else if maxRetries < SIZE_MAX - 1 && maxRetries < failed {
      assert AttemptNumber(maxRetries + 1) == maxRetries + 2;
    }
  }

  /** The loop is bounded by maxRetries + 1 sends if and only if maxRetries is not SIZE_MAX - 1. */
  lemma LoopBoundedIff(maxRetries: nat)
    requires maxRetries <= SIZE_MAX
    ensures (exists failed: nat :: !SendsAgain(maxRetries, failed)) <==> maxRetries != SIZE_MAX - 1
    ensures SendsAgain(maxRetries, 0) <==> maxRetries != SIZE_MAX
  {
    SendsExactlyRetriesPlusOne(maxRetries, 0);
    if maxRetries == SIZE_MAX - 1 {
      forall failed: nat ensures SendsAgain(maxRetries, failed) {
        SendsExactlyRetriesPlusOne(maxRetries, failed);
      }
    } else if maxRetries < SIZE_MAX - 1 {
      SendsExactlyRetriesPlusOne(maxRetries, maxRetries + 1);
    }
  }

  function Pow2(n: nat): (p: nat)
    ensures 1 <= p
  {
    if n == 0 then 1 else 2 * Pow2(n - 1)
  }

  /** Milliseconds slept after attempt number `attempt` failed. */
  function WaitMs(retryBackoffMs: int, attempt: nat): int {
    Max(1, retryBackoffMs) * Pow2(Min(if attempt == 0 then 6 else attempt - 1, 6))
  }

  /** The sleeps of the first `retries` retries, in order. */
  function Waits(retryBackoffMs: int, retries: nat): (w: seq<int>)
    ensures |w| == retries
  {
    if retries == 0 then [] else Waits(retryBackoffMs, retries - 1) + [WaitMs(retryBackoffMs, retries)]
  }

  function Sum(xs: seq<int>): int { if xs == [] then 0 else Sum(xs[..|xs| - 1]) + xs[|xs| - 1] }

  /** Milliseconds slept altogether: doubling up to the seventh retry, constant afterwards. */
  lemma {:induction false} TotalWait(retryBackoffMs: int, retries: nat)
    ensures Sum(Waits(retryBackoffMs, retries)) ==
            Max(1, retryBackoffMs) * (if retries <= 7 then Pow2(retries) - 1 else 127 + 64 * (retries - 7))
  {
    if retries > 0 {
      var w := Waits(retryBackoffMs, retries);
      TotalWait(retryBackoffMs, retries - 1);
      assert w[..retries - 1] == Waits(retryBackoffMs, retries - 1);
      assert Pow2(6) == 64 && Pow2(7) == 128;
      var m := Max(1, retryBackoffMs);
      if retries <= 7 {
        Distribute(m, Pow2(retries - 1) - 1, Pow2(retries - 1));
      } else {
        Distribute(m, 127 + 64 * (retries - 8), 64);
      }
    }
  }

  lemma Distribute(m: int, a: int, b: int)
    ensures m * a + m * b == m * (a + b)
  {
  }

  lemma {:induction false} Pow2Monotone(a: nat, b: nat)
    requires a <= b
    ensures Pow2(a) <= Pow2(b)
    decreases b
  {
    if a < b { Pow2Monotone(a, b - 1); }
  }

  /** No single wait overflows int if and only if the longest one fits. */
  lemma WaitFitsIntIff(retryBackoffMs: int, retries: nat)
    requires 1 <= retries
    ensures (forall a: nat :: 1 <= a <= retries ==> WaitMs(retryBackoffMs, a) <= INT_MAX)
       <==> Max(1, retryBackoffMs) * Pow2(Min(retries - 1, 6)) <= INT_MAX
  {
    if WaitMs(retryBackoffMs, retries) <= INT_MAX {
      forall a: nat | 1 <= a <= retries ensures WaitMs(retryBackoffMs, a) <= INT_MAX {
        Pow2Monotone(Min(a - 1, 6), Min(retries - 1, 6));
        MulMonotone(Max(1, retryBackoffMs), Pow2(Min(a - 1, 6)), Pow2(Min(retries - 1, 6)));
      }
    }
  }

  lemma MulMonotone(k: nat, a: nat, b: nat)
    requires a <= b
    ensures k * a <= k * b
  {
  }
}
