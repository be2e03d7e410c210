/** Timing constants of the send lane and the bound they put on a job's lifetime. */
module QueueTiming {
  import Reconciler

  const SEND_LOCK_DURATION_MS: nat := 60_000
  const CLAIM_TX_MARGIN_MS: nat := 5_000
  const RECORD_TX_MARGIN_MS: nat := 5_000
  const SENDGRID_TIMEOUT_MS: nat := 20_000
  const SEND_JOB_MAX_ATTEMPTS: nat := 5
  const SEND_JOB_BACKOFF_DELAY_MS: nat := 2_000

  function Pow2(i: nat): (r: nat)
    ensures r >= 1
  {
    if i == 0 then 1 else 2 * Pow2(i - 1)
  }

  /** The pause before the redelivery that follows attempt number `i`, counted from zero. */
  function BackoffMs(delayMs: nat, i: nat): nat {
    delayMs * Pow2(i)
  }

  function TotalBackoffMs(attempts: nat, delayMs: nat): nat {
    if attempts <= 1 then 0 else TotalBackoffMs(attempts - 1, delayMs) + BackoffMs(delayMs, attempts - 2)
  }

  method ComputeExponentialBackoffSumMs(attempts: nat, delayMs: nat) returns (sum: nat)
    ensures sum == TotalBackoffMs(attempts, delayMs)
    ensures attempts >= 1 ==> sum == delayMs * (Pow2(attempts - 1) - 1)
  {
    sum := 0;
    var i := 0;
    while i < attempts - 1
      invariant 0 <= i && (attempts >= 1 ==> i <= attempts - 1)
      invariant attempts == 0 ==> i == 0
      invariant sum == TotalBackoffMs(i + 1, delayMs)
    {
      sum := sum + delayMs * Pow2(i);
      i := i + 1;
    }
    if attempts >= 1 {
      BackoffClosedForm(attempts, delayMs);
    }
  }

  lemma {:induction false} BackoffClosedForm(attempts: nat, delayMs: nat)
    requires attempts >= 1
    ensures TotalBackoffMs(attempts, delayMs) == delayMs * (Pow2(attempts - 1) - 1)
  {
    if attempts > 1 {
      BackoffClosedForm(attempts - 1, delayMs);
      var p := Pow2(attempts - 2);
      calc {
        TotalBackoffMs(attempts, delayMs);
        delayMs * (p - 1) + delayMs * p;
        delayMs * (p + p - 1);
      }
    }
  }

  const SEND_MAX_JOB_LIFETIME_MS: nat :=
    SEND_JOB_MAX_ATTEMPTS * SEND_LOCK_DURATION_MS
    + TotalBackoffMs(SEND_JOB_MAX_ATTEMPTS, SEND_JOB_BACKOFF_DELAY_MS)
    + SEND_LOCK_DURATION_MS

  /** One attempt of a job: from taking the lock to its last write. */
  datatype Span = Span(start: int, end: int)

  /** Attempts in order, each within the lock duration, separated by no more than the backoff. */
  predicate IsSchedule(spans: seq<Span>, lockMs: nat, delayMs: nat) {
    && (forall i :: 0 <= i < |spans| ==> spans[i].start <= spans[i].end <= spans[i].start + lockMs)
    && (forall i :: 0 <= i < |spans| - 1 ==>
          spans[i].end <= spans[i + 1].start <= spans[i].end + BackoffMs(delayMs, i))
  }

  lemma {:induction false} ScheduleLength(spans: seq<Span>, lockMs: nat, delayMs: nat)
    requires spans != [] && IsSchedule(spans, lockMs, delayMs)
    ensures spans[|spans| - 1].end <= spans[0].start + |spans| * lockMs + TotalBackoffMs(|spans|, delayMs)
  {
    var n := |spans| - 1;
    if n > 0 {
      ScheduleLength(spans[..n], lockMs, delayMs);
      assert spans[n].start <= spans[n - 1].end + BackoffMs(delayMs, n - 1);
      assert (n + 1) * lockMs == n * lockMs + lockMs;
    }
  }

  lemma {:induction false} BackoffMonotone(a: nat, b: nat, delayMs: nat)
    requires a <= b
    ensures TotalBackoffMs(a, delayMs) <= TotalBackoffMs(b, delayMs)
    decreases b
  {
    if a < b {
      BackoffMonotone(a, b - 1, delayMs);
    }
  }

  /**
   * However a job's attempts fall, the last of them is over before the job-lifetime bound, and that
   * bound lies below the age at which the reconciler sweeps a row queued when the job began.
   */
  lemma NoSweepUnderALiveJob(spans: seq<Span>, queuedAt: int, now: int)
    requires 0 < |spans| <= SEND_JOB_MAX_ATTEMPTS
    requires IsSchedule(spans, SEND_LOCK_DURATION_MS, SEND_JOB_BACKOFF_DELAY_MS)
    requires spans[0].start <= queuedAt && now - queuedAt > Reconciler.STALE_DISPATCHING_AGE_MS
    ensures spans[|spans| - 1].end < spans[0].start + SEND_MAX_JOB_LIFETIME_MS
    ensures forall i :: 0 <= i < |spans| ==> spans[i].end < now
  {
    forall i | 0 <= i < |spans|
      ensures spans[i].end < spans[0].start + SEND_MAX_JOB_LIFETIME_MS
    {
      ScheduleLength(spans[..i + 1], SEND_LOCK_DURATION_MS, SEND_JOB_BACKOFF_DELAY_MS);
      BackoffMonotone(i + 1, SEND_JOB_MAX_ATTEMPTS, SEND_JOB_BACKOFF_DELAY_MS);
    }
    BackoffClosedForm(SEND_JOB_MAX_ATTEMPTS, SEND_JOB_BACKOFF_DELAY_MS);
    assert Pow2(4) == 16;
  }
}
