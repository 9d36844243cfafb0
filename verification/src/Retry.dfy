/**
 Retries of failed prefetches (internal/prefetch.go:253-302): a capped exponential
 delay, rounded up to a batch, under a deadline counted from the first failure.
 */
module Retry {
  import opened Clock
  import opened BatchGrid
  import opened Options

  const RETRY_MAX_AGE: Duration := 30 * MINUTE
  const RETRY_MAX_INTERVAL: Duration := 5 * MINUTE

  datatype Failure = Failure(firstFailed: Instant, attempts: nat)

  datatype Decision =
    | GiveUp(attempts: nat)
    | RetryAt(due: Instant, failure: Failure)

  function Pow2(n: nat): (p: nat)
    ensures p >= 1
  {
    if n == 0 then 1 else 2 * Pow2(n - 1)
  }

  lemma {:induction false} Pow2Monotone(m: nat, n: nat)
    requires m <= n
    ensures Pow2(m) <= Pow2(n)
    decreases n - m
  {
    if m < n { Pow2Monotone(m, n - 1); }
  }

  function Min(a: int, b: int): int { if a < b then a else b }

  /** The delay before retry number `attempts`: 30 s doubled per earlier attempt, at most 5 min. */
  function Delay(attempts: nat): Duration {
    if attempts == 0 then PREFETCH_INTERVAL * SECOND
    else Min(PREFETCH_INTERVAL * SECOND * Pow2(attempts - 1), RETRY_MAX_INTERVAL)
  }

  /** internal/prefetch.go:293-302 computes that delay by doubling in a loop. */
  method PrefetchRetryDelay(attempts: nat) returns (delay: Duration)
    ensures delay == Delay(attempts)
  {
    delay := PREFETCH_INTERVAL * SECOND;
    var i := 1;
    while i < attempts && delay < RETRY_MAX_INTERVAL
      invariant i == 1 || 1 < i <= attempts
      invariant delay == PREFETCH_INTERVAL * SECOND * Pow2(i - 1) <= RETRY_MAX_INTERVAL
    {
      delay := delay * 2;
      if delay > RETRY_MAX_INTERVAL {
        Pow2Monotone(i, attempts - 1);
        return RETRY_MAX_INTERVAL;
      }
      i := i + 1;
    }
    if attempts >= 1 {
      Pow2Monotone(i - 1, attempts - 1);
    }
  }

  function RetryDeadline(failure: Failure, grace: Instant): Instant {
    var deadline := failure.firstFailed + RETRY_MAX_AGE;
    if grace > deadline then grace else deadline
  }

  function RecordedFailure(recorded: Option<Failure>, now: Instant): Failure {
    if recorded.Some? then recorded.value else Failure(now, 0)
  }

  /** What a failure at `now` leads to, given the failure record and the grace deadline. */
  function Decide(grid: Grid, recorded: Option<Failure>, now: Instant, grace: Instant): Decision {
    var failure := RecordedFailure(recorded, now);
    var deadline := RetryDeadline(failure, grace);
    if now >= deadline then GiveUp(failure.attempts)
    else
      var counted := failure.(attempts := failure.attempts + 1);
      var delay := if now + Delay(counted.attempts) > deadline then deadline - now else Delay(counted.attempts);
      var batch := grid.AtOrAfter(now + delay);
      RetryAt(if batch > deadline then deadline else batch, counted)
  }

  /** internal/prefetch.go:261-287, step by step. */
  method Plan(grid: Grid, recorded: Option<Failure>, now: Instant, grace: Instant) returns (decision: Decision)
    ensures decision == Decide(grid, recorded, now, grace)
  {
    var failure := if recorded.Some? then recorded.value else Failure(now, 0);
    var retryDeadline := failure.firstFailed + RETRY_MAX_AGE;
    if grace > retryDeadline {
      retryDeadline := grace;
    }
    if !(now < retryDeadline) {
      return GiveUp(failure.attempts);
    }
    failure := failure.(attempts := failure.attempts + 1);
    var delay := PrefetchRetryDelay(failure.attempts);
    if now + delay > retryDeadline {
      delay := retryDeadline - now;
    }
    var due := grid.AtOrAfter(now + delay);
    if due > retryDeadline {
      due := retryDeadline;
    }
    return RetryAt(due, failure);
  }

  /** A retry is due strictly later and no later than the deadline, it keeps the time of
      the first failure and counts one more attempt, and it waits out the whole delay
      unless the deadline comes first. Giving up needs 30 min since the first failure
      and the end of the grace period. */
  lemma DecisionBounds(grid: Grid, recorded: Option<Failure>, now: Instant, grace: Instant)
    requires grid.Valid()
    ensures var failure := RecordedFailure(recorded, now);
            match Decide(grid, recorded, now, grace)
            case GiveUp(attempts) => attempts == failure.attempts && failure.firstFailed + RETRY_MAX_AGE <= now && grace <= now
            case RetryAt(due, counted) =>
              && now < due <= RetryDeadline(failure, grace)
              && counted == Failure(failure.firstFailed, failure.attempts + 1)
              && (due < now + Delay(counted.attempts) ==> due == RetryDeadline(failure, grace))
              && (due != RetryDeadline(failure, grace) ==> grid.IsBatch(due))
  {
  }

  // ---------- Runs of consecutive failures ----------

  function RecordBefore(records: seq<Failure>, k: nat): Option<Failure>
    requires k <= |records|
  {
    if k == 0 then None else Some(records[k - 1])
  }

  /** The retries a run of failures at `times` leads to: one decision per failure, the
      record handed from each to the next, until the first `GiveUp`. */
  ghost predicate RetryRun(grid: Grid, times: seq<Instant>, dues: seq<Instant>, records: seq<Failure>)
  {
    && |times| == |dues| == |records|
    && forall k :: 0 <= k < |times| ==>
         && Decide(grid, RecordBefore(records, k), times[k], NEVER) == RetryAt(dues[k], records[k])
         && (k > 0 ==> dues[k - 1] <= times[k])
  }

  /** Seconds that must have passed since the first failure when retry `k + 1` is due,
      unless the deadline cut it short. */
  function Elapsed(k: nat): nat {
    if k == 0 then 0
    else Elapsed(k - 1) + Delay(k) / SECOND
  }

  lemma {:induction false} RetryProgress(grid: Grid, times: seq<Instant>, dues: seq<Instant>, records: seq<Failure>, k: nat)
    requires grid.Valid() && RetryRun(grid, times, dues, records) && k < |times|
    requires times[0] > 0
    ensures records[k] == Failure(times[0], k + 1)
    ensures times[k] >= times[0] + Elapsed(k) * SECOND
    ensures dues[k] >= times[0] + Elapsed(k + 1) * SECOND || dues[k] == times[0] + RETRY_MAX_AGE
  {
    if k > 0 {
      RetryProgress(grid, times, dues, records, k - 1);
    }
    DecisionBounds(grid, RecordBefore(records, k), times[k], NEVER);
    DelayInSeconds(k + 1);
  }

  lemma DelayInSeconds(n: nat)
    ensures Delay(n) / SECOND * SECOND == Delay(n)
  {
  }

  lemma ElapsedTable()
    ensures Elapsed(9) >= 1800
    ensures forall k: nat :: k <= 8 ==> Elapsed(k) < 1800
  {
  }

  /** After the ninth retry, any failure from its due time on is given up. */
  lemma NinthRetryIsLast(grid: Grid, times: seq<Instant>, dues: seq<Instant>, records: seq<Failure>, now: Instant)
    requires grid.Valid() && RetryRun(grid, times, dues, records)
    requires |times| > 0 ==> times[0] > 0
    ensures |times| >= 9 && dues[8] <= now ==> Decide(grid, Some(records[8]), now, NEVER).GiveUp?
  {
    if |times| >= 9 {
      ElapsedTable();
      RetryProgress(grid, times, dues, records, 8);
    }
  }

  /** Without a grace deadline, if every failure comes no earlier than the retry before
      it was due, at most nine retries are scheduled before the key is given up. */
  lemma AtMostNineRetries(grid: Grid, times: seq<Instant>, dues: seq<Instant>, records: seq<Failure>)
    requires grid.Valid() && RetryRun(grid, times, dues, records)
    requires |times| > 0 ==> times[0] > 0
    ensures |times| <= 9
  {
    if |times| > 9 {
      assert Decide(grid, RecordBefore(records, 9), times[9], NEVER) == RetryAt(dues[9], records[9]);
      NinthRetryIsLast(grid, times, dues, records, times[9]);
    }
  }
}
