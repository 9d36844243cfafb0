/**
 What a failed background refresh does to a cached entry (internal/prefetch.go:257-291,
 499-568): retry under a deadline, then clear the failed branch if the other one still
 holds a fresh policy, else drop the whole policy state.
 */
module FailurePath {
  import opened Clock
  import opened BatchGrid
  import opened Options
  import opened Retry
  import opened PolicyCache

  datatype Outcome =
    | Retried(due: Instant, failure: Failure)
    | BranchCleared(entry: Entry)
    | Dropped

  /** The DANE lookup was made and gave nothing to store. */
  predicate DaneFailed(r: DomainResult) { r.daneAttempted && !r.dane.HasData() }

  predicate MtaStsFailed(r: DomainResult) { r.mtaStsAttempted && !r.mtaSts.HasData() }

  predicate FreshPolicy(b: Branch, now: Instant) { b.policy != "" && b.Fresh(now) }

  function GraceDeadline(c: Option<Entry>, r: DomainResult): Instant {
    if c.None? then NEVER
    else
      var daneDeadline := if DaneFailed(r) && c.value.dane.policy != "" then c.value.dane.expiresAt + RECHECK else NEVER;
      if MtaStsFailed(r) && c.value.mtaSts.policy != "" && c.value.mtaSts.expiresAt + RECHECK > daneDeadline
      then c.value.mtaSts.expiresAt + RECHECK
      else daneDeadline
  }

  function AfterBranchDiscard(c: Option<Entry>, r: DomainResult, now: Instant, jitter: nat): Option<Entry> {
    if c.None? then None
    else
      var e := c.value;
      var cleared := ExpireBranch(NO_BRANCH.(ttl := RECHECK_TTL), now, jitter);
      if DaneFailed(r) && FreshPolicy(e.mtaSts, now) then
        Reselected(e.(dane := cleared, daneLastAttempt := now), now)
      else if MtaStsFailed(r) && FreshPolicy(e.dane, now) then
        Reselected(e.(mtaSts := cleared, mtaStsLastAttempt := now), now)
      else None
  }

  function Reselected(e: Entry, now: Instant): Option<Entry> {
    match Select(e, now)
    case Miss => None
    case Serve(policy, report, ttl) =>
      Some(e.(policy := policy, report := report, ttl := ttl, expiresAt := now + ttl * SECOND))
  }

  function OnFailure(grid: Grid, c: Option<Entry>, r: DomainResult, recorded: Option<Failure>, now: Instant, jitter: nat): Outcome {
    match Decide(grid, recorded, now, GraceDeadline(c, r))
    case RetryAt(due, failure) => Retried(due, failure)
    case GiveUp(_) =>
      match AfterBranchDiscard(c, r, now, jitter)
      case Some(entry) => BranchCleared(entry)
      case None => Dropped
  }

  /** An attempted, failed branch that holds a policy puts the deadline at least 24 h past its expiry. */
  lemma GraceCoversFailedPolicies(c: Option<Entry>, r: DomainResult)
    requires c.Some?
    ensures DaneFailed(r) && c.value.dane.policy != "" ==> c.value.dane.expiresAt + RECHECK <= GraceDeadline(c, r)
    ensures MtaStsFailed(r) && c.value.mtaSts.policy != "" ==> c.value.mtaSts.expiresAt + RECHECK <= GraceDeadline(c, r)
  {
  }

  /** The retry deadline for this failure has passed. */
  predicate DeadlinePassed(c: Option<Entry>, r: DomainResult, recorded: Option<Failure>, now: Instant) {
    now >= RetryDeadline(RecordedFailure(recorded, now), GraceDeadline(c, r))
  }

  /** Clearing one branch keeps the other and leaves an entry that serves its policy. */
  lemma BranchDiscardServes(c: Option<Entry>, r: DomainResult, now: Instant, jitter: nat)
    requires c.Some? && jitter < JITTER_SECONDS
    requires (DaneFailed(r) && FreshPolicy(c.value.mtaSts, now)) || (MtaStsFailed(r) && FreshPolicy(c.value.dane, now))
    ensures var u := AfterBranchDiscard(c, r, now, jitter);
            && u.Some?
            && u.value.counter == c.value.counter
            && Select(u.value, now).Serve?
            && (DaneFailed(r) && FreshPolicy(c.value.mtaSts, now) ==>
                  && u.value.mtaSts == c.value.mtaSts && u.value.dane.policy == ""
                  && Select(u.value, now).policy == c.value.mtaSts.policy)
            && (!(DaneFailed(r) && FreshPolicy(c.value.mtaSts, now)) ==>
                  && u.value.dane == c.value.dane && u.value.mtaSts.policy == ""
                  && Select(u.value, now).policy == c.value.dane.policy)
  {
  }

  /** Failure-path retention. Whenever some attempted branch came back without data, the
      path changes the entry only once the deadline has passed, which is at least 30 min
      after the first recorded failure and at least 24 h after the expiry of any policy in
      an attempted, failed branch. It then drops the entry exactly when neither branch
      holds a fresh policy; a fresh policy is kept, with its branch untouched, and served. */
  lemma Retention(grid: Grid, c: Option<Entry>, r: DomainResult, recorded: Option<Failure>, now: Instant, jitter: nat)
    requires grid.Valid() && c.Some? && jitter < JITTER_SECONDS
    requires DaneFailed(r) || MtaStsFailed(r)
    ensures var e := c.value;
            var o := OnFailure(grid, c, r, recorded, now, jitter);
            && (o.Retried? <==> !DeadlinePassed(c, r, recorded, now))
            && (o.Dropped? <==> DeadlinePassed(c, r, recorded, now) && !FreshPolicy(e.dane, now) && !FreshPolicy(e.mtaSts, now))
            && (!o.Retried? ==>
                  && RecordedFailure(recorded, now).firstFailed + RETRY_MAX_AGE <= now
                  && (DaneFailed(r) && e.dane.policy != "" ==> e.dane.expiresAt + RECHECK <= now)
                  && (MtaStsFailed(r) && e.mtaSts.policy != "" ==> e.mtaSts.expiresAt + RECHECK <= now))
            && (o.BranchCleared? ==>
                  && o.entry.counter == e.counter
                  && Select(o.entry, now).Serve?
                  && (FreshPolicy(e.dane, now) ==>
                        o.entry.dane == e.dane && Select(o.entry, now).policy == e.dane.policy)
                  && (FreshPolicy(e.mtaSts, now) ==>
                        o.entry.mtaSts == e.mtaSts && Select(o.entry, now).policy == e.mtaSts.policy))
  {
  }

  /** The hypothesis that some attempted branch failed cannot be dropped: over all results,
      an entry holding a fresh policy is lost exactly when the deadline has passed and no
      attempted branch lacks data, as when both lookups were suppressed. */
  lemma FreshPolicyLostExactlyWithoutFailedAttempt(
    grid: Grid, c: Option<Entry>, r: DomainResult, recorded: Option<Failure>, now: Instant, jitter: nat)
    requires grid.Valid() && c.Some? && jitter < JITTER_SECONDS
    requires FreshPolicy(c.value.dane, now) || FreshPolicy(c.value.mtaSts, now)
    ensures OnFailure(grid, c, r, recorded, now, jitter).Dropped? <==>
            DeadlinePassed(c, r, recorded, now) && !DaneFailed(r) && !MtaStsFailed(r)
  {
  }
}
