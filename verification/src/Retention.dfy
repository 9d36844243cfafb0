/**
 What runs lose: a policy state is emptied only after failures that go back 30 minutes, a
 fresh policy survives a refresh in which an attempted branch failed, and exactly when a
 refresh loses a fresh policy, or one that it has just fetched.
 */
module Retention {
  import opened Clock
  import opened BatchGrid
  import opened Options
  import opened Retry
  import opened PolicyCache
  import opened FailurePath
  import opened DomainRuns

  // ---------- the failure record belongs to a real failure ----------

  lemma StepWritesFailure(grid: Grid, s: State, ev: Event)
    requires Next(grid, s, ev).failure.Some?
    ensures var f := Next(grid, s, ev).failure.value;
            || (s.failure.Some? && s.failure.value.firstFailed == f.firstFailed)
            || (s.failure.None? && ev.Prefetch? && Refreshed(s, ev).Failed? && f.firstFailed == ev.merged)
  {
    if ev.Prefetch? && Refreshed(s, ev).Failed? {
      var r := Refreshed(s, ev);
      FailStepRecords(grid, r.state, r.handed, PrefetchResult(s, ev), ev.merged, ev.clearJitter);
    }
  }

  lemma FailStepRecords(grid: Grid, s: State, c: Option<Entry>, r: DomainResult, now: Instant, jitter: nat)
    requires FailStep(grid, s, c, r, now, jitter).failure.Some?
    ensures FailStep(grid, s, c, r, now, jitter).failure.value.firstFailed == RecordedFailure(s.failure, now).firstFailed
  {
  }

  /** Step `i` was the failed refresh that the record of state `n` counts from, and the
      record has been kept ever since. */
  ghost predicate FailureOrigin(grid: Grid, states: seq<State>, events: seq<Event>, n: nat, i: nat)
    requires Run(grid, states, events) && i < n < |states|
  {
    && states[n].failure.Some?
    && events[i].Prefetch? && Refreshed(states[i], events[i]).Failed? && states[i].failure.None?
    && RecordKept(states, i, n, events[i].merged)
  }

  /** From state `i + 1` to state `n` the record counts from `first`. */
  ghost predicate RecordKept(states: seq<State>, i: nat, n: nat, first: Instant)
    requires i < n < |states|
  {
    forall j :: i < j <= n ==> states[j].failure.Some? && states[j].failure.value.firstFailed == first
  }

  lemma FailureOriginHere(grid: Grid, states: seq<State>, events: seq<Event>, n: nat)
    requires Run(grid, states, events) && 0 < n < |states| && states[n].failure.Some? && states[n - 1].failure.None?
    ensures FailureOrigin(grid, states, events, n, n - 1)
  {
  }

  lemma FailureOriginEarlier(grid: Grid, states: seq<State>, events: seq<Event>, n: nat, i: nat)
    requires Run(grid, states, events) && 0 < n < |states| && states[n].failure.Some? && i < n - 1
    requires FailureOrigin(grid, states, events, n - 1, i)
    ensures FailureOrigin(grid, states, events, n, i)
  {
    StepWritesFailure(grid, states[n - 1], events[n - 1]);
  }

  lemma {:induction false} FailureHasOrigin(grid: Grid, states: seq<State>, events: seq<Event>, n: nat) returns (i: nat)
    requires Run(grid, states, events) && n < |states| && states[n].failure.Some?
    ensures i < n && FailureOrigin(grid, states, events, n, i)
  {
    assert n > 0;
    if states[n - 1].failure.Some? {
      i := FailureHasOrigin(grid, states, events, n - 1);
      FailureOriginEarlier(grid, states, events, n, i);
    } else {
      i := n - 1;
      FailureOriginHere(grid, states, events, n);
    }
  }

  /** Over every run, the failure path clears a branch or drops the state only when a
      refresh at least 30 minutes earlier failed and no success or removal came between. */
  lemma LossFollowsLastingFailure(grid: Grid, states: seq<State>, events: seq<Event>, n: nat)
    requires Run(grid, states, events) && n < |events|
    requires FailureOutcome(grid, states[n], events[n]).Some? && !FailureOutcome(grid, states[n], events[n]).value.Retried?
    ensures exists i: nat :: i < n && FailureOrigin(grid, states, events, n, i)
              && events[i].merged + RETRY_MAX_AGE <= events[n].merged
  {
    var s, ev := states[n], events[n];
    var handed := Refreshed(s, ev).handed;
    DecisionBounds(grid, s.failure, ev.merged, GraceDeadline(handed, PrefetchResult(s, ev)));
    var i := FailureHasOrigin(grid, states, events, n);
  }

  // ---------- a fresh policy survives a failed attempt ----------

  lemma FailStepKeepsFreshPolicies(grid: Grid, s: State, c: Option<Entry>, r: DomainResult, now: Instant, jitter: nat)
    requires grid.Valid() && s.entry.Some? && c.Some? && jitter < JITTER_SECONDS
    requires DaneFailed(r) || MtaStsFailed(r)
    ensures var s' := FailStep(grid, s, c, r, now, jitter);
            && (FreshPolicy(c.value.dane, now) && s.entry.value.dane == c.value.dane ==>
                  s'.entry.Some? && s'.entry.value.dane == c.value.dane)
            && (FreshPolicy(c.value.mtaSts, now) && s.entry.value.mtaSts == c.value.mtaSts ==>
                  s'.entry.Some? && s'.entry.value.mtaSts == c.value.mtaSts)
  {
  }

  /** A refresh in which some attempted branch came back without data keeps every policy
      that is still fresh and was not itself refreshed. */
  lemma RefreshKeepsFreshPolicies(grid: Grid, s: State, ev: Event)
    requires grid.Valid() && ev.Prefetch? && Enabled(s, ev)
    requires DaneFailed(PrefetchResult(s, ev)) || MtaStsFailed(PrefetchResult(s, ev))
    ensures var r := PrefetchResult(s, ev);
            var s' := Next(grid, s, ev);
            && (FreshPolicy(s.entry.value.dane, ev.merged) && !r.dane.HasData() ==>
                  s'.entry.Some? && s'.entry.value.dane == s.entry.value.dane)
            && (FreshPolicy(s.entry.value.mtaSts, ev.merged) && !r.mtaSts.HasData() ==>
                  s'.entry.Some? && s'.entry.value.mtaSts == s.entry.value.mtaSts)
  {
    var r := PrefetchResult(s, ev);
    MergeWritesDane(s.entry, ev.queried, ev.merged, PREFETCH_INTERVAL, ev.dane, ev.mtaSts, ev.jitter);
    MergeWritesMtaSts(s.entry, ev.queried, ev.merged, PREFETCH_INTERVAL, ev.dane, ev.mtaSts, ev.jitter);
    var f := Refreshed(s, ev);
    assert f.Failed?;
    RefreshedEntries(s, ev);
    FailStepKeepsFreshPolicies(grid, f.state, f.handed, r, ev.merged, ev.clearJitter);
  }

  // ---------- exactly when a refresh loses a policy ----------

  /** Refreshes have been failing for 30 minutes. */
  predicate FailingLong(s: State, now: Instant) {
    s.failure.Some? && s.failure.value.firstFailed + RETRY_MAX_AGE <= now
  }

  predicate AttemptsMtaSts(s: State, ev: Event)
    requires ev.Prefetch?
  {
    QueriesMtaSts(s.entry, ev.queried, PREFETCH_INTERVAL)
  }

  /** Both lookups are suppressed, the DANE record has expired, and refreshes have been failing. */
  predicate SuppressedLong(s: State, ev: Event)
    requires ev.Prefetch? && s.entry.Some?
  {
    && !AttemptsDane(s, ev) && !AttemptsMtaSts(s, ev)
    && !s.entry.value.dane.Fresh(ev.merged)
    && FailingLong(s, ev.merged)
  }

  lemma SuppressedRefresh(grid: Grid, s: State, ev: Event)
    requires grid.Valid() && ev.Prefetch? && Enabled(s, ev)
    requires !AttemptsDane(s, ev) && !AttemptsMtaSts(s, ev) && FreshPolicy(s.entry.value.mtaSts, ev.merged)
    ensures Next(grid, s, ev).entry == if SuppressedLong(s, ev) then DiscardPolicyState(s).entry else s.entry
  {
  }

  /** A refresh whose lookups all completed, and which leaves a fresh policy of its own or an
      older one, settles with the merged entry. */
  lemma CompletedRefresh(grid: Grid, s: State, ev: Event)
    requires ev.Prefetch? && Enabled(s, ev)
    requires var r := PrefetchResult(s, ev);
             (r.dane.HasData() || r.mtaSts.HasData()) && !DaneFailed(r) && !MtaStsFailed(r)
    requires Select(Merge(s.entry, PrefetchResult(s, ev), ev.merged, ev.jitter), ev.merged).Serve?
    ensures Next(grid, s, ev).entry == Some(Merge(s.entry, PrefetchResult(s, ev), ev.merged, ev.jitter))
  {
  }

  /** A refresh loses a fresh MTA-STS policy that it did not replace exactly when both lookups
      were suppressed, the DANE record has expired and refreshes have failed for 30 minutes. */
  lemma RefreshLosesFreshMtaStsExactly(grid: Grid, s: State, ev: Event)
    requires grid.Valid() && ev.Prefetch? && Enabled(s, ev)
    requires FreshPolicy(s.entry.value.mtaSts, ev.merged) && !PrefetchResult(s, ev).mtaSts.HasData()
    ensures var s' := Next(grid, s, ev);
            !(s'.entry.Some? && s'.entry.value.mtaSts == s.entry.value.mtaSts) <==> SuppressedLong(s, ev)
  {
    var r := PrefetchResult(s, ev);
    if DaneFailed(r) || MtaStsFailed(r) {
      RefreshKeepsFreshPolicies(grid, s, ev);
    } else if !AttemptsDane(s, ev) {
      SuppressedRefresh(grid, s, ev);
    } else {
      MergedDaneIsFresh(s, ev);
      MergeWritesMtaSts(s.entry, ev.queried, ev.merged, PREFETCH_INTERVAL, ev.dane, ev.mtaSts, ev.jitter);
      CompletedRefresh(grid, s, ev);
    }
  }

  /** A completed DANE lookup is fresh when it is merged. */
  lemma MergedDaneIsFresh(s: State, ev: Event)
    requires ev.Prefetch? && Enabled(s, ev) && CompletedDane(s, ev)
    ensures PrefetchResult(s, ev).dane.HasData()
    ensures Merge(s.entry, PrefetchResult(s, ev), ev.merged, ev.jitter).dane.Fresh(ev.merged)
  {
    MergedDaneLifetime(s.entry, ev.queried, ev.merged, PREFETCH_INTERVAL, ev.dane, ev.mtaSts, ev.jitter);
  }

  /** A refresh never loses a DANE policy: neither a fresh one from before nor one it fetched. */
  lemma RefreshKeepsDanePolicies(grid: Grid, s: State, ev: Event)
    requires grid.Valid() && ev.Prefetch? && Enabled(s, ev)
    requires var m := Merge(s.entry, PrefetchResult(s, ev), ev.merged, ev.jitter); FreshPolicy(m.dane, ev.merged)
    ensures var m := Merge(s.entry, PrefetchResult(s, ev), ev.merged, ev.jitter);
            var s' := Next(grid, s, ev);
            s'.entry.Some? && s'.entry.value.dane == m.dane
  {
    var r := PrefetchResult(s, ev);
    var m := Merge(s.entry, r, ev.merged, ev.jitter);
    if DaneFailed(r) || MtaStsFailed(r) {
      FailStepKeepsFreshPolicies(grid, s.(entry := Some(m)), Some(m), r, ev.merged, ev.clearJitter);
    }
  }

  // ---------- a policy fetched in a refresh ----------

  /** The refresh has no fresh DANE evidence, and the retry deadline has passed: 30 minutes
      since the first failure, and 24 h since the expiry of a DANE policy that it failed to renew. */
  predicate LosesFetched(s: State, ev: Event)
    requires ev.Prefetch? && s.entry.Some?
  {
    var dane := s.entry.value.dane;
    && !CompletedDane(s, ev) && !dane.Fresh(ev.merged)
    && FailingLong(s, ev.merged)
    && (AttemptsDane(s, ev) && dane.policy != "" ==> dane.expiresAt + RECHECK <= ev.merged)
  }

  /** An MTA-STS policy fetched in a refresh is stored and kept, except under the condition
      above. Then the failure path works on the entry from before the refresh, whether DANE
      failed or was not asked: it goes back to the older MTA-STS policy, if DANE was asked and
      that one is still fresh, and else discards everything. */
  lemma FetchedPolicyKeptOrLost(grid: Grid, s: State, ev: Event)
    requires grid.Valid() && ev.Prefetch? && Enabled(s, ev)
    requires PrefetchResult(s, ev).mtaSts.HasData() && PrefetchResult(s, ev).mtaSts.policy != ""
    ensures var m := Merge(s.entry, PrefetchResult(s, ev), ev.merged, ev.jitter);
            var s' := Next(grid, s, ev);
            if !LosesFetched(s, ev) then s'.entry.Some? && s'.entry.value.mtaSts == m.mtaSts
            else if AttemptsDane(s, ev) && FreshPolicy(s.entry.value.mtaSts, ev.merged) then
              s'.entry.Some? && s'.entry.value.mtaSts == s.entry.value.mtaSts
            else s'.entry == DiscardPolicyState(s).entry
  {
    var r := PrefetchResult(s, ev);
    var m := Merge(s.entry, r, ev.merged, ev.jitter);
    FetchedIsServedExactly(s, ev);
    if Select(m, ev.merged).Serve? {
      if DaneFailed(r) {
        FailStepKeepsFreshPolicies(grid, s.(entry := Some(m)), Some(m), r, ev.merged, ev.clearJitter);
      }
    } else {
      UnservedFetch(grid, s, ev);
    }
  }

  /** With a fetched policy the merged entry can be served exactly if there is fresh DANE evidence. */
  lemma FetchedIsServedExactly(s: State, ev: Event)
    requires ev.Prefetch? && Enabled(s, ev)
    requires PrefetchResult(s, ev).mtaSts.HasData() && PrefetchResult(s, ev).mtaSts.policy != ""
    ensures var m := Merge(s.entry, PrefetchResult(s, ev), ev.merged, ev.jitter);
            && FreshPolicy(m.mtaSts, ev.merged)
            && (Select(m, ev.merged).Serve? <==> CompletedDane(s, ev) || s.entry.value.dane.Fresh(ev.merged))
  {
    FetchedBranchIsFresh(s, ev);
    MergeWritesDane(s.entry, ev.queried, ev.merged, PREFETCH_INTERVAL, ev.dane, ev.mtaSts, ev.jitter);
    if CompletedDane(s, ev) {
      MergedDaneIsFresh(s, ev);
    }
  }

  /** Without fresh DANE evidence the failure path gets the entry from before the refresh, and
      its deadline is the one above. */
  lemma UnservedFetchFails(s: State, ev: Event)
    requires ev.Prefetch? && Enabled(s, ev)
    requires PrefetchResult(s, ev).mtaSts.HasData()
    requires !CompletedDane(s, ev) && !s.entry.value.dane.Fresh(ev.merged)
    requires Select(Merge(s.entry, PrefetchResult(s, ev), ev.merged, ev.jitter), ev.merged).Miss?
    ensures var r := PrefetchResult(s, ev);
            && Refreshed(s, ev) == Failed(s.(entry := Some(Merge(s.entry, r, ev.merged, ev.jitter))), s.entry)
            && (DaneFailed(r) <==> AttemptsDane(s, ev)) && !MtaStsFailed(r)
            && (DeadlinePassed(s.entry, r, s.failure, ev.merged) <==> LosesFetched(s, ev))
  {
  }

  lemma UnservedFetch(grid: Grid, s: State, ev: Event)
    requires grid.Valid() && ev.Prefetch? && Enabled(s, ev)
    requires PrefetchResult(s, ev).mtaSts.HasData()
    requires !CompletedDane(s, ev) && !s.entry.value.dane.Fresh(ev.merged)
    requires Select(Merge(s.entry, PrefetchResult(s, ev), ev.merged, ev.jitter), ev.merged).Miss?
    ensures var m := Merge(s.entry, PrefetchResult(s, ev), ev.merged, ev.jitter);
            var s' := Next(grid, s, ev);
            if !LosesFetched(s, ev) then s'.entry == Some(m)
            else if AttemptsDane(s, ev) && FreshPolicy(s.entry.value.mtaSts, ev.merged) then
              s'.entry.Some? && s'.entry.value.mtaSts == s.entry.value.mtaSts
            else s'.entry == DiscardPolicyState(s).entry
  {
    UnservedFetchFails(s, ev);
    var r := PrefetchResult(s, ev);
    FailStepOn(grid, s, Merge(s.entry, r, ev.merged, ev.jitter), r, ev.merged, ev.clearJitter);
  }

  /** What the failure path leaves when it is handed the entry of `s` after `m` was stored. */
  lemma FailStepOn(grid: Grid, s: State, m: Entry, r: DomainResult, now: Instant, jitter: nat)
    requires grid.Valid() && s.entry.Some? && jitter < JITTER_SECONDS && !MtaStsFailed(r)
    requires m.counter == s.entry.value.counter
    ensures var s' := FailStep(grid, s.(entry := Some(m)), s.entry, r, now, jitter);
            if !DeadlinePassed(s.entry, r, s.failure, now) then s'.entry == Some(m)
            else if DaneFailed(r) && FreshPolicy(s.entry.value.mtaSts, now) then
              s'.entry.Some? && s'.entry.value.mtaSts == s.entry.value.mtaSts
            else s'.entry == DiscardPolicyState(s).entry
  {
  }

  lemma FetchedBranchIsFresh(s: State, ev: Event)
    requires ev.Prefetch? && Enabled(s, ev)
    requires PrefetchResult(s, ev).mtaSts.HasData() && PrefetchResult(s, ev).mtaSts.policy != ""
    ensures FreshPolicy(Merge(s.entry, PrefetchResult(s, ev), ev.merged, ev.jitter).mtaSts, ev.merged)
  {
  }
}
