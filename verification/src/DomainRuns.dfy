/**
 Whole runs of the cache on one domain, from an empty cache. A step is one cache hit, one
 on-demand query with its merge (internal/server.go:1370-1391), one background refresh
 with its merge and failure handling (internal/prefetch.go:585-671), a flush of the hit
 counter, a discard of the policy state, the removal of the entry, or the removal of the
 domain from the prefetch schedule (internal/prefetch.go:378-400), which forgets its
 failures and nothing else.
 */
module DomainRuns {
  import opened Clock
  import opened BatchGrid
  import opened Options
  import opened Retry
  import opened PolicyCache
  import opened FailurePath

  const CACHE_MAX_AGE: nat := 1800

  /** The stored entry, the hits not yet added to its counter, and the failure record. */
  datatype State = State(entry: Option<Entry>, pending: nat, failure: Option<Failure>)

  const INITIAL := State(None, 0, None)

  datatype Event =
    | Hit(now: Instant)
    | OnDemand(queried: Instant, merged: Instant, dane: Lookup, mtaSts: Lookup, jitter: nat, unscheduled: bool)
    | Prefetch(popped: Instant, queried: Instant, merged: Instant, dane: Lookup, mtaSts: Lookup, jitter: nat, clearJitter: nat)
    | Flush
    | Discard
    | Remove
    | Unschedule

  // ---------- hit counting, in 32-bit arithmetic ----------

  function StatsOnly(counter: nat): Entry { EMPTY_ENTRY.(counter := counter) }

  /** internal/server.go:155-170. */
  function DiscardPolicyState(s: State): State {
    var counter := if s.entry.Some? then s.entry.value.counter else 0;
    var total := (counter + s.pending) % UINT32;
    s.(entry := if total == 0 then None else Some(StatsOnly(total)), pending := 0)
  }

  /** internal/server.go:856-868. */
  function FlushHits(s: State): State {
    match s.entry
    case None => s.(pending := 0)
    case Some(e) =>
      if s.pending == 0 then s
      else s.(entry := Some(e.(counter := (e.counter + s.pending) % UINT32)), pending := 0)
  }

  // ---------- when a due entry is refreshed ----------

  function EntryRemaining(e: Entry, now: Instant): nat {
    if !e.HasBranches() then SecondsUntil(e.expiresAt, now)
    else
      var d, m := e.dane.Remaining(now), e.mtaSts.Remaining(now);
      if d > m then d else m
  }

  function BranchAge(b: Branch, now: Instant): nat {
    if b.HasData() then SecondsUntil(now, b.expiresAt) else 0
  }

  function EntryAge(e: Entry, now: Instant): nat {
    if !e.HasBranches() then SecondsUntil(now, e.expiresAt)
    else if !e.dane.HasData() then BranchAge(e.mtaSts, now)
    else if !e.mtaSts.HasData() then BranchAge(e.dane, now)
    else
      var d, m := BranchAge(e.dane, now), BranchAge(e.mtaSts, now);
      if d < m then d else m
  }

  predicate HadPolicyWithin(b: Branch, now: Instant) {
    b.policy != "" && (b.Fresh(now) || now < b.expiresAt + RECHECK)
  }

  predicate ShouldRetryPrefetch(e: Entry, now: Instant) {
    && EntryAge(e, now) < CACHE_MAX_AGE && EntryRemaining(e, now) != 0
    && (Select(e, now).Miss? || Select(e, now).policy != "" || HadPolicyWithin(e.dane, now) || HadPolicyWithin(e.mtaSts, now))
  }

  /** internal/prefetch.go:590-619: the due entry is looked up again. */
  predicate DueForRefresh(e: Entry, now: Instant) {
    match Select(e, now)
    case Miss => ShouldRetryPrefetch(e, now) && EntryAge(e, now) < CACHE_MAX_AGE
    case Serve(policy, _, ttl) => policy != "" && EntryAge(e, now) < CACHE_MAX_AGE && ttl <= PREFETCH_INTERVAL
  }

  // ---------- steps ----------

  function OnDemandResult(s: State, ev: Event): DomainResult
    requires ev.OnDemand?
  {
    Query(s.entry, ev.queried, 0, ev.dane, ev.mtaSts)
  }

  predicate Stored(s: State, ev: Event)
    requires ev.OnDemand?
  {
    var r := OnDemandResult(s, ev);
    r.ttl != 0 || r.dane.HasData() || r.mtaSts.HasData() || (s.entry.Some? && (r.daneAttempted || r.mtaStsAttempted))
  }

  function OnDemandStep(s: State, ev: Event): State
    requires ev.OnDemand?
  {
    if !Stored(s, ev) then s
    else
      var cs := Merge(s.entry, OnDemandResult(s, ev), ev.merged, ev.jitter);
      var counted := cs.(counter := (cs.counter + s.pending + 1) % UINT32);
      State(Some(counted), 0, if Select(counted, ev.merged).Serve? || ev.unscheduled then None else s.failure)
  }

  function PrefetchResult(s: State, ev: Event): DomainResult
    requires ev.Prefetch?
  {
    Query(s.entry, ev.queried, PREFETCH_INTERVAL, ev.dane, ev.mtaSts)
  }

  /** Failure handling for the entry `c`, which may be older than the stored one. */
  function FailStep(grid: Grid, s: State, c: Option<Entry>, r: DomainResult, now: Instant, jitter: nat): State {
    match OnFailure(grid, c, r, s.failure, now, jitter)
    case Retried(_, failure) => s.(failure := Some(failure))
    case BranchCleared(entry) => s.(entry := Some(entry), failure := None)
    case Dropped => DiscardPolicyState(s.(failure := None))
  }

  /** How a refresh ends: settled, or failed with the entry handed to the failure path. */
  datatype Refresh = Settled(state: State) | Failed(state: State, handed: Option<Entry>)

  /** internal/prefetch.go:634-671. */
  function Refreshed(s: State, ev: Event): Refresh
    requires ev.Prefetch?
  {
    var r := PrefetchResult(s, ev);
    if r.dane.HasData() || r.mtaSts.HasData() || r.daneAttempted || r.mtaStsAttempted then
      var m := Merge(s.entry, r, ev.merged, ev.jitter);
      if Select(m, ev.merged).Serve? then
        if DaneFailed(r) || MtaStsFailed(r) then Failed(s.(entry := Some(m)), Some(m))
        else Settled(s.(entry := Some(m), failure := None))
      else Failed(s.(entry := Some(m)), s.entry)
    else if SelectCached(s.entry, ev.merged).Serve? then Settled(s.(failure := None))
    else Failed(s, s.entry)
  }

  function PrefetchStep(grid: Grid, s: State, ev: Event): State
    requires ev.Prefetch?
  {
    match Refreshed(s, ev)
    case Settled(state) => state
    case Failed(state, handed) => FailStep(grid, state, handed, PrefetchResult(s, ev), ev.merged, ev.clearJitter)
  }

  function Next(grid: Grid, s: State, ev: Event): State {
    match ev
    case Hit(_) => s.(pending := (s.pending + 1) % UINT32)
    case OnDemand(_, _, _, _, _, _) => OnDemandStep(s, ev)
    case Prefetch(_, _, _, _, _, _, _) => PrefetchStep(grid, s, ev)
    case Flush => FlushHits(s)
    case Discard => DiscardPolicyState(s).(failure := None)
    case Remove => INITIAL
    case Unschedule => s.(failure := None)
  }

  predicate Enabled(s: State, ev: Event) {
    match ev
    case Hit(now) => SelectCached(s.entry, now).Serve?
    case OnDemand(queried, merged, _, _, jitter, _) =>
      0 < queried <= merged && jitter < JITTER_SECONDS && SelectCached(s.entry, queried).Miss?
    case Prefetch(popped, queried, merged, _, _, jitter, clearJitter) =>
      && 0 < popped <= queried <= merged && jitter < JITTER_SECONDS && clearJitter < JITTER_SECONDS
      && s.entry.Some? && DueForRefresh(s.entry.value, popped)
    case _ => true
  }

  /** `states` is the run of `events` from an empty cache. */
  ghost predicate Run(grid: Grid, states: seq<State>, events: seq<Event>) {
    && grid.Valid()
    && |states| == |events| + 1
    && states[0] == INITIAL
    && forall i :: 0 <= i < |events| ==> Enabled(states[i], events[i]) && states[i + 1] == Next(grid, states[i], events[i])
  }

  /** A run followed by one more step is a run. */
  lemma RunGrows(grid: Grid, states: seq<State>, events: seq<Event>, ev: Event, next: State)
    requires Run(grid, states, events) && Enabled(states[|events|], ev) && next == Next(grid, states[|events|], ev)
    ensures Run(grid, states + [next], events + [ev])
  {
    var longer, more := states + [next], events + [ev];
    forall i | 0 <= i < |more| ensures Enabled(longer[i], more[i]) && longer[i + 1] == Next(grid, longer[i], more[i]) {
      if i < |events| {
        assert longer[i] == states[i] && longer[i + 1] == states[i + 1] && more[i] == events[i];
      }
    }
  }

  // ---------- what every step keeps ----------

  /** Entries are well formed, an entry without branches is never served, and hits are
      pending only while an entry is stored. */
  predicate Good(s: State) {
    && WellFormed(s.entry)
    && s.pending < UINT32
    && (s.entry.None? ==> s.pending == 0)
    && (s.entry.Some? ==> s.entry.value.counter < UINT32)
    && (s.entry.Some? && !s.entry.value.HasBranches() ==> s.entry.value.policy != "dane" && s.entry.value.policy != "dane-only")
  }

  lemma MergeIsGood(c: Option<Entry>, queried: Instant, merged: Instant, renewBefore: nat, dane: Lookup, mtaSts: Lookup, jitter: nat)
    requires Good(State(c, 0, None)) && 0 < queried <= merged
    ensures var m := Merge(c, Query(c, queried, renewBefore, dane, mtaSts), merged, jitter);
            && Good(State(Some(m), 0, None))
            && m.counter == if c.Some? then c.value.counter else 0
  {
  }

  lemma FailStepIsGood(grid: Grid, s: State, c: Option<Entry>, r: DomainResult, now: Instant, jitter: nat)
    requires Good(s) && s.entry.Some? && c.Some? && Good(State(c, 0, None)) && 0 < now && jitter < JITTER_SECONDS
    ensures Good(FailStep(grid, s, c, r, now, jitter))
  {
  }

  /** A refresh stores and hands on the merged entry or the one it started from. */
  lemma RefreshedEntries(s: State, ev: Event)
    requires ev.Prefetch? && s.entry.Some?
    ensures var f := Refreshed(s, ev);
            var m := Merge(s.entry, PrefetchResult(s, ev), ev.merged, ev.jitter);
            && f.state.pending == s.pending
            && (f.state.entry == s.entry || f.state.entry == Some(m))
            && (f.Failed? ==> f.state.failure == s.failure && (f.handed == s.entry || f.handed == Some(m)))
  {
  }

  lemma RefreshedIsGood(s: State, ev: Event)
    requires Good(s) && ev.Prefetch? && Enabled(s, ev)
    ensures Good(Refreshed(s, ev).state) && Refreshed(s, ev).state.entry.Some?
    ensures Refreshed(s, ev).Failed? ==> Refreshed(s, ev).handed.Some? && Good(State(Refreshed(s, ev).handed, 0, None))
  {
    MergeIsGood(s.entry, ev.queried, ev.merged, PREFETCH_INTERVAL, ev.dane, ev.mtaSts, ev.jitter);
    RefreshedEntries(s, ev);
  }

  lemma PrefetchKeepsGood(grid: Grid, s: State, ev: Event)
    requires Good(s) && ev.Prefetch? && Enabled(s, ev)
    ensures Good(PrefetchStep(grid, s, ev))
  {
    RefreshedIsGood(s, ev);
    var f := Refreshed(s, ev);
    if f.Failed? {
      FailStepIsGood(grid, f.state, f.handed, PrefetchResult(s, ev), ev.merged, ev.clearJitter);
    }
  }

  lemma OnDemandKeepsGood(s: State, ev: Event)
    requires Good(s) && ev.OnDemand? && Enabled(s, ev)
    ensures Good(OnDemandStep(s, ev))
  {
    MergeIsGood(s.entry, ev.queried, ev.merged, 0, ev.dane, ev.mtaSts, ev.jitter);
  }

  lemma StepKeepsGood(grid: Grid, s: State, ev: Event)
    requires Good(s) && Enabled(s, ev)
    ensures Good(Next(grid, s, ev))
  {
    if ev.OnDemand? {
      OnDemandKeepsGood(s, ev);
    } else if ev.Prefetch? {
      PrefetchKeepsGood(grid, s, ev);
    }
  }

  lemma {:induction false} RunsStayGood(grid: Grid, states: seq<State>, events: seq<Event>, n: nat)
    requires Run(grid, states, events) && n < |states|
    ensures Good(states[n])
  {
    if n > 0 {
      RunsStayGood(grid, states, events, n - 1);
      StepKeepsGood(grid, states[n - 1], events[n - 1]);
    }
  }

  // ---------- where a stored DANE branch comes from ----------

  /** The step asked for DANE and the lookup completed. */
  predicate CompletedDane(s: State, ev: Event) {
    match ev
    case OnDemand(queried, _, dane, _, _, _) => QueriesDane(s.entry, queried, 0) && dane.policy != TEMP
    case Prefetch(_, queried, _, dane, _, _, _) => QueriesDane(s.entry, queried, PREFETCH_INTERVAL) && dane.policy != TEMP
    case _ => false
  }

  function FailureOutcome(grid: Grid, s: State, ev: Event): Option<Outcome> {
    if !ev.Prefetch? then None
    else
      match Refreshed(s, ev)
      case Settled(_) => None
      case Failed(_, handed) => Some(OnFailure(grid, handed, PrefetchResult(s, ev), s.failure, ev.merged, ev.clearJitter))
  }

  /** The step gave up on a failing DANE branch and cleared it in favour of a fresh MTA-STS policy. */
  predicate ClearsDane(grid: Grid, s: State, ev: Event) {
    && ev.Prefetch? && DaneFailed(PrefetchResult(s, ev))
    && FailureOutcome(grid, s, ev).Some? && FailureOutcome(grid, s, ev).value.BranchCleared?
  }

  predicate HoldsDane(s: State) {
    s.entry.Some? && s.entry.value.dane.HasData()
  }

  lemma MergeWritesDane(c: Option<Entry>, queried: Instant, merged: Instant, renewBefore: nat, dane: Lookup, mtaSts: Lookup, jitter: nat)
    ensures var r := Query(c, queried, renewBefore, dane, mtaSts);
            var b := Merge(c, r, merged, jitter).dane;
            && (!r.dane.HasData() ==> b == if c.Some? then c.value.dane else NO_BRANCH)
            && (r.dane.HasData() ==> QueriesDane(c, queried, renewBefore) && dane.policy != TEMP && b.policy == dane.policy)
  {
  }

  /** The failure path keeps a branch as stored or as handed in, or clears a failed one. */
  lemma FailStepBranches(grid: Grid, s: State, c: Option<Entry>, r: DomainResult, now: Instant, jitter: nat)
    requires s.entry.Some? && c.Some?
    ensures var s' := FailStep(grid, s, c, r, now, jitter);
            var o := OnFailure(grid, c, r, s.failure, now, jitter);
            s'.entry.Some? ==>
              && (s'.entry.value.dane.HasData() ==>
                    || (o.Retried? && s'.entry.value.dane == s.entry.value.dane)
                    || (o.BranchCleared? && s'.entry.value.dane == c.value.dane)
                    || (o.BranchCleared? && DaneFailed(r) && s'.entry.value.dane.policy == ""))
              && (s'.entry.value.mtaSts.HasData() ==>
                    || (o.Retried? && s'.entry.value.mtaSts == s.entry.value.mtaSts)
                    || (o.BranchCleared? && s'.entry.value.mtaSts == c.value.mtaSts)
                    || (o.BranchCleared? && MtaStsFailed(r) && s'.entry.value.mtaSts.policy == ""))
  {
  }

  /** A step leaves the DANE branch alone unless it wrote a completed lookup or cleared it. */
  lemma StepWritesDane(grid: Grid, s: State, ev: Event)
    requires Good(s) && Enabled(s, ev) && HoldsDane(Next(grid, s, ev))
    ensures var b := Next(grid, s, ev).entry.value.dane;
            || (s.entry.Some? && s.entry.value.dane == b)
            || (CompletedDane(s, ev) && b.policy == ev.dane.policy)
            || (ClearsDane(grid, s, ev) && b.policy == "")
  {
    match ev
    case OnDemand(queried, merged, dane, mtaSts, jitter, _) =>
      MergeWritesDane(s.entry, queried, merged, 0, dane, mtaSts, jitter);
    case Prefetch(_, queried, merged, dane, mtaSts, jitter, clearJitter) =>
      PrefetchWritesDane(grid, s, ev);
    case _ =>
  }

  lemma PrefetchWritesDane(grid: Grid, s: State, ev: Event)
    requires ev.Prefetch? && s.entry.Some? && HoldsDane(PrefetchStep(grid, s, ev))
    ensures var b := PrefetchStep(grid, s, ev).entry.value.dane;
            || s.entry.value.dane == b
            || (CompletedDane(s, ev) && b.policy == ev.dane.policy)
            || (ClearsDane(grid, s, ev) && b.policy == "")
  {
    MergeWritesDane(s.entry, ev.queried, ev.merged, PREFETCH_INTERVAL, ev.dane, ev.mtaSts, ev.jitter);
    if Refreshed(s, ev).Failed? {
      var f := Refreshed(s, ev);
      RefreshedEntries(s, ev);
      FailStepBranches(grid, f.state, f.handed, PrefetchResult(s, ev), ev.merged, ev.clearJitter);
    }
  }

  /** Step `i` wrote the DANE branch that state `n` holds, and no step since has touched it. */
  ghost predicate DaneOrigin(grid: Grid, states: seq<State>, events: seq<Event>, n: nat, i: nat)
    requires Run(grid, states, events) && i < n < |states|
  {
    && HoldsDane(states[n])
    && (forall j :: i < j <= n ==> states[j].entry.Some? && states[j].entry.value.dane == states[n].entry.value.dane)
    && ((CompletedDane(states[i], events[i]) && events[i].dane.policy == states[n].entry.value.dane.policy)
        || (ClearsDane(grid, states[i], events[i]) && states[n].entry.value.dane.policy == ""))
  }

  lemma {:induction false} DaneHasOrigin(grid: Grid, states: seq<State>, events: seq<Event>, n: nat) returns (i: nat)
    requires Run(grid, states, events) && n < |states| && HoldsDane(states[n])
    ensures i < n && DaneOrigin(grid, states, events, n, i)
  {
    assert n > 0;
    RunsStayGood(grid, states, events, n - 1);
    StepWritesDane(grid, states[n - 1], events[n - 1]);
    if states[n - 1].entry.Some? && states[n - 1].entry.value.dane == states[n].entry.value.dane {
      i := DaneHasOrigin(grid, states, events, n - 1);
    } else {
      i := n - 1;
    }
  }

  /** Over every run, whenever the cached entry serves an MTA-STS result, the no-DANE
      record it rests on was written by a completed DANE lookup that found no policy, or
      by giving up on a failing DANE branch, and has not been touched since. */
  lemma CachedMtaStsRestsOnNoDane(grid: Grid, states: seq<State>, events: seq<Event>, n: nat, now: Instant)
    requires Run(grid, states, events) && n < |states|
    requires SelectCached(states[n].entry, now).Serve? && states[n].entry.value.dane.policy == ""
    ensures exists i: nat :: i < n && DaneOrigin(grid, states, events, n, i)
  {
    RunsStayGood(grid, states, events, n);
    var i := DaneHasOrigin(grid, states, events, n);
  }

  /** The same for the selector of fresh results: an answer that is not TEMP and rests on
      no-DANE evidence has it from its own completed lookup or from such a record. */
  lemma AnswerRestsOnNoDane(
    grid: Grid, states: seq<State>, events: seq<Event>, n: nat, now: Instant, renewBefore: nat, dane: Lookup, mtaSts: Lookup)
    requires Run(grid, states, events) && n < |states|
    requires Query(states[n].entry, now, renewBefore, dane, mtaSts).policy != TEMP
    requires DaneUsed(states[n].entry, now, renewBefore, dane).policy == ""
    ensures || (QueriesDane(states[n].entry, now, renewBefore) && dane.policy == "")
            || exists i: nat :: i < n && DaneOrigin(grid, states, events, n, i)
  {
    RunsStayGood(grid, states, events, n);
    if !QueriesDane(states[n].entry, now, renewBefore) {
      SkippedDaneIsCovered(states[n].entry, now, renewBefore);
      var i := DaneHasOrigin(grid, states, events, n);
    } else {
      TempExactlyOnDaneTemp(states[n].entry, now, renewBefore, dane, mtaSts);
    }
  }

  /** A TEMP result by itself neither creates a DANE branch nor changes one. */
  lemma TempNeverWritesDane(grid: Grid, s: State, ev: Event)
    requires Good(s) && Enabled(s, ev) && (ev.OnDemand? || ev.Prefetch?) && ev.dane.policy == TEMP
    requires HoldsDane(Next(grid, s, ev)) && !ClearsDane(grid, s, ev)
    ensures s.entry.Some? && Next(grid, s, ev).entry.value.dane == s.entry.value.dane
  {
    StepWritesDane(grid, s, ev);
  }

  // ---------- how recent the last DANE attempt is ----------

  predicate AttemptsDane(s: State, ev: Event) {
    match ev
    case OnDemand(queried, _, _, _, _, _) => QueriesDane(s.entry, queried, 0)
    case Prefetch(_, queried, _, _, _, _, _) => QueriesDane(s.entry, queried, PREFETCH_INTERVAL)
    case _ => false
  }

  predicate HoldsAttempt(s: State) {
    s.entry.Some? && s.entry.value.daneLastAttempt != NEVER
  }

  lemma MergeWritesAttempt(c: Option<Entry>, queried: Instant, merged: Instant, renewBefore: nat, dane: Lookup, mtaSts: Lookup, jitter: nat)
    ensures Merge(c, Query(c, queried, renewBefore, dane, mtaSts), merged, jitter).daneLastAttempt ==
            if QueriesDane(c, queried, renewBefore) then merged else if c.Some? then c.value.daneLastAttempt else NEVER
  {
  }

  lemma FailStepAttempt(grid: Grid, s: State, c: Option<Entry>, r: DomainResult, now: Instant, jitter: nat)
    requires s.entry.Some? && c.Some? && HoldsAttempt(FailStep(grid, s, c, r, now, jitter))
    ensures var t := FailStep(grid, s, c, r, now, jitter).entry.value.daneLastAttempt;
            t == s.entry.value.daneLastAttempt || t == c.value.daneLastAttempt || (DaneFailed(r) && t == now)
  {
  }

  lemma PrefetchWritesAttempt(grid: Grid, s: State, ev: Event)
    requires ev.Prefetch? && s.entry.Some? && HoldsAttempt(PrefetchStep(grid, s, ev))
    ensures var t := PrefetchStep(grid, s, ev).entry.value.daneLastAttempt;
            t == s.entry.value.daneLastAttempt || (AttemptsDane(s, ev) && t == ev.merged)
  {
    MergeWritesAttempt(s.entry, ev.queried, ev.merged, PREFETCH_INTERVAL, ev.dane, ev.mtaSts, ev.jitter);
    if Refreshed(s, ev).Failed? {
      var f := Refreshed(s, ev);
      RefreshedEntries(s, ev);
      FailStepAttempt(grid, f.state, f.handed, PrefetchResult(s, ev), ev.merged, ev.clearJitter);
    }
  }

  lemma StepWritesAttempt(grid: Grid, s: State, ev: Event)
    requires Enabled(s, ev) && HoldsAttempt(Next(grid, s, ev))
    ensures var t := Next(grid, s, ev).entry.value.daneLastAttempt;
            || (s.entry.Some? && s.entry.value.daneLastAttempt == t)
            || (AttemptsDane(s, ev) && t == ev.merged)
  {
    match ev
    case OnDemand(queried, merged, dane, mtaSts, jitter, _) =>
      MergeWritesAttempt(s.entry, queried, merged, 0, dane, mtaSts, jitter);
    case Prefetch(_, _, _, _, _, _, _) =>
      PrefetchWritesAttempt(grid, s, ev);
    case _ =>
  }

  /** Step `i` asked for DANE at the time that state `n` holds for the last attempt. */
  ghost predicate AttemptOrigin(states: seq<State>, events: seq<Event>, n: nat, i: nat)
    requires |states| == |events| + 1 && i < n < |states|
  {
    HoldsAttempt(states[n]) && AttemptsDane(states[i], events[i]) && events[i].merged == states[n].entry.value.daneLastAttempt
  }

  lemma {:induction false} AttemptHasOrigin(grid: Grid, states: seq<State>, events: seq<Event>, n: nat) returns (i: nat)
    requires Run(grid, states, events) && n < |states| && HoldsAttempt(states[n])
    ensures i < n && AttemptOrigin(states, events, n, i)
  {
    assert n > 0;
    StepWritesAttempt(grid, states[n - 1], events[n - 1]);
    if states[n - 1].entry.Some? && states[n - 1].entry.value.daneLastAttempt == states[n].entry.value.daneLastAttempt {
      i := AttemptHasOrigin(grid, states, events, n - 1);
    } else {
      i := n - 1;
    }
  }

  /** Over every run, when MTA-STS answers without fresh DANE evidence, some step less than 24 h
      earlier did ask for DANE, and the record relied on has the origin shown above. */
  lemma ExpiredAnswerFollowsAttempt(
    grid: Grid, states: seq<State>, events: seq<Event>, n: nat, now: Instant, renewBefore: nat, dane: Lookup, mtaSts: Lookup)
    requires Run(grid, states, events) && n < |states|
    requires AnswersMtaSts(states[n].entry, now, renewBefore, dane, mtaSts)
    requires !FreshNoDane(states[n].entry, now, renewBefore, dane)
    ensures exists i: nat :: i < n && DaneOrigin(grid, states, events, n, i)
    ensures exists i: nat :: i < n && AttemptOrigin(states, events, n, i) && now < events[i].merged + RECHECK
  {
    RunsStayGood(grid, states, events, n);
    AnswersOnExpiredRecordExactly(states[n].entry, now, renewBefore, dane, mtaSts);
    var i := DaneHasOrigin(grid, states, events, n);
    var k := AttemptHasOrigin(grid, states, events, n);
  }

  // ---------- how long an MTA-STS policy lives ----------

  function Cap(ttl: nat): nat { if ttl > CACHE_MAX_TTL then CACHE_MAX_TTL else ttl }

  /** The step fetched MTA-STS policy `b` and gave it at most its lifetime from the merge. */
  predicate FetchedMtaSts(s: State, ev: Event, b: Branch) {
    && (ev.OnDemand? || ev.Prefetch?)
    && QueriesMtaSts(s.entry, ev.queried, if ev.OnDemand? then 0 else PREFETCH_INTERVAL)
    && ev.mtaSts.policy == b.policy && ev.mtaSts.policy != TEMP && ev.mtaSts.report == b.report
    && b.expiresAt == ev.merged + Cap(ev.mtaSts.ttl) * SECOND
  }

  predicate HoldsMtaStsPolicy(s: State) {
    s.entry.Some? && s.entry.value.mtaSts.HasData() && s.entry.value.mtaSts.policy != ""
  }

  lemma StepWritesMtaSts(grid: Grid, s: State, ev: Event)
    requires Good(s) && Enabled(s, ev) && HoldsMtaStsPolicy(Next(grid, s, ev))
    ensures var b := Next(grid, s, ev).entry.value.mtaSts;
            || (s.entry.Some? && s.entry.value.mtaSts == b)
            || FetchedMtaSts(s, ev, b)
  {
    match ev
    case OnDemand(queried, merged, dane, mtaSts, jitter, _) =>
      MergeWritesMtaSts(s.entry, queried, merged, 0, dane, mtaSts, jitter);
    case Prefetch(_, _, _, _, _, _, _) =>
      PrefetchWritesMtaSts(grid, s, ev);
    case _ =>
  }

  lemma PrefetchWritesMtaSts(grid: Grid, s: State, ev: Event)
    requires ev.Prefetch? && s.entry.Some? && HoldsMtaStsPolicy(PrefetchStep(grid, s, ev))
    ensures var b := PrefetchStep(grid, s, ev).entry.value.mtaSts;
            s.entry.value.mtaSts == b || FetchedMtaSts(s, ev, b)
  {
    MergeWritesMtaSts(s.entry, ev.queried, ev.merged, PREFETCH_INTERVAL, ev.dane, ev.mtaSts, ev.jitter);
    if Refreshed(s, ev).Failed? {
      var f := Refreshed(s, ev);
      RefreshedEntries(s, ev);
      FailStepBranches(grid, f.state, f.handed, PrefetchResult(s, ev), ev.merged, ev.clearJitter);
    }
  }

  lemma MergeWritesMtaSts(c: Option<Entry>, queried: Instant, merged: Instant, renewBefore: nat, dane: Lookup, mtaSts: Lookup, jitter: nat)
    ensures var r := Query(c, queried, renewBefore, dane, mtaSts);
            var b := Merge(c, r, merged, jitter).mtaSts;
            && (!r.mtaSts.HasData() ==> b == if c.Some? then c.value.mtaSts else NO_BRANCH)
            && (r.mtaSts.HasData() && b.policy != "" ==>
                  && QueriesMtaSts(c, queried, renewBefore)
                  && b.policy == mtaSts.policy != TEMP && b.report == mtaSts.report
                  && b.expiresAt == merged + Cap(mtaSts.ttl) * SECOND)
  {
  }

  ghost predicate MtaStsOrigin(grid: Grid, states: seq<State>, events: seq<Event>, n: nat, i: nat)
    requires Run(grid, states, events) && i < n < |states|
  {
    && HoldsMtaStsPolicy(states[n])
    && (forall j :: i < j <= n ==> states[j].entry.Some? && states[j].entry.value.mtaSts == states[n].entry.value.mtaSts)
    && FetchedMtaSts(states[i], events[i], states[n].entry.value.mtaSts)
  }

  lemma {:induction false} MtaStsHasOrigin(grid: Grid, states: seq<State>, events: seq<Event>, n: nat) returns (i: nat)
    requires Run(grid, states, events) && n < |states| && HoldsMtaStsPolicy(states[n])
    ensures i < n && MtaStsOrigin(grid, states, events, n, i)
  {
    assert n > 0;
    RunsStayGood(grid, states, events, n - 1);
    StepWritesMtaSts(grid, states[n - 1], events[n - 1]);
    if states[n - 1].entry.Some? && states[n - 1].entry.value.mtaSts == states[n].entry.value.mtaSts {
      i := MtaStsHasOrigin(grid, states, events, n - 1);
    } else {
      i := n - 1;
    }
  }

  /** Over every run, a cached MTA-STS policy is only served before its lifetime, counted
      from the merge of the fetch it came from and capped at 30 days, is over. */
  lemma MtaStsLifetime(grid: Grid, states: seq<State>, events: seq<Event>, n: nat, now: Instant)
    requires Run(grid, states, events) && n < |states|
    requires SelectCached(states[n].entry, now).Serve? && SelectCached(states[n].entry, now).policy != ""
    requires states[n].entry.value.dane.policy == ""
    ensures exists i: nat :: i < n && MtaStsOrigin(grid, states, events, n, i)
              && SelectCached(states[n].entry, now).policy == events[i].mtaSts.policy
              && now < events[i].merged + Cap(events[i].mtaSts.ttl) * SECOND
  {
    RunsStayGood(grid, states, events, n);
    var i := MtaStsHasOrigin(grid, states, events, n);
  }

  /** An answer that uses MTA-STS has its policy from the query's own fetch, or from a
      cached policy whose lifetime is not over. */
  lemma AnsweredMtaStsLifetime(
    grid: Grid, states: seq<State>, events: seq<Event>, n: nat, now: Instant, renewBefore: nat, dane: Lookup, mtaSts: Lookup)
    requires Run(grid, states, events) && n < |states|
    requires DaneUsed(states[n].entry, now, renewBefore, dane).policy == ""
    requires var p := Query(states[n].entry, now, renewBefore, dane, mtaSts).policy; p != TEMP && p != ""
    ensures var p := Query(states[n].entry, now, renewBefore, dane, mtaSts).policy;
            || (QueriesMtaSts(states[n].entry, now, renewBefore) && p == mtaSts.policy)
            || exists i: nat :: i < n && MtaStsOrigin(grid, states, events, n, i)
                 && p == events[i].mtaSts.policy
                 && now < events[i].merged + Cap(events[i].mtaSts.ttl) * SECOND
  {
    RunsStayGood(grid, states, events, n);
    TempExactlyOnDaneTemp(states[n].entry, now, renewBefore, dane, mtaSts);
    var r := Query(states[n].entry, now, renewBefore, dane, mtaSts);
    if !r.mtaSts.HasData() {
      assert HoldsMtaStsPolicy(states[n]);
      var i := MtaStsHasOrigin(grid, states, events, n);
    }
  }
}
