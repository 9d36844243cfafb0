/**
 Concrete runs from an empty cache in which the code loses a policy it holds or has just
 fetched, or answers from an expired record (internal/prefetch.go:639-671,
 internal/server.go:1513-1528).
 */
module LossExamples {
  import opened Clock
  import opened BatchGrid
  import opened Options
  import opened Retry
  import opened PolicyCache
  import opened FailurePath
  import opened DomainRuns
  import opened Retention

  const STILL_GRID := Grid(0, (i: nat) => 0)
  const FETCHED := Lookup("secure match=mx.example servername=hostname", "", 604800)
  const NONE_FOUND := Lookup("", "", 0)
  const TRY_LATER := Lookup(TEMP, "", 0)

  const T0 := SECOND
  const T1 := 86381 * SECOND
  const T2 := 88181 * SECOND

  const QUERY0 := OnDemand(T0, T0, NONE_FOUND, FETCHED, 0, false)
  const REFRESH1 := Prefetch(T1, T1, T1, TRY_LATER, NONE_FOUND, 0, 0)
  const REFRESH2 := Prefetch(T2, T2, T2, TRY_LATER, NONE_FOUND, 0, 0)

  const ENTRY1 := Entry(T0, T0, 86401 * SECOND, FETCHED.policy, "",
    Branch(86401 * SECOND, "", "", 86400), Branch(604801 * SECOND, FETCHED.policy, "", 604800), 86400, 1)
  const STATE1 := State(Some(ENTRY1), 0, None)
  const STATE2 := State(Some(ENTRY1.(daneLastAttempt := T1, expiresAt := 86401 * SECOND, ttl := 20)), 0, Some(Failure(T1, 1)))

  lemma FirstQuery()
    ensures Enabled(INITIAL, QUERY0) && Next(STILL_GRID, INITIAL, QUERY0) == STATE1
  {
  }

  lemma FailedRefreshNearExpiry()
    ensures Enabled(STATE1, REFRESH1) && Next(STILL_GRID, STATE1, REFRESH1) == STATE2
  {
  }

  lemma DroppingRefresh()
    ensures Enabled(STATE2, REFRESH2)
    ensures var r := PrefetchResult(STATE2, REFRESH2); !r.daneAttempted && !r.mtaStsAttempted
    ensures FailureOutcome(STILL_GRID, STATE2, REFRESH2) == Some(Dropped)
    ensures Next(STILL_GRID, STATE2, REFRESH2).entry == Some(StatsOnly(1))
    ensures FreshPolicy(STATE2.entry.value.mtaSts, T2 + 5 * 24 * HOUR)
  {
  }

  lemma RunToFailure() returns (states: seq<State>, events: seq<Event>)
    ensures Run(STILL_GRID, states, events)
    ensures events == [QUERY0, REFRESH1] && states[2] == STATE2
  {
    FirstQuery();
    RunGrows(STILL_GRID, [INITIAL], [], QUERY0, STATE1);
    FailedRefreshNearExpiry();
    RunGrows(STILL_GRID, [INITIAL] + [STATE1], [] + [QUERY0], REFRESH1, STATE2);
    states := [INITIAL] + [STATE1] + [STATE2];
    events := [] + [QUERY0] + [REFRESH1];
  }

  /** A run that drops a fresh MTA-STS policy. One DANE lookup fails while the no-DANE record
      is about to expire. From then on the expired record suppresses further DANE lookups, so
      each refresh attempts nothing, counts as a failure, and 30 minutes later the entry goes
      although its MTA-STS policy has more than five days to live. */
  lemma SuppressedRefreshDropsFreshPolicy() returns (states: seq<State>, events: seq<Event>)
    ensures Run(STILL_GRID, states, events)
    ensures events == [QUERY0, REFRESH1, REFRESH2] && states[2] == STATE2
    ensures var r := PrefetchResult(STATE2, REFRESH2); !r.daneAttempted && !r.mtaStsAttempted
    ensures FreshPolicy(STATE2.entry.value.mtaSts, T2 + 5 * 24 * HOUR)
    ensures FailureOutcome(STILL_GRID, STATE2, REFRESH2) == Some(Dropped)
    ensures states[3].entry == Some(StatsOnly(1))
  {
    DroppingRefresh();
    states, events := RunToFailure();
    var next := Next(STILL_GRID, STATE2, REFRESH2);
    RunGrows(STILL_GRID, states, events, REFRESH2, next);
    states, events := states + [next], events + [REFRESH2];
  }

  /** In the state before that a query still answers with the MTA-STS policy, although the DANE
      record has expired and the last DANE lookup failed. */
  lemma ExpiredRecordStillAnswers()
    ensures RestsOnExpired(STATE2.entry, T2, 0)
    ensures AnswersMtaSts(STATE2.entry, T2, 0, TRY_LATER, NONE_FOUND) && !FreshNoDane(STATE2.entry, T2, 0, TRY_LATER)
    ensures Query(STATE2.entry, T2, 0, TRY_LATER, NONE_FOUND).policy == FETCHED.policy
  {
  }

  // ---------- a fetched policy lost although no lookup failed ----------

  const SHORT_QUERY := OnDemand(T0, T0, NONE_FOUND, FETCHED.(ttl := 88200), 0, false)
  const FETCHING_REFRESH := Prefetch(T2, T2, T2, TRY_LATER, FETCHED, 0, 0)

  const SHORT1 := State(Some(ENTRY1.(mtaSts := Branch(88201 * SECOND, FETCHED.policy, "", 88200))), 0, None)
  const SHORT2 := State(Some(SHORT1.entry.value.(daneLastAttempt := T1, ttl := 20)), 0, Some(Failure(T1, 1)))

  lemma ShortQuery()
    ensures Enabled(INITIAL, SHORT_QUERY) && Next(STILL_GRID, INITIAL, SHORT_QUERY) == SHORT1
  {
  }

  lemma ShortFailure()
    ensures Enabled(SHORT1, REFRESH1) && Next(STILL_GRID, SHORT1, REFRESH1) == SHORT2
  {
  }

  lemma RunToShortFailure() returns (states: seq<State>, events: seq<Event>)
    ensures Run(STILL_GRID, states, events)
    ensures events == [SHORT_QUERY, REFRESH1] && states[2] == SHORT2
  {
    ShortQuery();
    RunGrows(STILL_GRID, [INITIAL], [], SHORT_QUERY, SHORT1);
    ShortFailure();
    RunGrows(STILL_GRID, [INITIAL] + [SHORT1], [] + [SHORT_QUERY], REFRESH1, SHORT2);
    states := [INITIAL] + [SHORT1] + [SHORT2];
    events := [] + [SHORT_QUERY] + [REFRESH1];
  }

  lemma FetchingRefresh()
    ensures Enabled(SHORT2, FETCHING_REFRESH)
    ensures var r := PrefetchResult(SHORT2, FETCHING_REFRESH);
            r.mtaSts.policy == FETCHED.policy && !r.daneAttempted && !MtaStsFailed(r)
    ensures LosesFetched(SHORT2, FETCHING_REFRESH)
    ensures Next(STILL_GRID, SHORT2, FETCHING_REFRESH).entry == Some(StatsOnly(1))
  {
  }

  /** The same run with an MTA-STS policy that is about to expire 30 minutes after the failed
      DANE lookup. The last refresh asks for MTA-STS only and gets a policy for a week; no
      lookup in it failed, and still nothing is left of that policy. */
  lemma FetchedPolicyLostWithoutFailure() returns (states: seq<State>, events: seq<Event>)
    ensures Run(STILL_GRID, states, events)
    ensures events == [SHORT_QUERY, REFRESH1, FETCHING_REFRESH] && states[2] == SHORT2
    ensures var r := PrefetchResult(SHORT2, FETCHING_REFRESH);
            r.mtaSts.policy == FETCHED.policy && !r.daneAttempted && !MtaStsFailed(r)
    ensures states[3].entry == Some(StatsOnly(1))
  {
    FetchingRefresh();
    states, events := RunToShortFailure();
    var next := Next(STILL_GRID, SHORT2, FETCHING_REFRESH);
    RunGrows(STILL_GRID, states, events, FETCHING_REFRESH, next);
    states, events := states + [next], events + [FETCHING_REFRESH];
  }

  // ---------- a policy fetched while DANE fails ----------

  const DANE_QUERY := OnDemand(T0, T0, Lookup("dane", "", 86410), NONE_FOUND, 0, false)
  const FAILED_QUERY := OnDemand(86432 * SECOND, 86432 * SECOND, TRY_LATER, NONE_FOUND, 0, false)
  const FAILED_REFRESH := Prefetch(86501 * SECOND, 86501 * SECOND, 86501 * SECOND, TRY_LATER, NONE_FOUND, 0, 0)
  const LAST := 172812 * SECOND
  const LATE_FETCH := Prefetch(LAST, LAST, LAST, TRY_LATER, FETCHED, 0, 0)

  const DANE1 := State(
    Some(Entry(T0, T0, 86411 * SECOND, "dane", "",
               Branch(86411 * SECOND, "dane", "", 86410), Branch(86401 * SECOND, "", "", 86400), 86410, 1)), 0, None)
  const DANE2 := State(
    Some(Entry(86432 * SECOND, 86432 * SECOND, 86411 * SECOND, TEMP, "",
               Branch(86411 * SECOND, "dane", "", 86410), Branch(172832 * SECOND, "", "", 86400), 0, 2)), 0, None)
  const DANE3 := State(Some(DANE2.entry.value.(daneLastAttempt := 86501 * SECOND)), 0, Some(Failure(86501 * SECOND, 1)))

  lemma DaneQuery()
    ensures Enabled(INITIAL, DANE_QUERY) && Next(STILL_GRID, INITIAL, DANE_QUERY) == DANE1
  {
  }

  lemma DaneQueryFails()
    ensures Enabled(DANE1, FAILED_QUERY) && Next(STILL_GRID, DANE1, FAILED_QUERY) == DANE2
  {
  }

  lemma DaneRefreshFails()
    ensures Enabled(DANE2, FAILED_REFRESH) && Next(STILL_GRID, DANE2, FAILED_REFRESH) == DANE3
  {
  }

  lemma RunToFailedQuery() returns (states: seq<State>, events: seq<Event>)
    ensures Run(STILL_GRID, states, events)
    ensures events == [DANE_QUERY, FAILED_QUERY] && states[2] == DANE2
  {
    DaneQuery();
    RunGrows(STILL_GRID, [INITIAL], [], DANE_QUERY, DANE1);
    DaneQueryFails();
    RunGrows(STILL_GRID, [INITIAL] + [DANE1], [] + [DANE_QUERY], FAILED_QUERY, DANE2);
    states := [INITIAL] + [DANE1] + [DANE2];
    events := [] + [DANE_QUERY] + [FAILED_QUERY];
  }

  lemma RunToLastingFailure() returns (states: seq<State>, events: seq<Event>)
    ensures Run(STILL_GRID, states, events)
    ensures events == [DANE_QUERY, FAILED_QUERY, FAILED_REFRESH] && states[3] == DANE3
  {
    DaneRefreshFails();
    states, events := RunToFailedQuery();
    RunGrows(STILL_GRID, states, events, FAILED_REFRESH, DANE3);
    states, events := states + [DANE3], events + [FAILED_REFRESH];
  }

  lemma LateFetch()
    ensures Enabled(DANE3, LATE_FETCH)
    ensures PrefetchResult(DANE3, LATE_FETCH).mtaSts.policy == FETCHED.policy && DaneFailed(PrefetchResult(DANE3, LATE_FETCH))
    ensures LosesFetched(DANE3, LATE_FETCH)
    ensures Next(STILL_GRID, DANE3, LATE_FETCH).entry == Some(StatsOnly(2))
  {
  }

  /** DANE has failed for a day since its policy expired. The refresh that finds the deadline
      passed also fetches an MTA-STS policy, which is gone when the refresh ends. */
  lemma FetchedPolicyLost() returns (states: seq<State>, events: seq<Event>)
    ensures Run(STILL_GRID, states, events)
    ensures events == [DANE_QUERY, FAILED_QUERY, FAILED_REFRESH, LATE_FETCH] && states[3] == DANE3
    ensures PrefetchResult(DANE3, LATE_FETCH).mtaSts.policy == FETCHED.policy && DaneFailed(PrefetchResult(DANE3, LATE_FETCH))
    ensures states[4].entry == Some(StatsOnly(2))
  {
    LateFetch();
    states, events := RunToLastingFailure();
    var next := Next(STILL_GRID, DANE3, LATE_FETCH);
    RunGrows(STILL_GRID, states, events, LATE_FETCH, next);
    states, events := states + [next], events + [LATE_FETCH];
  }
}
