/**
 Hit counting (internal/server.go:155-170, 789-903, 1380-1385). Hits are counted in a side
 table and moved into the stored entries by a flush, by a refresh or by a discard; all
 counters are 32-bit and wrap.
 */
module HitCounts {
  import opened Clock
  import opened BatchGrid
  import opened Options
  import opened PolicyCache
  import opened DomainRuns

  // ---------- conservation over runs ----------

  /** Stored plus pending hits. */
  function Total(s: State): (t: nat)
    ensures t < UINT32
  {
    (StoredCount(s) + s.pending) % UINT32
  }

  /** What a step adds to the total: one per cache hit and per on-demand refresh that is stored. */
  function Counted(s: State, ev: Event): nat {
    if ev.Hit? || (ev.OnDemand? && Stored(s, ev)) then 1 else 0
  }

  lemma FailStepConserves(grid: Grid, s: State, c: Option<Entry>, r: DomainResult, now: Instant, jitter: nat)
    requires s.entry.Some? && c.Some? && c.value.counter == s.entry.value.counter
    ensures Total(FailStep(grid, s, c, r, now, jitter)) == Total(s)
  {
  }

  lemma WrapSum(a: nat, b: nat)
    ensures (a % UINT32 + b) % UINT32 == (a + b) % UINT32
  {
  }

  /** The state after a step holds what the step counted more than before. */
  ghost predicate AddsUp(s: State, ev: Event, s': State) {
    Total(s') == (Total(s) + Counted(s, ev)) % UINT32
  }

  lemma RefreshedKeepsCounts(s: State, ev: Event)
    requires Good(s) && Enabled(s, ev) && ev.Prefetch?
    ensures var f := Refreshed(s, ev);
            && f.state.pending == s.pending
            && f.state.entry.Some? && f.state.entry.value.counter == s.entry.value.counter
            && (f.Failed? ==> f.handed.Some? && f.handed.value.counter == s.entry.value.counter)
  {
    MergeIsGood(s.entry, ev.queried, ev.merged, PREFETCH_INTERVAL, ev.dane, ev.mtaSts, ev.jitter);
    RefreshedEntries(s, ev);
  }

  lemma PrefetchConserves(grid: Grid, s: State, ev: Event)
    requires Good(s) && Enabled(s, ev) && ev.Prefetch?
    ensures AddsUp(s, ev, PrefetchStep(grid, s, ev))
  {
    RefreshedKeepsCounts(s, ev);
    var f := Refreshed(s, ev);
    assert Total(f.state) == Total(s);
    if f.Failed? {
      FailStepConserves(grid, f.state, f.handed, PrefetchResult(s, ev), ev.merged, ev.clearJitter);
    }
    SameTotalAddsUp(s, ev, PrefetchStep(grid, s, ev));
  }

  lemma SameTotalAddsUp(s: State, ev: Event, s': State)
    requires Total(s') == Total(s) && Counted(s, ev) == 0
    ensures AddsUp(s, ev, s')
  {
  }

  function StoredCount(s: State): nat {
    if s.entry.Some? then s.entry.value.counter else 0
  }

  lemma OnDemandCounter(s: State, ev: Event)
    requires Good(s) && Enabled(s, ev) && ev.OnDemand? && Stored(s, ev)
    ensures var s' := OnDemandStep(s, ev);
            s'.entry.Some? && s'.pending == 0 && s'.entry.value.counter == (StoredCount(s) + s.pending + 1) % UINT32
  {
  }

  lemma OnDemandCounts(s: State, ev: Event)
    requires Good(s) && Enabled(s, ev) && ev.OnDemand?
    ensures AddsUp(s, ev, OnDemandStep(s, ev))
  {
    if Stored(s, ev) {
      OnDemandCounter(s, ev);
      var sum := StoredCount(s) + s.pending;
      WrapSum(sum, 1);
      WrapSum(sum + 1, 0);
      assert Total(s) == sum % UINT32;
    }
  }

  lemma OtherStepCounts(grid: Grid, s: State, ev: Event)
    requires Good(s) && Enabled(s, ev) && !ev.Prefetch? && !ev.OnDemand? && !ev.Remove?
    ensures AddsUp(s, ev, Next(grid, s, ev))
  {
    match ev
    case Hit(_) => HitCountsOne(s);
    case Discard => DiscardConserves(s);
    case Flush => FlushConserves(s);
    case Unschedule =>
  }

  /** One step raises the total by what it counts, and nothing else changes it. */
  lemma StepCounts(grid: Grid, s: State, ev: Event)
    requires Good(s) && Enabled(s, ev) && !ev.Remove?
    ensures AddsUp(s, ev, Next(grid, s, ev))
  {
    if ev.Prefetch? {
      PrefetchConserves(grid, s, ev);
    } else if ev.OnDemand? {
      OnDemandCounts(s, ev);
    } else {
      OtherStepCounts(grid, s, ev);
    }
  }

  lemma HitCountsOne(s: State)
    requires s.entry.Some?
    ensures Total(s.(pending := (s.pending + 1) % UINT32)) == (Total(s) + 1) % UINT32
  {
  }

  lemma DiscardConserves(s: State)
    ensures Total(DiscardPolicyState(s)) == Total(s)
    ensures Total(DiscardPolicyState(s).(failure := None)) == Total(s) % UINT32
  {
  }

  lemma FlushConserves(s: State)
    requires s.entry.None? ==> s.pending == 0
    ensures Total(FlushHits(s)) == Total(s) == Total(s) % UINT32
  {
  }

  function CountedBetween(states: seq<State>, events: seq<Event>, m: nat, n: nat): nat
    requires m <= n <= |events| && |states| == |events| + 1
  {
    if m == n then 0 else CountedBetween(states, events, m, n - 1) + Counted(states[n - 1], events[n - 1])
  }

  lemma Chained(start: nat, counted: nat, more: nat, middle: nat, end: nat)
    requires middle == (start + counted) % UINT32 && end == (middle + more) % UINT32
    ensures end == (start + (counted + more)) % UINT32
  {
  }

  lemma {:induction false} SumOfSteps(states: seq<State>, events: seq<Event>, m: nat, n: nat)
    requires m <= n <= |events| && |states| == |events| + 1
    requires forall i :: m <= i < n ==> AddsUp(states[i], events[i], states[i + 1])
    ensures Total(states[n]) == (Total(states[m]) + CountedBetween(states, events, m, n)) % UINT32
  {
    if m < n {
      SumOfSteps(states, events, m, n - 1);
      assert AddsUp(states[n - 1], events[n - 1], states[n]);
      Chained(Total(states[m]), CountedBetween(states, events, m, n - 1), Counted(states[n - 1], events[n - 1]),
              Total(states[n - 1]), Total(states[n]));
    }
  }

  lemma RunStepCounts(grid: Grid, states: seq<State>, events: seq<Event>, i: nat)
    requires Run(grid, states, events) && i < |events| && !events[i].Remove?
    ensures AddsUp(states[i], events[i], states[i + 1])
  {
    RunsStayGood(grid, states, events, i);
    StepCounts(grid, states[i], events[i]);
  }

  /** Over every stretch of a run in which the entry is not removed, the total rises by
      exactly the hits and stored refreshes in it, modulo 2^32: flushes, discards, merges
      of background refreshes and cleared branches neither lose nor invent a hit. */
  lemma HitsAreConserved(grid: Grid, states: seq<State>, events: seq<Event>, m: nat, n: nat)
    requires Run(grid, states, events) && m <= n <= |events|
    requires forall i :: m <= i < n ==> !events[i].Remove?
    ensures Total(states[n]) == (Total(states[m]) + CountedBetween(states, events, m, n)) % UINT32
  {
    forall i | m <= i < n ensures AddsUp(states[i], events[i], states[i + 1]) {
      RunStepCounts(grid, states, events, i);
    }
    SumOfSteps(states, events, m, n);
  }

  // ---------- the tables shared by all domains ----------

  class PolicyStore {
    var data: map<string, Entry>
    var pending: map<string, nat>

    /** One domain's share of the two tables. */
    ghost function View(domain: string): State
      reads this
    {
      State(if domain in data then Some(data[domain]) else None, if domain in pending then pending[domain] else 0, None)
    }

    constructor ()
      ensures forall d :: View(d) == INITIAL
    {
      data := map[];
      pending := map[];
    }

    method AddCacheHit(domain: string)
      modifies this`pending
      ensures View(domain) == old(View(domain)).(pending := (old(View(domain)).pending + 1) % UINT32)
      ensures forall d :: d != domain ==> View(d) == old(View(d))
    {
      if domain !in pending {
        pending := pending[domain := 0];
      }
      pending := pending[domain := (pending[domain] + 1) % UINT32];
    }

    method DrainCacheHits(domain: string) returns (hits: nat)
      modifies this`pending
      ensures hits == old(View(domain)).pending
      ensures View(domain) == old(View(domain)).(pending := 0)
      ensures forall d :: d != domain ==> View(d) == old(View(d))
    {
      if domain !in pending {
        return 0;
      }
      hits := pending[domain];
      pending := pending[domain := 0];
    }

    /** Dropping an unused counter is invisible. */
    method CleanupIfUnused(domain: string)
      modifies this`pending
      ensures forall d :: View(d) == old(View(d))
      ensures forall d :: d != domain ==> (d in pending <==> d in old(pending))
    {
      if domain !in pending {
        return;
      }
      var hasPolicy := domain in data &&
        (data[domain].policy != "" || data[domain].dane.policy != "" || data[domain].mtaSts.policy != "");
      if pending[domain] != 0 || hasPolicy {
        return;
      }
      pending := pending - {domain};
    }

    /** Every stored entry takes up its pending hits; hits of unknown domains are dropped. */
    method FlushCacheHits()
      modifies this
      ensures forall d :: View(d) == FlushHits(old(View(d)))
    {
      var todo := pending.Keys;
      while todo != {}
        invariant todo <= old(pending).Keys
        invariant forall d :: d in todo ==> View(d) == old(View(d)) && d in pending
        invariant forall d :: d !in todo ==> View(d) == FlushHits(old(View(d)))
        decreases todo
      {
        var domain :| domain in todo;
        todo := todo - {domain};
        FlushOne(domain);
      }
    }

    method FlushOne(domain: string)
      requires domain in pending
      modifies this
      ensures View(domain) == FlushHits(old(View(domain)))
      ensures forall d :: d != domain ==> View(d) == old(View(d)) && (d in pending <==> d in old(pending))
    {
      var delta := pending[domain];
      pending := pending[domain := 0];
      if delta != 0 && domain in data {
        data := data[domain := data[domain].(counter := (data[domain].counter + delta) % UINT32)];
      }
      CleanupIfUnused(domain);
    }

    /** Forgets the policy state but keeps the count in a stats-only entry. */
    method DiscardCachedPolicyState(domain: string, c: Option<Entry>)
      requires c == View(domain).entry
      modifies this
      ensures View(domain) == DiscardPolicyState(old(View(domain)))
      ensures forall d :: d != domain ==> View(d) == old(View(d))
    {
      var counter := if c.Some? then c.value.counter else 0;
      var hits := DrainCacheHits(domain);
      counter := (counter + hits) % UINT32;
      if counter == 0 {
        data := data - {domain};
      } else {
        data := data[domain := StatsOnly(counter)];
      }
      CleanupIfUnused(domain);
    }

    /** Serves from the cache and counts the hit, or reports a miss. */
    method TryCachedPolicy(domain: string, now: Instant) returns (answer: Selection)
      modifies this`pending
      ensures answer == SelectCached(View(domain).entry, now)
      ensures answer.Serve? ==>
                View(domain) == old(View(domain)).(pending := (old(View(domain)).pending + 1) % UINT32)
      ensures answer.Miss? ==> View(domain) == old(View(domain))
      ensures forall d :: d != domain ==> View(d) == old(View(d))
    {
      if domain !in data {
        return Miss;
      }
      answer := Select(data[domain], now);
      if answer.Serve? {
        AddCacheHit(domain);
      }
    }

    /** Answers a miss and stores the merged result with the hit counted. */
    method QueryAndStore(domain: string, ev: Event) returns (r: DomainResult)
      requires ev.OnDemand?
      modifies this
      ensures r == OnDemandResult(old(View(domain)), ev)
      ensures View(domain) == OnDemandStep(old(View(domain)), ev)
      ensures forall d :: d != domain ==> View(d) == old(View(d))
    {
      var c := if domain in data then Some(data[domain]) else None;
      r := Query(c, ev.queried, 0, ev.dane, ev.mtaSts);
      if r.ttl != 0 || r.dane.HasData() || r.mtaSts.HasData() || (c.Some? && (r.daneAttempted || r.mtaStsAttempted)) {
        var cs := Merge(c, r, ev.merged, ev.jitter);
        var hits := DrainCacheHits(domain);
        data := data[domain := cs.(counter := (cs.counter + hits + 1) % UINT32)];
      }
    }
  }
}
