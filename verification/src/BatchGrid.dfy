/**
 The jittered grid of prefetch batches (internal/prefetch.go:146-207, 433-461).

 Batch `i` starts at `origin + 10 s * i` plus a jitter of at most 250 ms. The grid
 is parameterised by the jitter of each batch, so every result holds for every
 seed; `SplitMixGrid` is the instance the scheduler builds from a seed.
 */
module BatchGrid {
  import opened Clock
  import opened Options

  const SLOT: Duration := 10 * SECOND
  const JITTER_MAX: Duration := 250 * MILLISECOND
  const PREFETCH_INTERVAL: nat := 30

  datatype Grid = Grid(origin: Instant, jitter: nat -> Duration) {

    ghost predicate Valid() {
      forall i: nat :: 0 <= jitter(i) <= JITTER_MAX
    }

    function BatchTime(i: nat): Instant {
      origin + i * SLOT + jitter(i)
    }

    ghost predicate IsBatch(t: Instant) {
      exists i: nat :: BatchTime(i) == t
    }

    function AtOrAfter(t: Instant): Instant {
      var first := BatchTime(0);
      if t <= first then first
      else
        var elapsed := (t - origin) / SLOT;
        var i := if elapsed < 0 then 0 else elapsed;
        var due := BatchTime(i);
        if due < t then BatchTime(i + 1) else due
    }

    function AtOrBefore(t: Instant): (r: Option<Instant>)
      requires Valid()
    {
      var first := BatchTime(0);
      if t < first then None
      else
        var i := (t - origin) / SLOT;
        var due := BatchTime(i);
        if t < due then
          if i - 1 < 0 then None else Some(BatchTime(i - 1))
        else Some(due)
    }

    /** Batches are strictly increasing, at least 9.75 s and at most 10.25 s apart. */
    lemma Increasing(i: nat, j: nat)
      requires Valid() && i < j
      ensures (j - i) * SLOT - JITTER_MAX <= BatchTime(j) - BatchTime(i) <= (j - i) * SLOT + JITTER_MAX
      ensures BatchTime(i) < BatchTime(j)
    {
    }

    /** Where the batch of an instant's own slot lies relative to its neighbours. */
    lemma Slot(t: Instant, i: nat)
      requires Valid() && i == (t - origin) / SLOT
      ensures t < BatchTime(i + 1)
      ensures forall k: nat :: k < i ==> BatchTime(k) < t
      ensures forall k: nat :: i < k ==> t < BatchTime(k)
    {
    }

    lemma FirstIsLeast()
      requires Valid()
      ensures forall k: nat :: BatchTime(0) <= BatchTime(k)
    {
    }

    /** `AtOrAfter(t)` is the least batch that is not before `t`. */
    lemma AtOrAfterIsLeast(t: Instant)
      requires Valid()
      ensures IsBatch(AtOrAfter(t)) && t <= AtOrAfter(t)
      ensures forall k: nat :: t <= BatchTime(k) ==> AtOrAfter(t) <= BatchTime(k)
    {
    }

    /** `AtOrBefore(t)` is the greatest batch that is not after `t`, and there is
        none exactly when `t` precedes the first batch. */
    lemma AtOrBeforeIsGreatest(t: Instant)
      requires Valid()
      ensures AtOrBefore(t).None? <==> t < BatchTime(0)
      ensures AtOrBefore(t).None? <==> forall k: nat :: t < BatchTime(k)
      ensures AtOrBefore(t).Some? ==>
        && IsBatch(AtOrBefore(t).value) && AtOrBefore(t).value <= t
        && forall k: nat :: BatchTime(k) <= t ==> BatchTime(k) <= AtOrBefore(t).value
    {
      FirstIsLeast();
      if BatchTime(0) <= t {
        assert 0 <= jitter(0);
        var i := (t - origin) / SLOT;
        Slot(t, i);
        forall k: nat | BatchTime(k) <= t ensures AtOrBefore(t).Some? && BatchTime(k) <= AtOrBefore(t).value {
          if k < i { Increasing(k, i); }
          if k < i - 1 { Increasing(k, i - 1); }
        }
      }
    }

    /** Both roundings leave every batch time where it is. */
    lemma RoundingFixesBatches(i: nat)
      requires Valid()
      ensures AtOrAfter(BatchTime(i)) == BatchTime(i)
      ensures AtOrBefore(BatchTime(i)) == Some(BatchTime(i))
    {
    }

    /** From the first batch on, a batch is never more than 10.25 s away. */
    lemma NextBatchIsNear(t: Instant)
      requires Valid() && AtOrBefore(t).Some?
      ensures AtOrAfter(t) <= AtOrBefore(t).value + SLOT + JITTER_MAX
    {
    }

    /** internal/prefetch.go:433-461; `draw` is the random choice `rand.IntN(slots)`. */
    function NextPolicyPrefetchTime(now: Instant, remaining: nat, draw: nat): Instant
      requires Valid()
      requires draw < LeadSlots(remaining) || LeadSlots(remaining) < 1
    {
      var expiry := now + remaining * SECOND;
      if LeadSlots(remaining) < 1 then AtOrAfter(now)
      else
        var lead := (draw + 1) * SLOT;
        var due0 := AtOrAfter(expiry - lead);
        var earliest := if remaining > PREFETCH_INTERVAL then now + (remaining - PREFETCH_INTERVAL) * SECOND else now;
        var due1 := if due0 < earliest then AtOrAfter(earliest) else due0;
        var due2 := if expiry < due1 && AtOrBefore(expiry).Some? then AtOrBefore(expiry).value else due1;
        if due2 < now then AtOrAfter(now) else due2
    }

    /** For every jitter and every draw the refresh is due at a batch that is not in
        the past; it is due before the policy expires whenever any batch is left in
        its lifetime, and never more than 30 s before the expiry of a longer-lived one. */
    lemma PrefetchWindow(now: Instant, remaining: nat, draw: nat)
      requires Valid()
      requires draw < LeadSlots(remaining) || LeadSlots(remaining) < 1
      ensures var due := NextPolicyPrefetchTime(now, remaining, draw);
              var expiry := now + remaining * SECOND;
              && IsBatch(due) && now <= due
              && ((exists k: nat :: now <= BatchTime(k) <= expiry) ==> due <= expiry)
              && (remaining > PREFETCH_INTERVAL ==> expiry - PREFETCH_INTERVAL * SECOND <= due)
    {
      var expiry := now + remaining * SECOND;
      AtOrAfterIsLeast(now);
      if LeadSlots(remaining) >= 1 {
        LeadFitsWindow(remaining, draw);
        DueIsClampedBatch(now, remaining, draw);
      }
    }

    /** The lead never reaches past the window, so only expiry and the present clamp the due time. */
    lemma LeadStaysInWindow(now: Instant, remaining: nat, draw: nat)
      requires Valid() && draw < LeadSlots(remaining)
      ensures NextPolicyPrefetchTime(now, remaining, draw) == Candidate(now, now + remaining * SECOND, (draw + 1) * SLOT)
    {
      LeadFitsWindow(remaining, draw);
      AtOrAfterIsLeast(now + remaining * SECOND - (draw + 1) * SLOT);
    }

    /** Once a lead fits, the first candidate is never before the window opens, so the
        result is that candidate, pulled back to the last batch before expiry. */
    lemma DueIsClampedBatch(now: Instant, remaining: nat, draw: nat)
      requires Valid() && draw < LeadSlots(remaining)
      ensures InWindow(now, now + remaining * SECOND, NextPolicyPrefetchTime(now, remaining, draw))
    {
      LeadFitsWindow(remaining, draw);
      LeadStaysInWindow(now, remaining, draw);
      CandidateIsInWindow(now, now + remaining * SECOND, (draw + 1) * SLOT);
    }

    /** A batch from now on, not earlier than 30 s before expiry, and after it only if no batch is
        left before. */
    ghost predicate InWindow(now: Instant, expiry: Instant, due: Instant) {
      && IsBatch(due) && now <= due
      && (expiry < due ==> forall k: nat :: !(now <= BatchTime(k) <= expiry))
      && expiry - PREFETCH_INTERVAL * SECOND <= due
    }

    /** The first batch at `lead` before expiry, pulled back to one before expiry if need be. */
    function Candidate(now: Instant, expiry: Instant, lead: Duration): Instant
      requires Valid()
    {
      var due0 := AtOrAfter(expiry - lead);
      var due := if expiry < due0 && AtOrBefore(expiry).Some? then AtOrBefore(expiry).value else due0;
      if due < now then AtOrAfter(now) else due
    }

    lemma CandidateIsInWindow(now: Instant, expiry: Instant, lead: Duration)
      requires Valid() && SLOT <= lead <= PREFETCH_INTERVAL * SECOND && now <= expiry - lead
      ensures InWindow(now, expiry, Candidate(now, expiry, lead))
    {
      AtOrAfterIsLeast(expiry - lead);
      if expiry < AtOrAfter(expiry - lead) {
        PullBack(now, expiry, lead);
      }
    }

    /** Facts about the last batch before `expiry` when the lead overshoots it. */
    lemma PullBack(now: Instant, expiry: Instant, lead: Duration)
      requires Valid() && SLOT <= lead && now <= expiry - lead
      requires expiry < AtOrAfter(expiry - lead)
      ensures AtOrBefore(expiry).None? ==> forall k: nat :: expiry < BatchTime(k)
      ensures AtOrBefore(expiry).Some? ==>
        && IsBatch(AtOrBefore(expiry).value) && AtOrBefore(expiry).value <= expiry
        && expiry - SLOT - JITTER_MAX <= AtOrBefore(expiry).value
        && (AtOrBefore(expiry).value < now ==> forall k: nat :: !(now <= BatchTime(k) <= expiry))
      ensures IsBatch(AtOrAfter(now)) && now <= AtOrAfter(now)
      ensures forall k: nat :: now <= BatchTime(k) ==> AtOrAfter(now) <= BatchTime(k)
    {
      AtOrAfterIsLeast(now);
      AtOrBeforeIsGreatest(expiry);
      if AtOrBefore(expiry).Some? {
        NextBatchIsNear(expiry);
        AtOrAfterIsLeast(expiry);
      }
    }
  }

  /** How many whole slots fit in the last 30 s of the policy's lifetime. */
  function LeadSlots(remaining: nat): nat {
    var window := if remaining * SECOND > PREFETCH_INTERVAL * SECOND then PREFETCH_INTERVAL * SECOND else remaining * SECOND;
    window / SLOT
  }

  lemma LeadFitsWindow(remaining: nat, draw: nat)
    requires draw < LeadSlots(remaining)
    ensures (draw + 1) * SLOT <= remaining * SECOND
    ensures (draw + 1) * SLOT <= PREFETCH_INTERVAL * SECOND
  {
  }

  /** SplitMix64 of the seed and the batch number, in wrapping 64-bit arithmetic. */
  function SplitMix(seed: bv64, index: bv64): bv64 {
    var a := seed + index * 0x9e3779b97f4a7c15;
    var b := (a ^ (a >> 30)) * 0xbf58476d1ce4e5b9;
    var c := (b ^ (b >> 27)) * 0x94d049bb133111eb;
    c ^ (c >> 31)
  }

  function SplitMixJitter(seed: bv64, index: nat): Duration {
    (SplitMix(seed, (index % 0x1_0000_0000_0000_0000) as bv64) as int % 251) * MILLISECOND
  }

  function SplitMixGrid(startedAt: Instant, seed: bv64): Grid {
    Grid(startedAt + SLOT, (i: nat) => SplitMixJitter(seed, i))
  }

  /** The grid of every scheduler, whatever its start time and seed, is a valid grid,
      and its first batch comes at least 10 s after the start. */
  lemma SplitMixGridIsValid(startedAt: Instant, seed: bv64)
    ensures SplitMixGrid(startedAt, seed).Valid()
    ensures startedAt + SLOT <= SplitMixGrid(startedAt, seed).BatchTime(0)
  {
  }
}
