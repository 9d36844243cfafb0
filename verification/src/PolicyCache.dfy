/**
 The two-branch policy cache of one domain (internal/server.go:38-153, 905-1068,
 1430-1649). A DANE branch and an MTA-STS branch are cached side by side, each with its
 own expiry. A query looks up the branches that are missing, answers from what it has,
 and the answer is merged into the entry.

 Lookup outcomes, clock readings and the random part of a DANE lifetime are arbitrary
 inputs.
 */
module PolicyCache {
  import opened Clock
  import opened Options

  const CACHE_NOTFOUND_TTL: nat := 1800
  const CACHE_MIN_TTL: nat := 180
  const CACHE_MAX_TTL: nat := 2592000
  const RECHECK: Duration := 24 * HOUR
  const RECHECK_TTL: nat := 86400
  const FETCH_RETRY: Duration := 5 * MINUTE
  const JITTER_SECONDS: nat := 20
  const UINT32: nat := 0x1_0000_0000

  const TEMP: string := "TEMP"

  /** What a DANE or MTA-STS lookup returned. */
  datatype Lookup = Lookup(policy: string, report: string, ttl: nat)

  datatype Branch = Branch(expiresAt: Instant, policy: string, report: string, ttl: nat) {
    predicate HasData() {
      ttl != 0 || expiresAt != NEVER
    }

    function Remaining(now: Instant): nat {
      if HasData() then SecondsUntil(expiresAt, now) else 0
    }

    predicate Fresh(now: Instant) {
      Remaining(now) != 0
    }
  }

  const NO_BRANCH := Branch(NEVER, "", "", 0)

  datatype Entry = Entry(
    daneLastAttempt: Instant,
    mtaStsLastAttempt: Instant,
    expiresAt: Instant,
    policy: string,
    report: string,
    dane: Branch,
    mtaSts: Branch,
    ttl: nat,
    counter: nat)
  {
    predicate HasBranches() {
      dane.HasData() || mtaSts.HasData()
    }
  }

  const EMPTY_ENTRY := Entry(NEVER, NEVER, NEVER, "", "", NO_BRANCH, NO_BRANCH, 0, 0)

  datatype DomainResult = DomainResult(
    policy: string,
    report: string,
    ttl: nat,
    dane: Branch,
    mtaSts: Branch,
    daneTemp: bool,
    daneAttempted: bool,
    mtaStsAttempted: bool)

  /** The outcome of looking a policy up in the cache. */
  datatype Selection = Miss | Serve(policy: string, report: string, ttl: nat)

  // ---------- the selector for cached entries ----------

  function SelectCached(c: Option<Entry>, now: Instant): Selection {
    if c.None? then Miss else Select(c.value, now)
  }

  function Select(e: Entry, now: Instant): Selection {
    if !e.HasBranches() then
      if SecondsUntil(e.expiresAt, now) == 0 then Miss
      else if e.policy == "dane" || e.policy == "dane-only" then Serve(e.policy, e.report, SecondsUntil(e.expiresAt, now))
      else Miss
    else
      var daneTTL := e.dane.Remaining(now);
      var mtaStsTTL := e.mtaSts.Remaining(now);
      if daneTTL == 0 then Miss
      else if e.dane.policy != "" then Serve(e.dane.policy, e.dane.report, daneTTL)
      else if mtaStsTTL != 0 then Serve(e.mtaSts.policy, e.mtaSts.report, MinPositive(daneTTL, mtaStsTTL))
      else Miss
  }

  function MinPositive(a: nat, b: nat): nat {
    if a == 0 then b else if b == 0 then a else if a < b then a else b
  }

  // ---------- branches from lookup results ----------

  function BranchFromResult(l: Lookup): Branch {
    if l.policy == TEMP then NO_BRANCH
    else
      var ttl := if l.policy == "" && l.ttl == 0 then CACHE_NOTFOUND_TTL else l.ttl;
      var clamped := if ttl < CACHE_MIN_TTL then CACHE_MIN_TTL else if ttl > CACHE_MAX_TTL then CACHE_MAX_TTL else ttl;
      Branch(NEVER, l.policy, l.report, clamped)
  }

  function MtaStsBranchFromResult(l: Lookup): Branch {
    if l.policy == TEMP then NO_BRANCH
    else
      var ttl := if l.policy == "" && l.ttl == 0 then CACHE_NOTFOUND_TTL else l.ttl;
      Branch(NEVER, l.policy, l.report, if ttl > CACHE_MAX_TTL then CACHE_MAX_TTL else ttl)
  }

  /** DANE lifetimes are stretched by a random 0 to 19 seconds, in 32-bit arithmetic. */
  function ExpireBranch(b: Branch, now: Instant, jitter: nat): Branch {
    if !b.HasData() then b
    else b.(expiresAt := now + (b.ttl + jitter) % UINT32 * SECOND)
  }

  function ExpireMtaStsBranch(b: Branch, now: Instant): Branch {
    if !b.HasData() then b
    else b.(expiresAt := now + b.ttl * SECOND)
  }

  // ---------- the selector for fresh results ----------

  /** The answer of a query: policy, report and lifetime. */
  function SelectedFromBranches(dane: Branch, mtaSts: Branch, daneTemp: bool): (string, string, nat) {
    if daneTemp then (TEMP, "", 0)
    else if dane.HasData() then
      if dane.policy != "" then (dane.policy, dane.report, dane.ttl)
      else if mtaSts.HasData() then (mtaSts.policy, mtaSts.report, MinPositive(dane.ttl, mtaSts.ttl))
      else ("", "", 0)
    else (TEMP, "", 0)
  }

  function FreshForSelection(b: Branch, now: Instant): Branch {
    if b.Remaining(now) == 0 then NO_BRANCH else b.(ttl := b.Remaining(now))
  }

  /** A stored no-DANE branch that has expired still counts until 24 h after the last DANE attempt. */
  predicate Extended(e: Entry, now: Instant) {
    && !e.dane.Fresh(now)
    && e.dane.HasData() && e.dane.policy == "" && e.mtaSts.policy != ""
    && e.daneLastAttempt != NEVER
    && now < e.daneLastAttempt + RECHECK
  }

  function DaneForSelection(e: Entry, now: Instant): Branch {
    if e.dane.Fresh(now) then FreshForSelection(e.dane, now)
    else if Extended(e, now) then
      var next := e.daneLastAttempt + RECHECK;
      e.dane.(ttl := SecondsUntil(next, now), expiresAt := next)
    else NO_BRANCH
  }

  function ForQuerySuppression(b: Branch, renewBefore: nat): Branch {
    if renewBefore != 0 && b.HasData() && b.ttl <= renewBefore then NO_BRANCH else b
  }

  predicate BeforeRecheck(lastAttempt: Instant, now: Instant, renewBefore: nat) {
    if lastAttempt == NEVER then false
    else now + renewBefore * SECOND < lastAttempt + RECHECK
  }

  predicate ShouldQueryDane(c: Option<Entry>, dane: Branch, now: Instant, renewBefore: nat) {
    if dane.HasData() then false
    else !(c.Some? && c.value.mtaSts.policy != "" && c.value.dane.HasData() && c.value.dane.policy == ""
           && BeforeRecheck(c.value.daneLastAttempt, now, renewBefore))
  }

  predicate ShouldQueryMtaSts(c: Option<Entry>, mtaSts: Branch, now: Instant, renewBefore: nat) {
    if mtaSts.HasData() then false
    else if c.Some? && c.value.mtaStsLastAttempt != NEVER && now < c.value.mtaStsLastAttempt + FETCH_RETRY then false
    else !(c.Some? && c.value.dane.policy != "" && BeforeRecheck(c.value.mtaStsLastAttempt, now, renewBefore))
  }

  // ---------- one query ----------

  function DaneSelected(c: Option<Entry>, now: Instant): Branch {
    if c.None? then NO_BRANCH else DaneForSelection(c.value, now)
  }

  function MtaStsSelected(c: Option<Entry>, now: Instant): Branch {
    if c.None? then NO_BRANCH else FreshForSelection(c.value.mtaSts, now)
  }

  predicate QueriesDane(c: Option<Entry>, now: Instant, renewBefore: nat) {
    ShouldQueryDane(c, ForQuerySuppression(DaneSelected(c, now), renewBefore), now, renewBefore)
  }

  predicate QueriesMtaSts(c: Option<Entry>, now: Instant, renewBefore: nat) {
    ShouldQueryMtaSts(c, ForQuerySuppression(MtaStsSelected(c, now), renewBefore), now, renewBefore)
  }

  /** The policy server said it has no policy to offer right now. */
  predicate Unavailable(l: Lookup) {
    l.policy == TEMP || (l.policy == "" && l.ttl == 0)
  }

  /** The DANE branch an answer rests on. */
  function DaneUsed(c: Option<Entry>, now: Instant, renewBefore: nat, dane: Lookup): Branch {
    if QueriesDane(c, now, renewBefore) then BranchFromResult(dane.(report := "")) else DaneSelected(c, now)
  }

  /** internal/server.go:1534-1607. `dane` and `mtaSts` are what the lookups return if made. */
  function Query(c: Option<Entry>, now: Instant, renewBefore: nat, dane: Lookup, mtaSts: Lookup): DomainResult {
    var queryDane := QueriesDane(c, now, renewBefore);
    var queryMtaSts := QueriesMtaSts(c, now, renewBefore);
    var daneTemp := queryDane && dane.policy == TEMP;
    var refreshedDane := if queryDane then BranchFromResult(dane.(report := "")) else NO_BRANCH;
    var daneUsed := DaneUsed(c, now, renewBefore, dane);
    var replace := queryMtaSts && (!Unavailable(mtaSts) || !MtaStsSelected(c, now).HasData());
    var refreshedMtaSts := if replace then MtaStsBranchFromResult(mtaSts) else NO_BRANCH;
    var mtaStsUsed := if replace then refreshedMtaSts else MtaStsSelected(c, now);
    var (policy, report, ttl) := SelectedFromBranches(daneUsed, mtaStsUsed, daneTemp);
    DomainResult(policy, report, ttl, refreshedDane, refreshedMtaSts, daneTemp, queryDane, queryMtaSts)
  }

  // ---------- merging a result ----------

  function MergedDane(e: Entry, result: DomainResult, now: Instant, jitter: nat): Branch {
    if !result.dane.HasData() then e.dane
    else
      var mtaStsPolicy := if result.mtaSts.HasData() then result.mtaSts.policy else e.mtaSts.policy;
      var dane := if result.dane.policy == "" && mtaStsPolicy != "" then result.dane.(ttl := RECHECK_TTL) else result.dane;
      ExpireBranch(dane, now, jitter)
  }

  function MergedMtaSts(e: Entry, merged: Branch, result: DomainResult, now: Instant): Branch {
    if !result.mtaSts.HasData() then e.mtaSts
    else
      var danePolicy := if result.dane.HasData() then result.dane.policy else merged.policy;
      var mtaSts := if result.mtaSts.policy == "" && danePolicy != "" then result.mtaSts.(ttl := RECHECK_TTL) else result.mtaSts;
      ExpireMtaStsBranch(mtaSts, now)
  }

  /** internal/server.go:1020-1064. */
  function Merge(c: Option<Entry>, result: DomainResult, now: Instant, jitter: nat): Entry {
    var e := if c.Some? then c.value else EMPTY_ENTRY;
    var dane := MergedDane(e, result, now, jitter);
    var mtaSts := MergedMtaSts(e, dane, result, now);
    var cs := e.(
      dane := dane,
      mtaSts := mtaSts,
      daneLastAttempt := if result.daneAttempted then now else e.daneLastAttempt,
      mtaStsLastAttempt := if result.mtaStsAttempted then now else e.mtaStsLastAttempt);
    match Select(cs, now)
    case Serve(policy, report, ttl) => cs.(policy := policy, report := report, ttl := ttl, expiresAt := now + ttl * SECOND)
    case Miss => cs.(policy := result.policy, report := result.report, ttl := result.ttl)
  }

  // ---------- what every stored entry satisfies ----------

  /** Timestamps are clock readings and no branch stores the TEMP marker. */
  predicate WellFormed(c: Option<Entry>) {
    c.Some? ==>
      && c.value.daneLastAttempt >= 0
      && c.value.dane.policy != TEMP
      && c.value.mtaSts.policy != TEMP
  }

  // ---------- results about one query ----------

  /** When the suppression rules skip the DANE lookup there is a DANE branch to select from. */
  lemma SkippedDaneIsCovered(c: Option<Entry>, now: Instant, renewBefore: nat)
    requires WellFormed(c) && !QueriesDane(c, now, renewBefore)
    ensures DaneSelected(c, now).HasData()
  {
  }

  /** A query answers TEMP exactly when it asked for DANE and was told TEMP. */
  lemma TempExactlyOnDaneTemp(c: Option<Entry>, now: Instant, renewBefore: nat, dane: Lookup, mtaSts: Lookup)
    requires WellFormed(c)
    ensures var r := Query(c, now, renewBefore, dane, mtaSts);
            r.policy == TEMP <==> r.daneAttempted && dane.policy == TEMP
  {
  }

  // ---------- when MTA-STS answers without fresh DANE evidence ----------

  /** The DANE lookup is skipped on the strength of an expired record. */
  predicate RestsOnExpired(c: Option<Entry>, now: Instant, renewBefore: nat) {
    && c.Some? && Extended(c.value, now)
    && (renewBefore == 0 || now + renewBefore * SECOND < c.value.daneLastAttempt + RECHECK)
  }

  /** A query goes without a DANE lookup and without a fresh DANE record exactly when the
      stored no-DANE record has expired, there is an MTA-STS policy, and the renew window
      ends before 24 h have passed since the last DANE attempt. */
  lemma DaneSkippedOnExpiredRecordExactly(c: Option<Entry>, now: Instant, renewBefore: nat)
    requires WellFormed(c)
    ensures !QueriesDane(c, now, renewBefore) && !(c.Some? && c.value.dane.Fresh(now)) <==> RestsOnExpired(c, now, renewBefore)
  {
  }

  /** Fresh evidence that there is no DANE policy: the query's own completed lookup, or a
      stored record that has not expired. */
  predicate FreshNoDane(c: Option<Entry>, now: Instant, renewBefore: nat, dane: Lookup) {
    if QueriesDane(c, now, renewBefore) then dane.policy == ""
    else c.Some? && c.value.dane.Fresh(now) && c.value.dane.policy == ""
  }

  /** The answer is a policy and comes from the MTA-STS branch. */
  predicate AnswersMtaSts(c: Option<Entry>, now: Instant, renewBefore: nat, dane: Lookup, mtaSts: Lookup) {
    var r := Query(c, now, renewBefore, dane, mtaSts);
    r.policy != "" && r.policy != TEMP && DaneUsed(c, now, renewBefore, dane).policy == ""
  }

  /** There is an MTA-STS policy to answer with: one just fetched, or else a fresh cached one. */
  predicate MtaStsAtHand(c: Option<Entry>, now: Instant, renewBefore: nat, mtaSts: Lookup) {
    if QueriesMtaSts(c, now, renewBefore) && !Unavailable(mtaSts) then mtaSts.policy != "" && mtaSts.ttl != 0
    else c.Some? && c.value.mtaSts.Fresh(now) && c.value.mtaSts.policy != ""
  }

  /** MTA-STS answers without fresh evidence that there is no DANE policy exactly when DANE is
      skipped on an expired record and there is an MTA-STS policy to answer with. The lifetime
      told then ends within 24 h of the last DANE attempt, except in the last second of them. */
  lemma AnswersOnExpiredRecordExactly(c: Option<Entry>, now: Instant, renewBefore: nat, dane: Lookup, mtaSts: Lookup)
    requires WellFormed(c)
    ensures AnswersMtaSts(c, now, renewBefore, dane, mtaSts) && !FreshNoDane(c, now, renewBefore, dane) <==>
            RestsOnExpired(c, now, renewBefore) && MtaStsAtHand(c, now, renewBefore, mtaSts)
    ensures RestsOnExpired(c, now, renewBefore) && MtaStsAtHand(c, now, renewBefore, mtaSts) ==>
            var next := c.value.daneLastAttempt + RECHECK;
            now + Query(c, now, renewBefore, dane, mtaSts).ttl * SECOND <= next <==> now + SECOND <= next
  {
    DaneSkippedOnExpiredRecordExactly(c, now, renewBefore);
  }

  /** An entry that cannot be served now cannot be served later either. */
  lemma MissesPersist(c: Option<Entry>, now: Instant, later: Instant)
    requires SelectCached(c, now).Miss? && now <= later
    ensures SelectCached(c, later).Miss?
  {
  }

  /** The two selectors agree: after an on-demand query for an entry that the cache could
      not serve, the merged entry serves at no later time anything but the answer just
      given, and after a TEMP answer it serves nothing at all. */
  lemma CacheAgreesWithAnswer(
    c: Option<Entry>, queried: Instant, merged: Instant, later: Instant, jitter: nat, dane: Lookup, mtaSts: Lookup)
    requires WellFormed(c)
    requires SelectCached(c, queried).Miss? && queried <= merged <= later
    ensures var r := Query(c, queried, 0, dane, mtaSts);
            match Select(Merge(c, r, merged, jitter), later)
            case Miss => true
            case Serve(policy, report, _) => policy == r.policy && report == r.report && r.policy != TEMP
  {
    var r := Query(c, queried, 0, dane, mtaSts);
    var m := Merge(c, r, merged, jitter);
    TempExactlyOnDaneTemp(c, queried, 0, dane, mtaSts);
    if !m.HasBranches() {
      BranchlessMergeServesNothing(c, queried, merged, later, jitter, dane, mtaSts);
    } else if Select(m, later).Serve? {
      ServedDaneWasAnswered(c, queried, merged, later, jitter, dane, mtaSts);
      if m.dane.policy == "" {
        ServedMtaStsWasAnswered(c, queried, merged, later, jitter, dane, mtaSts);
      }
    }
  }

  /** A merged entry without branches comes from a TEMP lookup and is not served. */
  lemma BranchlessMergeServesNothing(
    c: Option<Entry>, queried: Instant, merged: Instant, later: Instant, jitter: nat, dane: Lookup, mtaSts: Lookup)
    requires WellFormed(c)
    requires SelectCached(c, queried).Miss? && queried <= merged <= later
    requires !Merge(c, Query(c, queried, 0, dane, mtaSts), merged, jitter).HasBranches()
    ensures Select(Merge(c, Query(c, queried, 0, dane, mtaSts), merged, jitter), later).Miss?
  {
  }

  /** A DANE branch that the merged entry serves from is the one the answer used. */
  lemma ServedDaneWasAnswered(
    c: Option<Entry>, queried: Instant, merged: Instant, later: Instant, jitter: nat, dane: Lookup, mtaSts: Lookup)
    requires WellFormed(c)
    requires SelectCached(c, queried).Miss? && queried <= merged <= later
    requires Merge(c, Query(c, queried, 0, dane, mtaSts), merged, jitter).dane.Fresh(later)
    ensures var r := Query(c, queried, 0, dane, mtaSts);
            var m := Merge(c, r, merged, jitter);
            && !(r.daneAttempted && dane.policy == TEMP)
            && (m.dane.policy != "" ==> r.policy == m.dane.policy && r.report == m.dane.report)
            && (m.dane.policy == "" ==> DaneUsed(c, queried, 0, dane).HasData() && DaneUsed(c, queried, 0, dane).policy == "")
  {
  }

  /** Likewise for the MTA-STS branch. */
  lemma ServedMtaStsWasAnswered(
    c: Option<Entry>, queried: Instant, merged: Instant, later: Instant, jitter: nat, dane: Lookup, mtaSts: Lookup)
    requires WellFormed(c) && queried <= merged <= later
    requires !(QueriesDane(c, queried, 0) && dane.policy == TEMP)
    requires DaneUsed(c, queried, 0, dane).HasData() && DaneUsed(c, queried, 0, dane).policy == ""
    requires Merge(c, Query(c, queried, 0, dane, mtaSts), merged, jitter).mtaSts.Fresh(later)
    ensures var r := Query(c, queried, 0, dane, mtaSts);
            var m := Merge(c, r, merged, jitter);
            r.policy == m.mtaSts.policy && r.report == m.mtaSts.report
  {
  }

  /** A refresh that came back TEMP or without an available policy leaves a fresh cached
      MTA-STS branch exactly as it was, and so does a policy whose lifetime is zero. */
  lemma UnavailableRefreshKeepsMtaSts(
    c: Option<Entry>, queried: Instant, merged: Instant, jitter: nat, renewBefore: nat, dane: Lookup, mtaSts: Lookup)
    requires c.Some? && c.value.mtaSts.Fresh(queried)
    requires Unavailable(mtaSts) || mtaSts.ttl == 0
    ensures Merge(c, Query(c, queried, renewBefore, dane, mtaSts), merged, jitter).mtaSts == c.value.mtaSts
  {
  }

  /** The lifetime told with a cached answer is honest: the same answer is still served until
      less than a second of it is left, and nothing is served once it is over by a second. */
  lemma ServedForItsLifetime(e: Entry, now: Instant, later: Instant)
    requires Select(e, now).Serve? && now <= later
    ensures var s := Select(e, now);
            && (later <= now + (s.ttl - 1) * SECOND ==>
                  Select(e, later).Serve? && Select(e, later).policy == s.policy && Select(e, later).report == s.report)
            && (now + (s.ttl + 1) * SECOND <= later ==> Select(e, later).Miss?)
  {
  }

  /** Seconds a DANE result is good for: its own lifetime within 3 minutes and 30 days, or a day
      if it found nothing while there is an MTA-STS policy. */
  function DaneLifetime(dane: Lookup, mtaStsPolicy: string): nat {
    if dane.policy == "" && mtaStsPolicy != "" then RECHECK_TTL
    else
      var ttl := if dane.policy == "" && dane.ttl == 0 then CACHE_NOTFOUND_TTL else dane.ttl;
      if ttl <= CACHE_MIN_TTL then CACHE_MIN_TTL else if ttl >= CACHE_MAX_TTL then CACHE_MAX_TTL else ttl
  }

  /** A completed DANE lookup is stored for exactly that long from the merge, plus the random
      stretch of less than 20 s, whatever becomes of the MTA-STS branch. */
  lemma MergedDaneLifetime(
    c: Option<Entry>, queried: Instant, merged: Instant, renewBefore: nat, dane: Lookup, mtaSts: Lookup, jitter: nat)
    requires jitter < JITTER_SECONDS && QueriesDane(c, queried, renewBefore) && dane.policy != TEMP
    ensures var m := Merge(c, Query(c, queried, renewBefore, dane, mtaSts), merged, jitter);
            && m.dane.policy == dane.policy && m.dane.report == "" && m.daneLastAttempt == merged
            && m.dane.expiresAt == merged + (DaneLifetime(dane, m.mtaSts.policy) + jitter) * SECOND
  {
    var r := Query(c, queried, renewBefore, dane, mtaSts);
    var e := if c.Some? then c.value else EMPTY_ENTRY;
    var d := MergedDane(e, r, merged, jitter);
    StoredDaneLifetime(e, r, dane, merged, jitter);
    assert MergedMtaSts(e, d, r, merged).policy == if r.mtaSts.HasData() then r.mtaSts.policy else e.mtaSts.policy;
  }

  lemma StoredDaneLifetime(e: Entry, r: DomainResult, dane: Lookup, merged: Instant, jitter: nat)
    requires jitter < JITTER_SECONDS && dane.policy != TEMP && r.dane == BranchFromResult(dane.(report := ""))
    ensures var d := MergedDane(e, r, merged, jitter);
            var mtaStsPolicy := if r.mtaSts.HasData() then r.mtaSts.policy else e.mtaSts.policy;
            && d.policy == dane.policy && d.report == ""
            && d.expiresAt == merged + (DaneLifetime(dane, mtaStsPolicy) + jitter) * SECOND
  {
  }

  /** The summary kept with a merged query result is what the entry serves; if it serves
      nothing, the answer that was given. */
  lemma MergedSummaryMatches(
    c: Option<Entry>, queried: Instant, merged: Instant, renewBefore: nat, dane: Lookup, mtaSts: Lookup, jitter: nat)
    ensures var r := Query(c, queried, renewBefore, dane, mtaSts);
            var m := Merge(c, r, merged, jitter);
            if Select(m, merged).Serve?
            then Select(m, merged) == Serve(m.policy, m.report, m.ttl) && m.expiresAt == merged + m.ttl * SECOND
            else (m.policy, m.report, m.ttl) == (r.policy, r.report, r.ttl)
  {
    var r := Query(c, queried, renewBefore, dane, mtaSts);
    if Merge(c, r, merged, jitter).HasBranches() {
      BranchesSummaryMatches(c, r, merged, jitter);
    } else {
      BranchlessSummaryMatches(c, queried, merged, renewBefore, dane, mtaSts, jitter);
    }
  }

  /** With branches this holds for any result merged. */
  lemma BranchesSummaryMatches(c: Option<Entry>, r: DomainResult, merged: Instant, jitter: nat)
    requires Merge(c, r, merged, jitter).HasBranches()
    ensures var m := Merge(c, r, merged, jitter);
            if Select(m, merged).Serve?
            then Select(m, merged) == Serve(m.policy, m.report, m.ttl) && m.expiresAt == merged + m.ttl * SECOND
            else (m.policy, m.report, m.ttl) == (r.policy, r.report, r.ttl)
  {
  }

  /** Without branches the query was told TEMP, and the entry serves what it served before. */
  lemma BranchlessSummaryMatches(
    c: Option<Entry>, queried: Instant, merged: Instant, renewBefore: nat, dane: Lookup, mtaSts: Lookup, jitter: nat)
    requires !Merge(c, Query(c, queried, renewBefore, dane, mtaSts), merged, jitter).HasBranches()
    ensures var r := Query(c, queried, renewBefore, dane, mtaSts);
            var m := Merge(c, r, merged, jitter);
            && r.policy == TEMP
            && Select(m, merged) == SelectCached(c, merged)
            && if Select(m, merged).Serve?
               then Select(m, merged) == Serve(m.policy, m.report, m.ttl) && m.expiresAt == merged + m.ttl * SECOND
               else (m.policy, m.report, m.ttl) == (r.policy, r.report, r.ttl)
  {
  }
}
