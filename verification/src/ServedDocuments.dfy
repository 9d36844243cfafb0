/**
 From the policy document to the cached answer: an MTA-STS lookup that fetched a document
 returns what the parser makes of it (internal/mta-sts.go:393-422), and the cache keeps that
 (internal/server.go:905-1064). What a run serves is put in terms of the document's own lines.
 */
module ServedDocuments {
  import opened Clock
  import opened BatchGrid
  import opened Options
  import opened Text
  import opened PolicyCache
  import opened DomainRuns
  import opened MtaSts
  import opened MtaStsReport
  import opened MtaStsDocument

  /** The lookup fetched `body`, or ended without a document. */
  ghost predicate LookedUp(l: Lookup, domain: string, body: string, isIp: string -> bool) {
    || l.policy == "" || l.policy == TEMP
    || l == var p := ParseBody(domain, body, isIp); Lookup(p.policy, p.report, p.maxAge)
  }

  /** `bodies[i]` is the document that step `i` fetched, if it fetched one. */
  ghost predicate Fetched(events: seq<Event>, bodies: seq<string>, domain: string, isIp: string -> bool) {
    && |bodies| == |events|
    && forall i :: 0 <= i < |events| && (events[i].OnDemand? || events[i].Prefetch?) ==>
         LookedUp(events[i].mtaSts, domain, bodies[i], isIp)
  }

  /** `body` is a valid document in enforce mode, and `policy` names exactly its mx patterns, all
      of them and in order. */
  ghost predicate Enforces(body: string, policy: string, isIp: string -> bool) {
    var lines := Lines(body);
    && Accepted(lines, {}, isIp).Some?
    && FirstValue(lines, Mode) == Some("enforce")
    && ReadMatchList(policy) == Some(Patterns(MxLines(lines)))
  }

  /** At `now`, neither the first max_age of `body` nor 30 days have passed since `since`. */
  ghost predicate Lasts(body: string, since: Instant, now: Instant) {
    && FirstValue(Lines(body), MaxAge).Some?
    && now < since + Decimal(FirstValue(Lines(body), MaxAge).value) * SECOND
    && now < since + CACHE_MAX_TTL * SECOND
  }

  lemma FetchedEnforces(l: Lookup, domain: string, body: string, isIp: string -> bool)
    ensures LookedUp(l, domain, body, isIp) && l.policy != "" && l.policy != TEMP ==> Enforces(body, l.policy, isIp)
  {
    EnforcedExactly(domain, Lines(body), isIp);
    MatchListReadsBack(domain, Lines(body), isIp);
  }

  lemma FetchedLasts(l: Lookup, domain: string, body: string, since: Instant, now: Instant, isIp: string -> bool)
    requires now < since + Cap(l.ttl) * SECOND
    ensures LookedUp(l, domain, body, isIp) && l.policy != "" && l.policy != TEMP ==> Lasts(body, since, now)
  {
    EnforcedExactly(domain, Lines(body), isIp);
  }

  /** Over every run, a cached MTA-STS policy is served only on behalf of a valid document in
      enforce mode that an earlier step fetched, names exactly the mx patterns of that document,
      and is served only while the document's first max_age lasts, and 30 days at most. */
  lemma ServedDocument(
    grid: Grid, states: seq<State>, events: seq<Event>, bodies: seq<string>, domain: string, isIp: string -> bool, n: nat, now: Instant)
    requires Run(grid, states, events) && Fetched(events, bodies, domain, isIp) && n < |states|
    requires SelectCached(states[n].entry, now).Serve? && SelectCached(states[n].entry, now).policy != ""
    requires states[n].entry.value.dane.policy == ""
    ensures exists i: nat :: i < n && MtaStsOrigin(grid, states, events, n, i)
              && Enforces(bodies[i], SelectCached(states[n].entry, now).policy, isIp)
              && Lasts(bodies[i], events[i].merged, now)
  {
    MtaStsLifetime(grid, states, events, n, now);
    var i: nat :| i < n && MtaStsOrigin(grid, states, events, n, i)
      && SelectCached(states[n].entry, now).policy == events[i].mtaSts.policy
      && now < events[i].merged + Cap(events[i].mtaSts.ttl) * SECOND;
    FetchedEnforces(events[i].mtaSts, domain, bodies[i], isIp);
    FetchedLasts(events[i].mtaSts, domain, bodies[i], events[i].merged, now, isIp);
  }

  /** The same for the answer of a fresh query: it enforces the document it has just fetched, or
      one that an earlier step fetched and whose lifetime is not over. */
  lemma AnsweredDocument(
    grid: Grid, states: seq<State>, events: seq<Event>, bodies: seq<string>, domain: string, isIp: string -> bool, n: nat,
    now: Instant, renewBefore: nat, dane: Lookup, mtaSts: Lookup, body: string)
    requires LookedUp(mtaSts, domain, body, isIp)
    requires Run(grid, states, events) && Fetched(events, bodies, domain, isIp) && n < |states|
    requires AnswersMtaSts(states[n].entry, now, renewBefore, dane, mtaSts)
    ensures var p := Query(states[n].entry, now, renewBefore, dane, mtaSts).policy;
            || (QueriesMtaSts(states[n].entry, now, renewBefore) && Enforces(body, p, isIp))
            || exists i: nat :: i < n && MtaStsOrigin(grid, states, events, n, i)
                 && Enforces(bodies[i], p, isIp) && Lasts(bodies[i], events[i].merged, now)
  {
    var p := Query(states[n].entry, now, renewBefore, dane, mtaSts).policy;
    AnsweredMtaStsLifetime(grid, states, events, n, now, renewBefore, dane, mtaSts);
    if QueriesMtaSts(states[n].entry, now, renewBefore) && p == mtaSts.policy {
      FetchedEnforces(mtaSts, domain, body, isIp);
    } else {
      var i: nat :| i < n && MtaStsOrigin(grid, states, events, n, i)
        && p == events[i].mtaSts.policy && now < events[i].merged + Cap(events[i].mtaSts.ttl) * SECOND;
      FetchedEnforces(events[i].mtaSts, domain, bodies[i], isIp);
      FetchedLasts(events[i].mtaSts, domain, bodies[i], events[i].merged, now, isIp);
    }
  }
}
