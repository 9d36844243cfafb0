/**
 From lookup results to a DANE policy (internal/dane.go:43-80, 286-337, 373-411, 521-574):
 the fold over TLSA results in order of arrival, the fold over MX address checks, and their
 composition with the worker pool.
 */
module DanePolicy {
  import opened Options
  import WorkerPool

  // ---------- TLSA results ----------

  /** What the TLSA lookup of one host returned. */
  datatype TlsaResult = TlsaResult(failed: bool, result: string, ttl: nat)

  datatype Outcome = Error | Decided(policy: string, ttl: nat)

  datatype Level = NoDane | Dane | DaneOnly {
    function Rank(): nat { if NoDane? then 0 else if Dane? then 1 else 2 }
  }

  function LevelOf(result: string): Level {
    if result == "dane-only" then DaneOnly else if result == "dane" then Dane else NoDane
  }

  ghost predicate AllLevel(rs: seq<TlsaResult>, level: Level) {
    forall r :: r in rs ==> LevelOf(r.result) == level
  }

  /** `m` is the least of `ttl` and the lifetimes in `rs`. */
  ghost predicate IsMinTTL(m: nat, ttl: nat, rs: seq<TlsaResult>) {
    && m <= ttl && (forall r :: r in rs ==> m <= r.ttl)
    && (m == ttl || exists r :: r in rs && m == r.ttl)
  }

  /** What the results of all hosts amount to, whatever their order: an error if any lookup
      failed; else no policy if no host has TLSA records, mandatory DANE if the address data
      is complete and every host is ready for it, and opportunistic DANE otherwise. */
  ghost predicate Verdict(o: Outcome, ttl: nat, incomplete: bool, rs: seq<TlsaResult>) {
    if exists r :: r in rs && r.failed then o == Error
    else
      && o.Decided?
      && IsMinTTL(o.ttl, ttl, rs)
      && o.policy == if AllLevel(rs, NoDane) then "" else if !incomplete && AllLevel(rs, DaneOnly) then "dane-only" else "dane"
  }

  /** None of the results failed, and these are the least lifetime and the least and greatest
      level among them; incomplete host lists count as the lowest level. */
  ghost predicate Folded(rs: seq<TlsaResult>, ttl: nat, incomplete: bool, minTTL: nat, minPolicy: Level, maxPolicy: Level) {
    && (forall r :: r in rs ==> !r.failed && minPolicy.Rank() <= LevelOf(r.result).Rank() <= maxPolicy.Rank())
    && IsMinTTL(minTTL, ttl, rs)
    && (maxPolicy == NoDane || exists r :: r in rs && LevelOf(r.result) == maxPolicy)
    && (incomplete ==> minPolicy == NoDane)
    && (minPolicy == DaneOnly || incomplete || exists r :: r in rs && LevelOf(r.result) == minPolicy)
  }

  lemma FoldOne(rs: seq<TlsaResult>, res: TlsaResult, ttl: nat, incomplete: bool, minTTL: nat, minPolicy: Level, maxPolicy: Level)
    requires Folded(rs, ttl, incomplete, minTTL, minPolicy, maxPolicy) && !res.failed
    ensures var policy := LevelOf(res.result);
            Folded(rs + [res], ttl, incomplete, if res.ttl < minTTL then res.ttl else minTTL,
                   if policy.Rank() < minPolicy.Rank() then policy else minPolicy,
                   if policy.Rank() > maxPolicy.Rank() then policy else maxPolicy)
  {
    var more := rs + [res];
    assert res in more && forall r :: r in rs ==> r in more;
  }

  lemma FoldDecides(rs: seq<TlsaResult>, ttl: nat, incomplete: bool, minTTL: nat, minPolicy: Level, maxPolicy: Level)
    requires Folded(rs, ttl, incomplete, minTTL, minPolicy, maxPolicy)
    ensures var policy := if maxPolicy.Rank() < 1 then "" else if minPolicy.Rank() <= 1 then "dane" else "dane-only";
            Verdict(Decided(policy, minTTL), ttl, incomplete, rs)
  {
  }

  /** internal/dane.go:521-574. The channel delivers `arrivals` and is then closed; if
      `cancelAt` is set, cancellation is noticed instead of that arrival. */
  method GetDanePolicy(ttl: nat, incomplete: bool, numRecords: nat, arrivals: seq<TlsaResult>, cancelAt: Option<nat>)
    returns (o: Outcome)
    ensures |arrivals| < numRecords ==> o == Error
    ensures cancelAt.Some? && cancelAt.value < numRecords ==> o == Error
    ensures numRecords <= |arrivals| && (cancelAt.Some? ==> numRecords <= cancelAt.value) ==>
              Verdict(o, ttl, incomplete, arrivals[..numRecords])
  {
    var minTTL := ttl;
    var minPolicy := DaneOnly;
    var maxPolicy := NoDane;
    if incomplete {
      minPolicy := NoDane;
    }
    for i := 0 to numRecords
      invariant i <= |arrivals| && (cancelAt.Some? ==> i <= cancelAt.value)
      invariant Folded(arrivals[..i], ttl, incomplete, minTTL, minPolicy, maxPolicy)
    {
      if cancelAt == Some(i) {
        return Error;
      }
      if i >= |arrivals| {
        return Error;
      }
      var res := arrivals[i];
      assert arrivals[..i + 1] == arrivals[..i] + [res];
      if res.failed {
        FailureIsSeen(arrivals, i, numRecords);
        return Error;
      }
      FoldOne(arrivals[..i], res, ttl, incomplete, minTTL, minPolicy, maxPolicy);
      if res.ttl < minTTL {
        minTTL := res.ttl;
      }
      var policy := LevelOf(res.result);
      if policy.Rank() < minPolicy.Rank() {
        minPolicy := policy;
      }
      if policy.Rank() > maxPolicy.Rank() {
        maxPolicy := policy;
      }
    }
    FoldDecides(arrivals[..numRecords], ttl, incomplete, minTTL, minPolicy, maxPolicy);
    var pol := "";
    if maxPolicy.Rank() >= 1 {
      if minPolicy.Rank() <= 1 {
        pol := "dane";
      } else {
        pol := "dane-only";
      }
    }
    return Decided(pol, minTTL);
  }

  lemma FailureIsSeen(arrivals: seq<TlsaResult>, i: nat, n: nat)
    requires i < n && i < |arrivals| && arrivals[i].failed
    ensures n <= |arrivals| ==> exists r :: r in arrivals[..n] && r.failed
  {
  }

  /** The verdict is a function of the collection of results: the same for every order. */
  lemma VerdictIgnoresOrder(o1: Outcome, o2: Outcome, ttl: nat, incomplete: bool, rs1: seq<TlsaResult>, rs2: seq<TlsaResult>)
    requires forall r :: r in rs1 <==> r in rs2
    requires Verdict(o1, ttl, incomplete, rs1) && Verdict(o2, ttl, incomplete, rs2)
    ensures o1 == o2
  {
  }

  // ---------- the pipeline ----------

  /** The results in the order in which the pool sent them. */
  function Arrivals<T>(lookups: seq<T>, sent: seq<nat>): (a: seq<T>)
    requires forall j :: j in sent ==> j < |lookups|
    ensures |a| == |sent| && forall i :: 0 <= i < |sent| ==> sent[i] < |lookups| && a[i] == lookups[sent[i]]
  {
    assert forall i :: 0 <= i < |sent| ==> sent[i] in sent;
    seq(|sent|, i requires 0 <= i < |sent| && sent[i] < |lookups| => lookups[sent[i]])
  }

  lemma ArrivalsOfAll<T>(lookups: seq<T>, sent: seq<nat>)
    requires forall j :: j in sent ==> j < |lookups|
    requires forall j: nat :: j < |lookups| ==> j in sent
    ensures forall r :: r in Arrivals(lookups, sent) <==> r in lookups
  {
    var a := Arrivals(lookups, sent);
    forall r | r in lookups ensures r in a {
      var j: nat :| j < |lookups| && lookups[j] == r;
      assert j in sent;
      var i :| 0 <= i < |sent| && sent[i] == j;
      assert a[i] == r;
    }
    forall r | r in a ensures r in lookups {
      var i :| 0 <= i < |a| && a[i] == r;
      assert a[i] == lookups[sent[i]];
    }
  }

  /** Pool and fold together. In every state of every schedule, cancelled or not, whatever
      the fold makes of the results sent so far is the verdict on all hosts or an error; a
      policy is never computed from fewer results than hosts. If the pool ran to its end
      without cancellation, it is the verdict. */
  method EvaluateArrivals(
    lookups: seq<TlsaResult>, ttl: nat, incomplete: bool, sent: seq<nat>, cancelAt: Option<nat>,
    ghost states: seq<WorkerPool.State>, ghost steps: seq<WorkerPool.Step>, ghost n: nat)
    returns (o: Outcome)
    requires WorkerPool.Run(states, steps) && n < |states| && states[0].hosts == |lookups| && states[n].sent == sent
    ensures o.Decided? ==> Verdict(o, ttl, incomplete, lookups)
    ensures states[n].resultsClosed && !states[n].cancelled && cancelAt.None? ==> Verdict(o, ttl, incomplete, lookups)
  {
    WorkerPool.FullCountIsComplete(states, steps, n);
    var arrivals := Arrivals(lookups, sent);
    o := GetDanePolicy(ttl, incomplete, |lookups|, arrivals, cancelAt);
    if states[n].resultsClosed && !states[n].cancelled {
      WorkerPool.EachHostOnce(states, steps, n);
    }
    if |sent| == |lookups| {
      assert arrivals[..|lookups|] == arrivals;
      ArrivalsOfAll(lookups, sent);
    }
  }

  // ---------- MX address checks ----------

  datatype MxStatus = MxOk | MxFail | MxNotSec

  datatype MxCheck = MxCheck(host: string, ttl: nat, status: MxStatus)

  datatype MxOutcome = MxError | MxHosts(hosts: seq<string>, ttl: nat, incomplete: bool)

  /** internal/dane.go:287-305: a host counts as reachable over DNSSEC as soon as one address
      type is; a failure matters only if no address type is. */
  method CheckMx(validName: bool, addresses: seq<MxStatus>) returns (status: MxStatus)
    ensures status == MxOk <==> validName && MxOk in addresses
    ensures status == MxFail <==> validName && MxOk !in addresses && MxFail in addresses
  {
    if !validName {
      return MxNotSec;
    }
    var failed := false;
    for i := 0 to |addresses|
      invariant MxOk !in addresses[..i]
      invariant failed <==> MxFail in addresses[..i]
    {
      assert addresses[..i + 1] == addresses[..i] + [addresses[i]];
      match addresses[i] {
        case MxOk => return MxOk;
        case MxFail => failed := true;
        case MxNotSec =>
      }
    }
    assert addresses[..|addresses|] == addresses;
    return if failed then MxFail else MxNotSec;
  }

  /** The reachable hosts in the order of their checks. */
  function ReachableHosts(checks: seq<MxCheck>): seq<string> {
    if checks == [] then []
    else
      var last, rest := checks[|checks| - 1], ReachableHosts(checks[..|checks| - 1]);
      if last.status == MxOk then rest + [last.host] else rest
  }

  lemma {:induction false} ReachableHostsMeans(checks: seq<MxCheck>)
    ensures forall h :: h in ReachableHosts(checks) <==> exists c :: c in checks && c.status == MxOk && c.host == h
  {
    if checks != [] {
      var last, rest := checks[|checks| - 1], checks[..|checks| - 1];
      ReachableHostsMeans(rest);
      assert checks == rest + [last];
    }
  }

  ghost predicate AnyWith(checks: seq<MxCheck>, status: MxStatus) {
    exists c :: c in checks && c.status == status
  }

  /** `ttl` is the least lifetime of a reachable host, once there is one. */
  ghost predicate LeastLifetime(checks: seq<MxCheck>, some: bool, ttl: nat) {
    && (forall c :: c in checks && c.status == MxOk ==> some && ttl <= c.ttl)
    && (if some then exists c :: c in checks && c.status == MxOk && c.ttl == ttl else ttl == 0)
  }

  lemma OneMoreCheck(checks: seq<MxCheck>, check: MxCheck, some: bool, ttl: nat)
    requires LeastLifetime(checks, some, ttl)
    ensures forall status :: AnyWith(checks + [check], status) <==> AnyWith(checks, status) || check.status == status
    ensures if check.status != MxOk then LeastLifetime(checks + [check], some, ttl)
            else LeastLifetime(checks + [check], true, if !some || check.ttl < ttl then check.ttl else ttl)
  {
    var more := checks + [check];
    assert check in more && forall c :: c in checks ==> c in more;
  }

  /** What the address checks of all hosts amount to, whatever their order: an error if one
      failed, else exactly the reachable hosts, the least of their lifetimes, and a note
      whether some host had to be left out. */
  ghost predicate MxVerdict(o: MxOutcome, incomplete: bool, checks: seq<MxCheck>) {
    if AnyWith(checks, MxFail) then o == MxError
    else
      && o.MxHosts?
      && (forall h :: h in o.hosts <==> exists c :: c in checks && c.status == MxOk && c.host == h)
      && (o.incomplete <==> incomplete || AnyWith(checks, MxNotSec))
      && (forall c :: c in checks && c.status == MxOk ==> o.ttl <= c.ttl)
      && ((exists c :: c in checks && c.status == MxOk && c.ttl == o.ttl) || (o.hosts == [] && o.ttl == 0))
  }

  lemma ReachedVerdict(checks: seq<MxCheck>, incomplete: bool, some: bool, ttl: nat)
    requires LeastLifetime(checks, some, ttl) && !AnyWith(checks, MxFail)
    ensures MxVerdict(MxHosts(ReachableHosts(checks), ttl, incomplete || AnyWith(checks, MxNotSec)), incomplete, checks)
  {
    ReachableHostsMeans(checks);
    var hosts := ReachableHosts(checks);
    assert hosts != [] ==> hosts[0] in hosts;
  }

  /** The fold at internal/dane.go:51-79, over the checks in order of arrival; `cancelled`
      says that the surrounding context has ended. */
  method CollectMxHosts(checks: seq<MxCheck>, incomplete: bool, cancelled: bool) returns (o: MxOutcome)
    ensures cancelled ==> o == MxError
    ensures !cancelled ==> MxVerdict(o, incomplete, checks)
    ensures o.MxHosts? ==> o.hosts == ReachableHosts(checks)
  {
    var failed := false;
    var hosts: seq<string> := [];
    var minTTL := 0;
    var haveTTL := false;
    var incompl := incomplete;
    for i := 0 to |checks|
      invariant failed <==> AnyWith(checks[..i], MxFail)
      invariant hosts == ReachableHosts(checks[..i])
      invariant incompl <==> incomplete || AnyWith(checks[..i], MxNotSec)
      invariant LeastLifetime(checks[..i], haveTTL, minTTL)
    {
      var check := checks[i];
      assert checks[..i + 1] == checks[..i] + [check] && checks[..i + 1][..i] == checks[..i];
      OneMoreCheck(checks[..i], check, haveTTL, minTTL);
      match check.status {
        case MxOk =>
          hosts := hosts + [check.host];
          if !haveTTL || check.ttl < minTTL {
            minTTL := check.ttl;
            haveTTL := true;
          }
        case MxFail => failed := true;
        case MxNotSec => incompl := true;
      }
    }
    assert checks[..|checks|] == checks;
    if failed || cancelled {
      return MxError;
    }
    ReachedVerdict(checks, incomplete, haveTTL, minTTL);
    return MxHosts(hosts, minTTL, incompl);
  }

  /** Pool and fold together: once the results are closed, the fold is the verdict on all hosts,
      unless the surrounding context ended, which is an error. The pool is cancelled only by
      that context or by the fold itself when it has seen a failed check. */
  method EvaluateMxArrivals(
    checks: seq<MxCheck>, incomplete: bool, contextEnded: bool, sent: seq<nat>,
    ghost states: seq<WorkerPool.State>, ghost steps: seq<WorkerPool.Step>, ghost n: nat)
    returns (o: MxOutcome)
    requires WorkerPool.Run(states, steps) && n < |states| && states[0].hosts == |checks| && states[n].sent == sent
    requires states[n].resultsClosed
    requires states[n].cancelled ==> contextEnded || exists j :: j in sent && j < |checks| && checks[j].status == MxFail
    ensures contextEnded ==> o == MxError
    ensures !contextEnded ==> MxVerdict(o, incomplete, checks)
  {
    WorkerPool.FullCountIsComplete(states, steps, n);
    var arrivals := Arrivals(checks, sent);
    o := CollectMxHosts(arrivals, incomplete, contextEnded);
    if !contextEnded {
      if states[n].cancelled {
        var j :| j in sent && j < |checks| && checks[j].status == MxFail;
        var i :| 0 <= i < |sent| && sent[i] == j;
        assert arrivals[i] in arrivals && checks[j] in checks;
      } else {
        WorkerPool.EachHostOnce(states, steps, n);
        ArrivalsOfAll(checks, sent);
        MxVerdictOfSame(o, incomplete, arrivals, checks);
      }
    }
  }

  lemma MxVerdictOfSame(o: MxOutcome, incomplete: bool, cs1: seq<MxCheck>, cs2: seq<MxCheck>)
    requires forall c :: c in cs1 <==> c in cs2
    requires MxVerdict(o, incomplete, cs1)
    ensures MxVerdict(o, incomplete, cs2)
  {
  }

  /** Two orders of arrival give the same error, the same set of hosts, lifetime and note. */
  lemma MxVerdictIgnoresOrder(o1: MxOutcome, o2: MxOutcome, incomplete: bool, cs1: seq<MxCheck>, cs2: seq<MxCheck>)
    requires forall c :: c in cs1 <==> c in cs2
    requires MxVerdict(o1, incomplete, cs1) && MxVerdict(o2, incomplete, cs2)
    ensures o1.MxError? <==> o2.MxError?
    ensures o1.MxHosts? ==> o1.ttl == o2.ttl && o1.incomplete == o2.incomplete && forall h :: h in o1.hosts <==> h in o2.hosts
  {
    if o1.MxHosts? {
      assert forall h :: h in o1.hosts <==> h in o2.hosts;
      if c :| c in cs1 && c.status == MxOk {
        assert c.host in o1.hosts;
      }
    }
  }

  // ---------- the TLSA answer of one host ----------

  datatype Answer = Tlsa(usable: bool, ttl: nat) | Other

  /** A DNS exchange: an error, or a reply with its response code, authenticity and answers. */
  datatype Exchange = Lost | Reply(completed: bool, authenticated: bool, answers: seq<Answer>)

  ghost predicate Usable(a: Answer) { a.Tlsa? && a.usable }

  ghost predicate IsFirstUsable(answers: seq<Answer>, i: int) {
    0 <= i < |answers| && Usable(answers[i]) && forall k :: 0 <= k < i ==> !Usable(answers[k])
  }

  /** internal/dane.go:373-411, where `completed` stands for NOERROR and NXDOMAIN. */
  method CheckTlsa(x: Exchange) returns (r: TlsaResult)
    ensures r.failed <==> x.Lost? || !x.completed
    ensures r.result == "dane-only" <==>
              x.Reply? && x.completed && x.authenticated && exists i :: 0 <= i < |x.answers| && Usable(x.answers[i])
    ensures r.result == "dane" <==>
              && x.Reply? && x.completed && x.authenticated
              && (forall i :: 0 <= i < |x.answers| ==> !Usable(x.answers[i]))
              && exists i :: 0 <= i < |x.answers| && x.answers[i].Tlsa?
    ensures r.result == "dane" ==> forall i :: 0 <= i < |x.answers| && x.answers[i].Tlsa? ==> r.ttl <= x.answers[i].ttl
    ensures r.result == "dane" ==> exists i :: 0 <= i < |x.answers| && x.answers[i].Tlsa? && x.answers[i].ttl == r.ttl
    ensures r.result == "dane-only" ==> exists i :: IsFirstUsable(x.answers, i) && x.answers[i].ttl == r.ttl
    ensures r.result !in ["dane", "dane-only"] ==> r.result == "" && r.ttl == 0
  {
    if x.Lost? || !x.completed {
      return TlsaResult(true, "", 0);
    }
    if !x.authenticated || |x.answers| == 0 {
      return TlsaResult(false, "", 0);
    }
    var result := "";
    var minTTL := 0;
    var haveTTL := false;
    for i := 0 to |x.answers|
      invariant forall k :: 0 <= k < i ==> !Usable(x.answers[k])
      invariant forall k :: 0 <= k < i && x.answers[k].Tlsa? ==> haveTTL && minTTL <= x.answers[k].ttl
      invariant haveTTL ==> exists k :: 0 <= k < i && x.answers[k].Tlsa? && x.answers[k].ttl == minTTL
      invariant result == if haveTTL then "dane" else ""
      invariant !haveTTL ==> minTTL == 0
    {
      if x.answers[i].Tlsa? {
        if x.answers[i].usable {
          assert IsFirstUsable(x.answers, i);
          return TlsaResult(false, "dane-only", x.answers[i].ttl);
        } else {
          result := "dane";
          if !haveTTL || x.answers[i].ttl < minTTL {
            minTTL := x.answers[i].ttl;
            haveTTL := true;
          }
        }
      }
    }
    return TlsaResult(false, result, minTTL);
  }
}
