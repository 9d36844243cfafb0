/**
 Resolving the MX hosts of a domain through aliases (internal/dane.go:82-210). A reply may
 carry a chain of CNAME records; if it ends without MX records, the lookup starts over at
 the end of the chain, with the hops made so far counted against one budget of eight.

 The resolver is an arbitrary function of the number of the query and the name asked, so
 the results hold for every resolver behaviour, including one that changes its answers.
 */
module MxLookup {
  import opened Options
  import opened Text

  const MAX_DEPTH: nat := 8

  datatype Record =
    | Cname(owner: string, target: string, ttl: nat)
    | Mx(owner: string, exchange: string, ttl: nat)
    | Other

  datatype Rcode = NoError | NxDomain | OtherCode

  datatype Soa = Soa(ttl: nat, minimum: nat)

  datatype Reply = Lost | Reply(rcode: Rcode, authenticated: bool, answers: seq<Record>, authority: seq<Soa>)

  type Resolver = (nat, string) -> Reply

  datatype MxHost = MxHost(host: string, ttl: nat)

  datatype Result = Error | Found(hosts: seq<MxHost>, incomplete: bool)

  function Min(a: nat, b: nat): nat { if a < b then a else b }

  // ---------- one reply ----------

  datatype Hop = Hop(target: string, ttl: nat)

  /** How names are compared: the canonical form of alias owners and targets and of the name
      asked, the form under which MX owners match, the key of an MX host, the absolute form
      of a name, and which alias targets are acceptable. */
  datatype Naming = Naming(
    canonical: string -> string,
    start: string -> string,
    folded: string -> string,
    key: string -> string,
    absolute: string -> string,
    valid: string -> bool)

  /** The rules of the program, with the name check as a parameter. */
  function DnsNaming(valid: string -> bool): Naming {
    Naming(
      (name: string) => Lower(Fqdn(TrimSpace(name))),
      (name: string) => Lower(Fqdn(name)),
      (name: string) => Lower(name),
      (name: string) => TrimDot(Lower(TrimSpace(name))),
      (name: string) => Fqdn(name),
      valid)
  }

  /** Under these rules a host is recorded in its absolute form. */
  lemma HostIsAbsolute(valid: string -> bool, exchange: string)
    ensures DnsNaming(valid).key(exchange) + "." == Fqdn(Lower(TrimSpace(exchange)))
  {
    FqdnOfTrimmed(Lower(TrimSpace(exchange)));
  }

  /** The aliases of a reply by owner; none if two records of one owner disagree. */
  function Hops(rules: Naming, answers: seq<Record>): Option<map<string, Hop>> {
    if answers == [] then Some(map[])
    else
      var last := answers[|answers| - 1];
      match Hops(rules, answers[..|answers| - 1])
      case None => None
      case Some(hops) =>
        if !last.Cname? then Some(hops)
        else
          var owner, target := rules.canonical(last.owner), rules.canonical(last.target);
          if owner in hops && hops[owner].target != target then None
          else Some(hops[owner := Hop(target, last.ttl)])
  }

  /** Where following an alias chain ends, with the lifetimes of the hops made until then. */
  datatype Chase = Stopped(path: seq<nat>) | Reached(owner: string, path: seq<nat>)

  function Follow(hops: map<string, Hop>, rules: Naming, owner: string, seen: set<string>, path: seq<nat>, depth: nat): Chase
    requires depth + |path| <= MAX_DEPTH
    decreases MAX_DEPTH - depth - |path|
  {
    if owner !in hops then Reached(owner, path)
    else if owner in seen then Stopped(path)
    else if depth + |path| + 1 > MAX_DEPTH then Stopped(path)
    else if !rules.valid(hops[owner].target) then Stopped(path)
    else Follow(hops, rules, hops[owner].target, seen + {owner}, path + [hops[owner].ttl], depth)
  }

  predicate Matches(rules: Naming, r: Record, owner: string) {
    r.Mx? && rules.folded(r.owner) == rules.folded(owner)
  }

  function IndexOfHost(hosts: seq<MxHost>, host: string): nat {
    if hosts == [] || hosts[0].host == host then 0 else IndexOfHost(hosts[1..], host) + 1
  }

  lemma {:induction false} IndexOfHostMeans(hosts: seq<MxHost>, host: string)
    ensures var i := IndexOfHost(hosts, host);
            && i <= |hosts|
            && (i < |hosts| ==> hosts[i].host == host)
            && forall k :: 0 <= k < i ==> hosts[k].host != host
  {
    if hosts != [] && hosts[0].host != host {
      var rest := hosts[1..];
      IndexOfHostMeans(rest, host);
      assert forall k :: 1 <= k < |hosts| ==> hosts[k] == rest[k - 1];
    }
  }

  function AddHost(hosts: seq<MxHost>, host: string, ttl: nat): seq<MxHost> {
    var i := IndexOfHost(hosts, host);
    if i < |hosts| then hosts[i := MxHost(host, Min(hosts[i].ttl, ttl))] else hosts + [MxHost(host, ttl)]
  }

  /** The MX hosts recorded at `owner`, each once with its least lifetime. */
  function MxHosts(rules: Naming, answers: seq<Record>, owner: string): seq<MxHost> {
    if answers == [] then []
    else
      var last, before := answers[|answers| - 1], MxHosts(rules, answers[..|answers| - 1], owner);
      if Matches(rules, last, owner) then AddHost(before, rules.key(last.exchange) + ".", last.ttl) else before
  }

  /** Section 5 of RFC 2308: the least of the SOA lifetimes and minimums; 0 without an SOA. */
  ghost predicate IsNegativeTTL(t: nat, authority: seq<Soa>) {
    if authority == [] then t == 0
    else
      && (forall s :: s in authority ==> t <= s.ttl && t <= s.minimum)
      && exists s :: s in authority && (t == s.ttl || t == s.minimum)
  }

  function NegativeTTL(authority: seq<Soa>): nat {
    if authority == [] then 0
    else
      var last, rest := authority[|authority| - 1], authority[..|authority| - 1];
      var own := Min(last.ttl, last.minimum);
      if rest == [] then own else Min(own, NegativeTTL(rest))
  }

  lemma {:induction false} NegativeTTLMeans(authority: seq<Soa>)
    ensures IsNegativeTTL(NegativeTTL(authority), authority)
  {
    if authority != [] {
      var last, rest := authority[|authority| - 1], authority[..|authority| - 1];
      NegativeTTLMeans(rest);
      assert authority == rest + [last];
      NegativeOfOneMore(rest, last);
    }
  }

  lemma NegativeOfOneMore(rest: seq<Soa>, last: Soa)
    requires IsNegativeTTL(NegativeTTL(rest), rest)
    ensures IsNegativeTTL(NegativeTTL(rest + [last]), rest + [last])
  {
  }

  /** No host lives longer than the shortest-lived hop. */
  function CapHosts(hosts: seq<MxHost>, path: seq<nat>): seq<MxHost> {
    if path == [] then hosts else CapTo(hosts, Least(path))
  }

  function CapTo(hosts: seq<MxHost>, ttl: nat): seq<MxHost> {
    if hosts == [] then []
    else
      var n := |hosts| - 1;
      CapTo(hosts[..n], ttl) + [hosts[n].(ttl := Min(hosts[n].ttl, ttl))]
  }

  lemma {:induction false} CapToMeans(hosts: seq<MxHost>, ttl: nat)
    ensures |CapTo(hosts, ttl)| == |hosts|
    ensures forall i :: 0 <= i < |hosts| ==> CapTo(hosts, ttl)[i] == hosts[i].(ttl := Min(hosts[i].ttl, ttl))
  {
    if hosts != [] {
      CapToMeans(hosts[..|hosts| - 1], ttl);
    }
  }

  function Least(path: seq<nat>): nat
    requires path != []
  {
    if |path| == 1 then path[0] else Min(Least(path[..|path| - 1]), path[|path| - 1])
  }

  lemma {:induction false} LeastMeans(path: seq<nat>)
    requires path != []
    ensures Least(path) in path && forall k :: 0 <= k < |path| ==> Least(path) <= path[k]
  {
    if |path| > 1 {
      var rest := path[..|path| - 1];
      LeastMeans(rest);
      assert path == rest + [path[|path| - 1]];
    }
  }

  // ---------- the lookup ----------

  /** What one reply leads to. */
  datatype Verdict = Done(result: Result) | Continue(owner: string, path: seq<nat>)

  function Judge(reply: Reply, rules: Naming, domain: string, depth: nat): (v: Verdict)
    requires depth <= MAX_DEPTH
    ensures v.Continue? ==> reply.Reply? && v.path != [] && depth + |v.path| <= MAX_DEPTH
  {
    if reply.Lost? then Done(Error)
    else if reply.rcode.NxDomain? then Done(Found([], !reply.authenticated))
    else if reply.rcode.OtherCode? then Done(Error)
    else
      match Hops(rules, reply.answers)
      case None => Done(Error)
      case Some(hops) =>
        FollowWithinBudget(hops, rules, rules.start(domain), {}, [], depth);
        match Follow(hops, rules, rules.start(domain), {}, [], depth)
        case Stopped(_) => Done(Error)
        case Reached(owner, path) =>
          var hosts := MxHosts(rules, reply.answers, owner);
          if hosts != [] then Done(Found(CapHosts(hosts, path), !reply.authenticated))
          else if path != [] then Continue(owner, path)
          else if !reply.authenticated then Done(Found([], true))
          else Done(Found([MxHost(rules.absolute(domain), NegativeTTL(reply.authority))], false))
  }

  lemma {:induction false} FollowWithinBudget(
    hops: map<string, Hop>, rules: Naming, owner: string, seen: set<string>, path: seq<nat>, depth: nat)
    requires depth + |path| <= MAX_DEPTH
    ensures var c := Follow(hops, rules, owner, seen, path, depth);
            depth + |c.path| <= MAX_DEPTH && path <= c.path
    decreases MAX_DEPTH - depth - |path|
  {
    if owner in hops && owner !in seen && depth + |path| + 1 <= MAX_DEPTH && rules.valid(hops[owner].target) {
      FollowWithinBudget(hops, rules, hops[owner].target, seen + {owner}, path + [hops[owner].ttl], depth);
    }
  }

  /** The result together with the names asked, the replies got, and the lifetimes of all
      alias hops made. */
  datatype Trace = Trace(result: Result, asked: seq<string>, replies: seq<Reply>, path: seq<nat>)

  function Lookup(resolver: Resolver, rules: Naming, n: nat, domain: string, depth: nat): Trace
    requires depth <= MAX_DEPTH
    decreases MAX_DEPTH - depth
  {
    var reply := resolver(n, domain);
    match Judge(reply, rules, domain, depth)
    case Done(result) => Settle(reply, domain, result, HopsMade(reply, rules, domain, depth))
    case Continue(owner, path) =>
      Extend(reply, domain, path, Lookup(resolver, rules, n + 1, owner, depth + |path|))
  }

  /** A lookup that went on from `reply` over the hops `path`. */
  function Extend(reply: Reply, domain: string, path: seq<nat>, t: Trace): Trace
    requires reply.Reply? && path != []
  {
    Trace(PassedOn(t.result, reply.authenticated, Least(path)), [domain] + t.asked, [reply] + t.replies, path + t.path)
  }

  /** The result of a lookup further on, as seen from before the hops. */
  function PassedOn(child: Result, authenticated: bool, ttl: nat): Result {
    match child
    case Error => Error
    case Found(hosts, incomplete) => Found(CapTo(hosts, ttl), !authenticated || incomplete)
  }

  /** The hops made inside a reply that ends the lookup, also when they end in an error. */
  function HopsMade(reply: Reply, rules: Naming, domain: string, depth: nat): seq<nat>
    requires depth <= MAX_DEPTH
  {
    if reply.Lost? || !reply.rcode.NoError? || Hops(rules, reply.answers).None? then []
    else Follow(Hops(rules, reply.answers).value, rules, rules.start(domain), {}, [], depth).path
  }

  // ---------- properties for every resolver ----------

  ghost predicate DistinctHosts(hosts: seq<MxHost>) {
    forall i, j :: 0 <= i < j < |hosts| ==> hosts[i].host != hosts[j].host
  }

  lemma AddHostDistinct(hosts: seq<MxHost>, host: string, ttl: nat)
    requires DistinctHosts(hosts)
    ensures DistinctHosts(AddHost(hosts, host, ttl))
  {
    IndexOfHostMeans(hosts, host);
  }

  ghost predicate Covers(rules: Naming, hosts: seq<MxHost>, r: Record)
    requires r.Mx?
  {
    exists k :: 0 <= k < |hosts| && hosts[k].host == rules.key(r.exchange) + "." && hosts[k].ttl <= r.ttl
  }

  ghost predicate Backed(rules: Naming, h: MxHost, answers: seq<Record>, owner: string) {
    exists r :: r in answers && Matches(rules, r, owner) && h.host == rules.key(r.exchange) + "." && h.ttl == r.ttl
  }

  /** Each host once, with a lifetime that is the least over its records. */
  ghost predicate CollectedFrom(rules: Naming, hosts: seq<MxHost>, answers: seq<Record>, owner: string) {
    && DistinctHosts(hosts)
    && (forall r :: r in answers && Matches(rules, r, owner) ==> Covers(rules, hosts, r))
    && (forall k :: 0 <= k < |hosts| ==> Backed(rules, hosts[k], answers, owner))
  }

  /** The MX hosts of a reply are exactly the exchanges of the MX records at the owner. */
  lemma {:induction false} MxHostsCollected(rules: Naming, answers: seq<Record>, owner: string)
    ensures CollectedFrom(rules, MxHosts(rules, answers, owner), answers, owner)
  {
    if answers != [] {
      var last, rest := answers[|answers| - 1], answers[..|answers| - 1];
      MxHostsCollected(rules, rest, owner);
      assert answers == rest + [last];
      var hosts := MxHosts(rules, rest, owner);
      if Matches(rules, last, owner) {
        AddHostDistinct(hosts, rules.key(last.exchange) + ".", last.ttl);
        AddHostCovers(rules, hosts, rest, owner, last);
        AddHostBacked(rules, hosts, rest, owner, last);
      } else {
        forall k | 0 <= k < |hosts| ensures Backed(rules, hosts[k], answers, owner) {
          assert Backed(rules, hosts[k], rest, owner);
        }
      }
    }
  }

  lemma AddHostCovers(rules: Naming, hosts: seq<MxHost>, rest: seq<Record>, owner: string, last: Record)
    requires CollectedFrom(rules, hosts, rest, owner) && Matches(rules, last, owner)
    ensures var added := AddHost(hosts, rules.key(last.exchange) + ".", last.ttl);
            forall r :: r in rest + [last] && Matches(rules, r, owner) ==> Covers(rules, added, r)
  {
    var host := rules.key(last.exchange) + ".";
    var i := IndexOfHost(hosts, host);
    IndexOfHostMeans(hosts, host);
    var added := AddHost(hosts, host, last.ttl);
    forall r | r in rest + [last] && Matches(rules, r, owner) ensures Covers(rules, added, r) {
      if r == last {
        assert added[i].host == host && added[i].ttl <= r.ttl;
      } else {
        assert Covers(rules, hosts, r);
        var k :| 0 <= k < |hosts| && hosts[k].host == rules.key(r.exchange) + "." && hosts[k].ttl <= r.ttl;
        assert added[k].host == hosts[k].host && added[k].ttl <= hosts[k].ttl;
      }
    }
  }

  lemma AddHostBacked(rules: Naming, hosts: seq<MxHost>, rest: seq<Record>, owner: string, last: Record)
    requires CollectedFrom(rules, hosts, rest, owner) && Matches(rules, last, owner)
    ensures var added := AddHost(hosts, rules.key(last.exchange) + ".", last.ttl);
            forall k :: 0 <= k < |added| ==> Backed(rules, added[k], rest + [last], owner)
  {
    var host := rules.key(last.exchange) + ".";
    var i := IndexOfHost(hosts, host);
    IndexOfHostMeans(hosts, host);
    var added := AddHost(hosts, host, last.ttl);
    forall k | 0 <= k < |added| ensures Backed(rules, added[k], rest + [last], owner) {
      if k < |hosts| && added[k] == hosts[k] {
        assert Backed(rules, hosts[k], rest, owner);
      } else {
        assert last in rest + [last];
        assert added[k] == MxHost(host, last.ttl);
      }
    }
  }

  /** Every hop's lifetime bounds every host's. */
  ghost predicate Bounded(hosts: seq<MxHost>, path: seq<nat>) {
    forall i, k :: 0 <= i < |hosts| && 0 <= k < |path| ==> hosts[i].ttl <= path[k]
  }

  lemma CapBounds(hosts: seq<MxHost>, path: seq<nat>, inner: seq<nat>)
    requires DistinctHosts(hosts) && Bounded(hosts, inner)
    ensures DistinctHosts(CapHosts(hosts, path)) && Bounded(CapHosts(hosts, path), path + inner)
  {
    if path != [] {
      LeastMeans(path);
      CapToMeans(hosts, Least(path));
    }
  }

  ghost predicate AllAuthenticated(replies: seq<Reply>) {
    forall i :: 0 <= i < |replies| ==> replies[i].Reply? && replies[i].authenticated
  }

  /** The hops of a trace fit the budget left at `depth`, and no query is made without one. */
  ghost predicate Budgeted(t: Trace, domain: string, depth: nat) {
    && depth + |t.path| <= MAX_DEPTH
    && 1 <= |t.asked| == |t.replies| <= 1 + MAX_DEPTH - depth
    && t.asked[0] == domain
  }

  lemma ExtendIsBudgeted(reply: Reply, domain: string, path: seq<nat>, t: Trace, owner: string, depth: nat)
    requires reply.Reply? && path != [] && Budgeted(t, owner, depth + |path|)
    ensures Budgeted(Extend(reply, domain, path, t), domain, depth)
  {
  }

  /** The replies of a trace are what the resolver said to the names asked, from query `n` on. */
  ghost predicate Genuine(resolver: Resolver, n: nat, t: Trace) {
    |t.asked| == |t.replies| && forall i :: 0 <= i < |t.asked| ==> t.replies[i] == resolver(n + i, t.asked[i])
  }

  ghost predicate SoundTrace(t: Trace) {
    t.result.Found? ==>
      && DistinctHosts(t.result.hosts)
      && Bounded(t.result.hosts, t.path)
      && (!t.result.incomplete ==> AllAuthenticated(t.replies))
  }

  lemma ExtendIsSound(reply: Reply, domain: string, path: seq<nat>, t: Trace)
    requires reply.Reply? && path != [] && SoundTrace(t)
    ensures SoundTrace(Extend(reply, domain, path, t))
  {
    if t.result.Found? {
      CapBounds(t.result.hosts, path, t.path);
    }
  }

  lemma ExtendIsGenuine(resolver: Resolver, n: nat, domain: string, path: seq<nat>, t: Trace)
    requires resolver(n, domain).Reply? && path != [] && Genuine(resolver, n + 1, t)
    ensures Genuine(resolver, n, Extend(resolver(n, domain), domain, path, t))
  {
  }

  /** A trace that ends with its first reply. */
  function Settle(reply: Reply, domain: string, result: Result, hops: seq<nat>): Trace {
    Trace(result, [domain], [reply], hops)
  }

  lemma SettleIsSound(resolver: Resolver, rules: Naming, n: nat, domain: string, depth: nat, result: Result)
    requires depth <= MAX_DEPTH && Judge(resolver(n, domain), rules, domain, depth) == Done(result)
    ensures var t := Settle(resolver(n, domain), domain, result, HopsMade(resolver(n, domain), rules, domain, depth));
            SoundTrace(t) && Genuine(resolver, n, t) && Budgeted(t, domain, depth)
  {
    JudgeIsSound(resolver(n, domain), rules, domain, depth);
  }

  lemma {:induction false} SoundLookup(resolver: Resolver, rules: Naming, n: nat, domain: string, depth: nat) returns (t: Trace)
    requires depth <= MAX_DEPTH
    ensures t == Lookup(resolver, rules, n, domain, depth)
    ensures SoundTrace(t) && Genuine(resolver, n, t) && Budgeted(t, domain, depth)
    decreases MAX_DEPTH - depth
  {
    var reply := resolver(n, domain);
    match Judge(reply, rules, domain, depth)
    case Done(result) =>
      t := Settle(reply, domain, result, HopsMade(reply, rules, domain, depth));
      SettleIsSound(resolver, rules, n, domain, depth, result);
    case Continue(owner, path) =>
      var rest := SoundLookup(resolver, rules, n + 1, owner, depth + |path|);
      t := Extend(reply, domain, path, rest);
      ExtendIsSound(reply, domain, path, rest);
      ExtendIsBudgeted(reply, domain, path, rest, owner, depth);
      ExtendIsGenuine(resolver, n, domain, path, rest);
  }

  /** For every resolver behaviour: at most eight alias hops and nine queries in all; the
      replies are the resolver's own; the hosts found are pairwise distinct and none outlives
      a hop; and a result marked complete rests on authenticated replies only. */
  lemma LookupIsSound(resolver: Resolver, rules: Naming, domain: string)
    ensures var t := Lookup(resolver, rules, 0, domain, 0);
            && |t.path| <= 8
            && 1 <= |t.asked| == |t.replies| <= 9
            && t.asked[0] == domain
            && Genuine(resolver, 0, t)
            && (t.result.Found? ==>
                  && DistinctHosts(t.result.hosts)
                  && Bounded(t.result.hosts, t.path)
                  && (!t.result.incomplete ==> AllAuthenticated(t.replies)))
  {
    var t := SoundLookup(resolver, rules, 0, domain, 0);
  }

  lemma CappedHostsSound(rules: Naming, answers: seq<Record>, owner: string, path: seq<nat>)
    ensures var hosts := CapHosts(MxHosts(rules, answers, owner), path); DistinctHosts(hosts) && Bounded(hosts, path)
  {
    MxHostsCollected(rules, answers, owner);
    CapBounds(MxHosts(rules, answers, owner), path, []);
    assert path + [] == path;
  }

  lemma JudgeIsSound(reply: Reply, rules: Naming, domain: string, depth: nat)
    requires depth <= MAX_DEPTH
    ensures var v := Judge(reply, rules, domain, depth);
            && (v.Done? ==> depth + |HopsMade(reply, rules, domain, depth)| <= MAX_DEPTH)
            && (v.Done? && v.result.Found? ==>
                  && reply.Reply?
                  && DistinctHosts(v.result.hosts)
                  && Bounded(v.result.hosts, HopsMade(reply, rules, domain, depth))
                  && v.result.incomplete == !reply.authenticated)
            && (v.Continue? ==> reply.Reply?)
  {
    if reply.Reply? && reply.rcode.NoError? && Hops(rules, reply.answers).Some? {
      var hops := Hops(rules, reply.answers).value;
      FollowWithinBudget(hops, rules, rules.start(domain), {}, [], depth);
      var c := Follow(hops, rules, rules.start(domain), {}, [], depth);
      if c.Reached? {
        CappedHostsSound(rules, reply.answers, c.owner, c.path);
      }
    }
  }

  // ---------- where the hosts come from ----------

  /** `hosts` is what a reply for `name` offers, with no lifetime above one of `path`: the MX
      records at the end of its alias chain or, if there are none, the name itself. The latter
      is the implicit MX of section 2.2.2 of RFC 7672, which needs an authenticated NOERROR
      reply without aliases for that name. */
  ghost predicate Offered(rules: Naming, reply: Reply, name: string, hosts: seq<MxHost>, path: seq<nat>) {
    && reply.Reply? && reply.rcode.NoError? && Hops(rules, reply.answers).Some?
    && var hops := Hops(rules, reply.answers).value;
       var end := Follow(hops, rules, rules.start(name), {}, [], 0);
       && end.Reached?
       && var found := MxHosts(rules, reply.answers, end.owner);
          if found != [] then hosts == CapHosts(found, path)
          else
            && reply.authenticated && rules.start(name) !in hops
            && hosts == CapHosts([MxHost(rules.absolute(name), NegativeTTL(reply.authority))], path)
  }

  /** The hosts are what the last reply offers for the name last asked, and each lives exactly
      as long as its record and all hops of the lookup allow. */
  ghost predicate FromLastReply(rules: Naming, t: Trace) {
    t.result.Found? && t.result.hosts != [] && t.asked != [] && t.replies != [] ==>
      Offered(rules, t.replies[|t.replies| - 1], t.asked[|t.asked| - 1], t.result.hosts, t.path)
  }

  lemma LeastOfBoth(path: seq<nat>, inner: seq<nat>)
    requires path != [] && inner != []
    ensures Least(path + inner) == Min(Least(path), Least(inner))
  {
    var all := path + inner;
    LeastMeans(path);
    LeastMeans(inner);
    LeastMeans(all);
    assert forall k :: 0 <= k < |path| ==> all[k] == path[k];
    assert forall k :: 0 <= k < |inner| ==> all[|path| + k] == inner[k];
  }

  /** Capping to the inner hops and then to the outer ones is capping to all of them. */
  lemma CapTwice(hosts: seq<MxHost>, path: seq<nat>, inner: seq<nat>)
    requires path != []
    ensures CapTo(CapHosts(hosts, inner), Least(path)) == CapHosts(hosts, path + inner)
  {
    if inner == [] {
      assert path + inner == path;
    } else {
      LeastOfBoth(path, inner);
      CapToMeans(hosts, Least(inner));
      CapToMeans(CapTo(hosts, Least(inner)), Least(path));
      CapToMeans(hosts, Least(path + inner));
    }
  }

  /** A chain that ends within the budget left ends the same way with all of it. */
  lemma {:induction false} ReachedFromStart(
    hops: map<string, Hop>, rules: Naming, owner: string, seen: set<string>, path: seq<nat>, depth: nat)
    requires depth + |path| <= MAX_DEPTH && Follow(hops, rules, owner, seen, path, depth).Reached?
    ensures Follow(hops, rules, owner, seen, path, 0) == Follow(hops, rules, owner, seen, path, depth)
    decreases MAX_DEPTH - depth - |path|
  {
    if owner in hops {
      ReachedFromStart(hops, rules, hops[owner].target, seen + {owner}, path + [hops[owner].ttl], depth);
    }
  }

  lemma SettleFromLastReply(reply: Reply, rules: Naming, domain: string, depth: nat, result: Result)
    requires depth <= MAX_DEPTH && Judge(reply, rules, domain, depth) == Done(result)
    ensures FromLastReply(rules, Settle(reply, domain, result, HopsMade(reply, rules, domain, depth)))
  {
    if result.Found? && result.hosts != [] {
      var start, hops := rules.start(domain), Hops(rules, reply.answers).value;
      ReachedFromStart(hops, rules, start, {}, [], depth);
      NoHopStays(hops, rules, start, {}, [], depth);
    }
  }

  lemma {:induction false} NoHopStays(
    hops: map<string, Hop>, rules: Naming, owner: string, seen: set<string>, path: seq<nat>, depth: nat)
    requires depth + |path| <= MAX_DEPTH
    ensures var c := Follow(hops, rules, owner, seen, path, depth);
            c.Reached? && c.path == path ==> c.owner == owner && owner !in hops
  {
    if owner in hops && owner !in seen && depth + |path| + 1 <= MAX_DEPTH && rules.valid(hops[owner].target) {
      FollowWithinBudget(hops, rules, hops[owner].target, seen + {owner}, path + [hops[owner].ttl], depth);
    }
  }

  lemma OfferedFurther(rules: Naming, reply: Reply, name: string, hosts: seq<MxHost>, inner: seq<nat>, path: seq<nat>)
    requires path != [] && Offered(rules, reply, name, hosts, inner)
    ensures Offered(rules, reply, name, CapTo(hosts, Least(path)), path + inner)
  {
    var end := Follow(Hops(rules, reply.answers).value, rules, rules.start(name), {}, [], 0);
    CapTwice(MxHosts(rules, reply.answers, end.owner), path, inner);
    CapTwice([MxHost(rules.absolute(name), NegativeTTL(reply.authority))], path, inner);
  }

  lemma ExtendFromLastReply(rules: Naming, reply: Reply, domain: string, path: seq<nat>, t: Trace)
    requires reply.Reply? && path != [] && FromLastReply(rules, t) && t.asked != [] && t.replies != []
    ensures FromLastReply(rules, Extend(reply, domain, path, t))
  {
    var whole := Extend(reply, domain, path, t);
    if t.result.Found? {
      if t.result.hosts != [] {
        var last, name := t.replies[|t.replies| - 1], t.asked[|t.asked| - 1];
        OfferedFurther(rules, last, name, t.result.hosts, t.path, path);
      }
      assert whole.replies[|whole.replies| - 1] == t.replies[|t.replies| - 1];
      assert whole.asked[|whole.asked| - 1] == t.asked[|t.asked| - 1];
    }
  }

  /** Every host a lookup returns comes from the last reply, explicitly or as implicit MX. */
  lemma {:induction false} HostsFromLastReply(resolver: Resolver, rules: Naming, n: nat, domain: string, depth: nat)
    returns (t: Trace)
    requires depth <= MAX_DEPTH
    ensures t == Lookup(resolver, rules, n, domain, depth)
    ensures t.asked != [] && t.replies != [] && FromLastReply(rules, t)
    decreases MAX_DEPTH - depth
  {
    var reply := resolver(n, domain);
    match Judge(reply, rules, domain, depth)
    case Done(result) =>
      t := Settle(reply, domain, result, HopsMade(reply, rules, domain, depth));
      SettleFromLastReply(reply, rules, domain, depth, result);
    case Continue(owner, path) =>
      var rest := HostsFromLastReply(resolver, rules, n + 1, owner, depth + |path|);
      t := Extend(reply, domain, path, rest);
      ExtendFromLastReply(rules, reply, domain, path, rest);
  }

  // ---------- the loops ----------

  lemma {:induction false} ConflictPersists(rules: Naming, answers: seq<Record>, i: nat)
    requires i <= |answers| && Hops(rules, answers[..i]).None?
    ensures Hops(rules, answers).None?
  {
    if i < |answers| {
      var rest := answers[..|answers| - 1];
      assert rest[..i] == answers[..i];
      ConflictPersists(rules, rest, i);
    } else {
      assert answers[..i] == answers;
    }
  }

  method CollectHops(rules: Naming, answers: seq<Record>) returns (r: Option<map<string, Hop>>)
    ensures r == Hops(rules, answers)
  {
    var hops: map<string, Hop> := map[];
    for i := 0 to |answers|
      invariant Hops(rules, answers[..i]) == Some(hops)
    {
      assert answers[..i + 1][..i] == answers[..i];
      if answers[i].Cname? {
        var owner, target := rules.canonical(answers[i].owner), rules.canonical(answers[i].target);
        if owner in hops && hops[owner].target != target {
          ConflictPersists(rules, answers, i + 1);
          return None;
        }
        hops := hops[owner := Hop(target, answers[i].ttl)];
      }
    }
    assert answers[..|answers|] == answers;
    return Some(hops);
  }

  /** `cnameTTL` is the least lifetime on the way, if a hop was made. */
  method FollowAliases(hops: map<string, Hop>, rules: Naming, domain: string, depth: nat)
    returns (ok: bool, owner: string, made: nat, cnameTTL: nat)
    requires depth <= MAX_DEPTH
    ensures ok <==> Follow(hops, rules, rules.start(domain), {}, [], depth).Reached?
    ensures ok ==> var c := Follow(hops, rules, rules.start(domain), {}, [], depth);
              owner == c.owner && made == |c.path| && (made > 0 ==> cnameTTL == Least(c.path))
  {
    owner := rules.start(domain);
    var seen: set<string> := {};
    ghost var path := [];
    cnameTTL := 0;
    made := 0;
    var haveTTL := false;
    while owner in hops
      invariant made == |path| && depth + |path| <= MAX_DEPTH
      invariant haveTTL == (path != []) && (path != [] ==> cnameTTL == Least(path))
      invariant Follow(hops, rules, rules.start(domain), {}, [], depth) == Follow(hops, rules, owner, seen, path, depth)
      decreases MAX_DEPTH - |path|
    {
      var hop := hops[owner];
      if owner in seen {
        return false, owner, made, cnameTTL;
      }
      seen := seen + {owner};
      made := made + 1;
      if depth + made > MAX_DEPTH {
        return false, owner, made, cnameTTL;
      }
      if !rules.valid(hop.target) {
        return false, owner, made, cnameTTL;
      }
      if !haveTTL || hop.ttl < cnameTTL {
        cnameTTL := hop.ttl;
        haveTTL := true;
      }
      ghost var before := path;
      path := path + [hop.ttl];
      assert path[..|path| - 1] == before;
      owner := hop.target;
    }
    ok := true;
  }

  /** `seen` indexes the hosts by their keys, which are `keys`. */
  ghost predicate Indexed(hosts: seq<MxHost>, keys: seq<string>, seen: map<string, nat>) {
    && |hosts| == |keys|
    && (forall k :: 0 <= k < |keys| ==> hosts[k].host == keys[k] + "." && keys[k] in seen && seen[keys[k]] == k)
    && (forall key :: key in seen ==> seen[key] < |keys| && keys[seen[key]] == key)
  }

  lemma SeenIsIndex(hosts: seq<MxHost>, keys: seq<string>, seen: map<string, nat>, key: string)
    requires Indexed(hosts, keys, seen)
    ensures IndexOfHost(hosts, key + ".") == if key in seen then seen[key] else |hosts|
  {
    var i := IndexOfHost(hosts, key + ".");
    IndexOfHostMeans(hosts, key + ".");
    if i < |hosts| {
      assert (keys[i] + ".")[..|keys[i]|] == keys[i];
      assert (key + ".")[..|key|] == key;
      assert keys[i] == key;
    }
  }

  method CollectMx(rules: Naming, answers: seq<Record>, owner: string) returns (hosts: seq<MxHost>)
    ensures hosts == MxHosts(rules, answers, owner)
  {
    hosts := [];
    var seen: map<string, nat> := map[];
    ghost var keys: seq<string> := [];
    for i := 0 to |answers|
      invariant hosts == MxHosts(rules, answers[..i], owner)
      invariant Indexed(hosts, keys, seen)
    {
      assert answers[..i + 1][..i] == answers[..i];
      if Matches(rules, answers[i], owner) {
        var key := rules.key(answers[i].exchange);
        SeenIsIndex(hosts, keys, seen, key);
        if key in seen {
          var index := seen[key];
          if answers[i].ttl < hosts[index].ttl {
            hosts := hosts[index := MxHost(hosts[index].host, answers[i].ttl)];
          }
        } else {
          seen := seen[key := |hosts|];
          keys := keys + [key];
          hosts := hosts + [MxHost(key + ".", answers[i].ttl)];
        }
      }
    }
    assert answers[..|answers|] == answers;
  }

  method NegativeResponseTTL(authority: seq<Soa>) returns (ttl: nat)
    ensures ttl == NegativeTTL(authority)
  {
    ttl := 0;
    var haveTTL := false;
    for i := 0 to |authority|
      invariant haveTTL == (i > 0)
      invariant ttl == NegativeTTL(authority[..i])
    {
      assert authority[..i + 1][..i] == authority[..i];
      var candidate := Min(authority[i].ttl, authority[i].minimum);
      if !haveTTL || candidate < ttl {
        ttl := candidate;
        haveTTL := true;
      }
    }
    assert authority[..|authority|] == authority;
  }

  /** What one reply leads to, with the least lifetime of the hops made in it. */
  method JudgeReply(r: Reply, rules: Naming, domain: string, depth: nat)
    returns (done: bool, result: Result, owner: string, made: nat, cnameTTL: nat)
    requires depth <= MAX_DEPTH
    ensures done <==> Judge(r, rules, domain, depth).Done?
    ensures done ==> result == Judge(r, rules, domain, depth).result
    ensures !done ==> var v := Judge(r, rules, domain, depth);
              owner == v.owner && made == |v.path| > 0 && cnameTTL == Least(v.path)
  {
    done, result, owner, made, cnameTTL := true, Error, "", 0, 0;
    if r.Lost? {
      return;
    }
    match r.rcode {
      case NxDomain =>
        result := Found([], !r.authenticated);
        return;
      case OtherCode =>
        return;
      case NoError =>
    }
    var hops := CollectHops(rules, r.answers);
    if hops.None? {
      return;
    }
    var ok;
    ok, owner, made, cnameTTL := FollowAliases(hops.value, rules, domain, depth);
    if !ok {
      return;
    }
    var hosts := CollectMx(rules, r.answers, owner);
    if |hosts| != 0 {
      if made != 0 {
        hosts := CapEach(hosts, cnameTTL);
      }
      result := Found(hosts, !r.authenticated);
      return;
    }
    if made != 0 {
      done := false;
      return;
    }
    if !r.authenticated {
      result := Found([], true);
      return;
    }
    var ttl := NegativeResponseTTL(r.authority);
    result := Found([MxHost(rules.absolute(domain), ttl)], false);
  }

  /** Lowers every lifetime to `ttl`. */
  method CapEach(hosts: seq<MxHost>, ttl: nat) returns (r: seq<MxHost>)
    ensures r == CapTo(hosts, ttl)
  {
    CapToMeans(hosts, ttl);
    r := hosts;
    for i := 0 to |r|
      invariant |r| == |hosts| && r[i..] == hosts[i..]
      invariant forall k :: 0 <= k < i ==> r[k] == hosts[k].(ttl := Min(hosts[k].ttl, ttl))
    {
      assert r[i] == hosts[i..][0];
      r := r[i := r[i].(ttl := Min(r[i].ttl, ttl))];
      assert r[i + 1..] == hosts[i..][1..];
    }
  }

  method PassOn(child: Result, authenticated: bool, ttl: nat) returns (result: Result)
    ensures result == PassedOn(child, authenticated, ttl)
  {
    if child.Error? {
      return Error;
    }
    var hosts := CapEach(child.hosts, ttl);
    return Found(hosts, !authenticated || child.incomplete);
  }

  lemma LookupSettles(resolver: Resolver, rules: Naming, n: nat, domain: string, depth: nat, result: Result)
    requires depth <= MAX_DEPTH && Judge(resolver(n, domain), rules, domain, depth) == Done(result)
    ensures Lookup(resolver, rules, n, domain, depth).result == result
  {
  }

  lemma LookupContinues(
    resolver: Resolver, rules: Naming, n: nat, domain: string, depth: nat, authenticated: bool, owner: string, made: nat, cnameTTL: nat)
    requires depth <= MAX_DEPTH && Judge(resolver(n, domain), rules, domain, depth).Continue?
    requires var v := Judge(resolver(n, domain), rules, domain, depth);
             owner == v.owner && made == |v.path| > 0 && cnameTTL == Least(v.path)
    requires resolver(n, domain).Reply? && authenticated == resolver(n, domain).authenticated
    ensures depth + made <= MAX_DEPTH
    ensures Lookup(resolver, rules, n, domain, depth).result ==
            PassedOn(Lookup(resolver, rules, n + 1, owner, depth + made).result, authenticated, cnameTTL)
  {
    var v := Judge(resolver(n, domain), rules, domain, depth);
    LookupGoesOn(resolver, rules, n, domain, depth, v.owner, v.path);
  }

  lemma LookupGoesOn(resolver: Resolver, rules: Naming, n: nat, domain: string, depth: nat, owner: string, path: seq<nat>)
    requires depth <= MAX_DEPTH && Judge(resolver(n, domain), rules, domain, depth) == Continue(owner, path)
    ensures resolver(n, domain).Reply? && path != [] && depth + |path| <= MAX_DEPTH
    ensures Lookup(resolver, rules, n, domain, depth) ==
            Extend(resolver(n, domain), domain, path, Lookup(resolver, rules, n + 1, owner, depth + |path|))
  {
  }

  /** Asks for `domain` and either settles the lookup or says where to go on. */
  method AskOnce(resolver: Resolver, rules: Naming, n: nat, domain: string, depth: nat)
    returns (done: bool, result: Result, authenticated: bool, owner: string, made: nat, cnameTTL: nat)
    requires depth <= MAX_DEPTH
    ensures done ==> result == Lookup(resolver, rules, n, domain, depth).result
    ensures !done ==>
              && made > 0 && depth + made <= MAX_DEPTH
              && Lookup(resolver, rules, n, domain, depth).result ==
                 PassedOn(Lookup(resolver, rules, n + 1, owner, depth + made).result, authenticated, cnameTTL)
  {
    var r := resolver(n, domain);
    done, result, owner, made, cnameTTL := JudgeReply(r, rules, domain, depth);
    if done {
      authenticated := false;
      LookupSettles(resolver, rules, n, domain, depth, result);
    } else {
      authenticated := r.authenticated;
      LookupContinues(resolver, rules, n, domain, depth, authenticated, owner, made, cnameTTL);
    }
  }

  /** internal/dane.go:82-192: loops and recursion compute exactly the lookup above. */
  method LookupMxRecords(resolver: Resolver, rules: Naming, n: nat, domain: string, depth: nat) returns (result: Result)
    ensures depth > MAX_DEPTH ==> result == Error
    ensures depth <= MAX_DEPTH ==> result == Lookup(resolver, rules, n, domain, depth).result
    decreases if depth > MAX_DEPTH then 0 else MAX_DEPTH + 1 - depth
  {
    if depth > MAX_DEPTH {
      return Error;
    }
    var done, answer, authenticated, owner, made, cnameTTL := AskOnce(resolver, rules, n, domain, depth);
    if done {
      return answer;
    }
    var child := LookupMxRecords(resolver, rules, n + 1, owner, depth + made);
    result := PassOn(child, authenticated, cnameTTL);
  }
}
