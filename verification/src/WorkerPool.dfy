/**
 The bounded worker pool of the DANE lookups (internal/dane.go:212-278, 462-519). A feeder
 hands the hosts over an unbuffered channel to at most four workers; each worker looks its
 host up and sends one result over a channel buffered for all hosts; when every worker has
 left, that channel is closed. Cancelling makes feeder and workers stop early. The pool is
 a state machine over these steps, and all results hold for every schedule.
 */
module WorkerPool {

  const CONCURRENCY: nat := 4

  datatype Worker = Idle | Looking(job: nat) | Holding(job: nat) | Exited {
    predicate Has(j: nat) {
      (Looking? || Holding?) && job == j
    }

    predicate Busy() {
      Looking? || Holding?
    }
  }

  /** `sent` lists the hosts whose results entered the channel, in order, the first
      `received` of which were taken out again; `dropped` are those lost to cancellation. */
  datatype State = State(
    hosts: nat,
    next: nat,
    jobsClosed: bool,
    workers: seq<Worker>,
    sent: seq<nat>,
    received: nat,
    dropped: set<nat>,
    resultsClosed: bool,
    cancelled: bool)

  datatype Step =
    | Hand(w: nat)
    | CloseJobs
    | Look(w: nat)
    | Send(w: nat)
    | Exit(w: nat)
    | CloseResults
    | Receive
    | Cancel

  function Workers(hosts: nat): nat { if hosts < CONCURRENCY then hosts else CONCURRENCY }

  function Start(hosts: nat): State {
    State(hosts, 0, false, seq(Workers(hosts), _ => Idle), [], 0, {}, false, false)
  }

  predicate Enabled(s: State, step: Step) {
    match step
    case Hand(w) => !s.jobsClosed && s.next < s.hosts && w < |s.workers| && s.workers[w].Idle?
    case CloseJobs => !s.jobsClosed && (s.next == s.hosts || s.cancelled)
    case Look(w) => w < |s.workers| && s.workers[w].Looking?
    case Send(w) => w < |s.workers| && s.workers[w].Holding? && |s.sent| - s.received < s.hosts
    case Exit(w) =>
      w < |s.workers| && ((s.workers[w].Idle? && (s.jobsClosed || s.cancelled)) || (s.workers[w].Holding? && s.cancelled))
    case CloseResults => !s.resultsClosed && forall w :: 0 <= w < |s.workers| ==> s.workers[w].Exited?
    case Receive => s.received < |s.sent|
    case Cancel => !s.cancelled
  }

  function Next(s: State, step: Step): State
    requires Enabled(s, step)
  {
    match step
    case Hand(w) => s.(workers := s.workers[w := Looking(s.next)], next := s.next + 1)
    case CloseJobs => s.(jobsClosed := true)
    case Look(w) => s.(workers := s.workers[w := Holding(s.workers[w].job)])
    case Send(w) => s.(workers := s.workers[w := Idle], sent := s.sent + [s.workers[w].job])
    case Exit(w) =>
      s.(workers := s.workers[w := Exited],
         dropped := if s.workers[w].Holding? then s.dropped + {s.workers[w].job} else s.dropped)
    case CloseResults => s.(resultsClosed := true)
    case Receive => s.(received := s.received + 1)
    case Cancel => s.(cancelled := true)
  }

  ghost predicate Run(states: seq<State>, steps: seq<Step>) {
    && |states| == |steps| + 1
    && states[0] == Start(states[0].hosts)
    && forall i :: 0 <= i < |steps| ==> Enabled(states[i], steps[i]) && states[i + 1] == Next(states[i], steps[i])
  }

  // ---------- the invariant ----------

  ghost predicate Distinct(s: seq<nat>) {
    forall i, j :: 0 <= i < j < |s| ==> s[i] != s[j]
  }

  ghost predicate InFlight(workers: seq<Worker>, j: nat) {
    exists w :: 0 <= w < |workers| && workers[w].Has(j)
  }

  /** A busy worker has a handed host that is neither sent nor dropped. */
  ghost predicate BusyHanded(s: State) {
    forall w :: 0 <= w < |s.workers| && s.workers[w].Busy() ==>
      s.workers[w].job < s.next && s.workers[w].job !in s.sent && s.workers[w].job !in s.dropped
  }

  ghost predicate BusyApart(s: State) {
    forall v, w :: 0 <= v < w < |s.workers| && s.workers[v].Busy() && s.workers[w].Busy() ==>
      s.workers[v].job != s.workers[w].job
  }

  /** Sent hosts are distinct, and sent and dropped ones are handed and apart. */
  ghost predicate SentApart(s: State) {
    && Distinct(s.sent)
    && (forall j :: j in s.sent ==> j < s.next && j !in s.dropped)
    && (forall j :: j in s.dropped ==> j < s.next)
  }

  /** Every handed host is in exactly one place: with one worker, among the results, or dropped. */
  ghost predicate Accounted(s: State) {
    && BusyHanded(s)
    && BusyApart(s)
    && SentApart(s)
    && (forall j: nat :: j < s.next && j !in s.sent && j !in s.dropped ==> InFlight(s.workers, j))
  }

  ghost predicate Inv(s: State) {
    && |s.workers| == Workers(s.hosts)
    && s.next <= s.hosts
    && s.received <= |s.sent|
    && Accounted(s)
    && (!s.cancelled ==> s.dropped == {})
    && (!s.cancelled && s.jobsClosed ==> s.next == s.hosts)
    && (!s.cancelled ==> forall w :: 0 <= w < |s.workers| && s.workers[w].Exited? ==> s.jobsClosed)
    && (s.resultsClosed ==> forall w :: 0 <= w < |s.workers| ==> s.workers[w].Exited?)
  }

  lemma StillInFlight(s: State, step: Step, j: nat)
    requires Inv(s) && Enabled(s, step)
    requires j < Next(s, step).next && j !in Next(s, step).sent && j !in Next(s, step).dropped
    ensures InFlight(Next(s, step).workers, j)
  {
    var s' := Next(s, step);
    if step.Hand? && j == s.next {
      assert s'.workers[step.w].Has(j);
    } else {
      assert forall i :: i in s.sent ==> i in s'.sent by {
        assert forall k :: 0 <= k < |s.sent| ==> s'.sent[k] == s.sent[k];
      }
      assert j !in s.sent && j !in s.dropped;
      assert InFlight(s.workers, j);
      var w :| 0 <= w < |s.workers| && s.workers[w].Has(j);
      assert step.Send? ==> s.workers[step.w].job in s'.sent;
      assert s'.workers[w].Has(j);
    }
  }

  lemma StepKeepsBusyHanded(s: State, step: Step)
    requires BusyHanded(s) && BusyApart(s) && SentApart(s) && Enabled(s, step)
    ensures BusyHanded(Next(s, step))
  {
    var s' := Next(s, step);
    if step.Send? {
      assert forall j :: j in s'.sent <==> j in s.sent || j == s.workers[step.w].job;
    }
    forall w | 0 <= w < |s'.workers| && s'.workers[w].Busy()
      ensures s'.workers[w].job < s'.next && s'.workers[w].job !in s'.sent && s'.workers[w].job !in s'.dropped
    {
      if s'.workers[w] == s.workers[w] {
        assert s.workers[w].Busy();
      }
    }
  }

  lemma StepKeepsBusyApart(s: State, step: Step)
    requires BusyHanded(s) && BusyApart(s) && Enabled(s, step)
    ensures BusyApart(Next(s, step))
  {
  }

  lemma StepKeepsSentApart(s: State, step: Step)
    requires BusyHanded(s) && SentApart(s) && Enabled(s, step)
    ensures SentApart(Next(s, step))
  {
    if step.Send? {
      assert forall j :: j in Next(s, step).sent <==> j in s.sent || j == s.workers[step.w].job;
    }
  }

  lemma StepKeepsAccounted(s: State, step: Step)
    requires Inv(s) && Enabled(s, step)
    ensures Accounted(Next(s, step))
  {
    var s' := Next(s, step);
    StepKeepsBusyHanded(s, step);
    StepKeepsBusyApart(s, step);
    StepKeepsSentApart(s, step);
    forall j: nat | j < s'.next && j !in s'.sent && j !in s'.dropped ensures InFlight(s'.workers, j) {
      StillInFlight(s, step, j);
    }
  }

  lemma StepKeepsInv(s: State, step: Step)
    requires Inv(s) && Enabled(s, step)
    ensures Inv(Next(s, step))
  {
    StepKeepsAccounted(s, step);
  }

  lemma {:induction false} RunKeepsInv(states: seq<State>, steps: seq<Step>, n: nat)
    requires Run(states, steps) && n < |states|
    ensures Inv(states[n]) && states[n].hosts == states[0].hosts
  {
    if n > 0 {
      RunKeepsInv(states, steps, n - 1);
      StepKeepsInv(states[n - 1], steps[n - 1]);
    }
  }

  // ---------- counting ----------

  function Range(n: nat): (r: set<nat>)
    ensures |r| == n && forall j: nat :: j in r <==> j < n
  {
    if n == 0 then {} else Range(n - 1) + {n - 1}
  }

  ghost function Elements(s: seq<nat>): set<nat> {
    set x | x in s
  }

  lemma {:induction false} DistinctSize(s: seq<nat>)
    requires Distinct(s)
    ensures |Elements(s)| == |s|
  {
    if s != [] {
      var rest := s[..|s| - 1];
      DistinctSize(rest);
      assert s == rest + [s[|s| - 1]];
      assert Elements(s) == Elements(rest) + {s[|s| - 1]};
      assert s[|s| - 1] !in Elements(rest);
    }
  }

  /** Distinct numbers below `n` are at most `n` many, and all of them if exactly `n`. */
  lemma Pigeonhole(s: seq<nat>, n: nat)
    requires Distinct(s) && forall j :: j in s ==> j < n
    ensures |s| <= n
    ensures |s| == n <==> forall j: nat :: j < n ==> j in s
  {
    DistinctSize(s);
    assert Elements(s) <= Range(n);
    SubsetSize(Elements(s), Range(n));
    if |s| == n {
      SubsetFull(Elements(s), Range(n));
      forall j: nat | j < n ensures j in s {
        assert j in Range(n);
      }
    }
    if forall j: nat :: j < n ==> j in s {
      assert Elements(s) == Range(n);
    }
  }

  lemma {:induction false} SubsetSize(a: set<nat>, b: set<nat>)
    requires a <= b
    ensures |a| <= |b|
  {
    if a != {} {
      var x :| x in a;
      SubsetSize(a - {x}, b - {x});
    }
  }

  lemma SubsetFull(a: set<nat>, b: set<nat>)
    requires a <= b && |a| == |b|
    ensures a == b
  {
    if b - a != {} {
      var x :| x in b - a;
      SubsetSize(a, b - {x});
      assert false;
    }
  }

  // ---------- results for every schedule ----------

  /** No result is ever sent on the closed channel, and a worker with a result never waits
      for room: the buffer holds a place for every host. */
  lemma SendIsSafe(states: seq<State>, steps: seq<Step>, n: nat, w: nat)
    requires Run(states, steps) && n < |states|
    requires w < |states[n].workers| && states[n].workers[w].Holding?
    ensures !states[n].resultsClosed
    ensures Enabled(states[n], Send(w))
  {
    RunKeepsInv(states, steps, n);
    var s := states[n];
    assert s.workers[w].Busy();
    var extended := s.sent + [s.workers[w].job];
    assert forall j :: j in extended <==> j in s.sent || j == s.workers[w].job;
    Pigeonhole(extended, s.hosts);
  }

  /** At most min(4, hosts) lookups are in flight. */
  lemma BoundedConcurrency(states: seq<State>, steps: seq<Step>, n: nat, busy: set<nat>)
    requires Run(states, steps) && n < |states|
    requires forall j :: j in busy ==> InFlight(states[n].workers, j)
    ensures |busy| <= Workers(states[0].hosts)
  {
    RunKeepsInv(states, steps, n);
    JobsBounded(states[n].workers, busy);
  }

  lemma {:induction false} JobsBounded(workers: seq<Worker>, busy: set<nat>)
    requires forall j :: j in busy ==> InFlight(workers, j)
    ensures |busy| <= |workers|
  {
    if workers == [] {
      assert forall j :: !InFlight(workers, j);
      assert busy == {};
    } else {
      var last, rest := workers[|workers| - 1], workers[..|workers| - 1];
      var others := if last.Busy() then busy - {last.job} else busy;
      forall j | j in others ensures InFlight(rest, j) {
        var w :| 0 <= w < |workers| && workers[w].Has(j);
        assert rest[w].Has(j);
      }
      JobsBounded(rest, others);
    }
  }

  /** A run that is never cancelled and has closed its results has sent exactly one result
      for every host. */
  lemma EachHostOnce(states: seq<State>, steps: seq<Step>, n: nat)
    requires Run(states, steps) && n < |states|
    requires states[n].resultsClosed && !states[n].cancelled
    ensures Distinct(states[n].sent) && |states[n].sent| == states[0].hosts
    ensures forall j: nat :: j in states[n].sent <==> j < states[0].hosts
  {
    RunKeepsInv(states, steps, n);
    var s := states[n];
    if s.hosts > 0 {
      assert s.workers[0].Exited?;
    }
    forall j: nat | j < s.hosts ensures j in s.sent {
      assert !InFlight(s.workers, j);
    }
    Pigeonhole(s.sent, s.hosts);
  }

  /** Even when cancelled, no host is reported twice; as many results as hosts means that
      every host is among them. */
  lemma FullCountIsComplete(states: seq<State>, steps: seq<Step>, n: nat)
    requires Run(states, steps) && n < |states|
    ensures Distinct(states[n].sent) && |states[n].sent| <= states[0].hosts
    ensures forall j :: j in states[n].sent ==> j < states[0].hosts
    ensures |states[n].sent| == states[0].hosts ==> forall j: nat :: j < states[0].hosts ==> j in states[n].sent
  {
    RunKeepsInv(states, steps, n);
    Pigeonhole(states[n].sent, states[n].hosts);
  }

  // ---------- progress ----------

  function Weight(w: Worker): nat {
    match w
    case Idle => 1
    case Looking(_) => 3
    case Holding(_) => 2
    case Exited => 0
  }

  function TotalWeight(workers: seq<Worker>): nat {
    if workers == [] then 0 else TotalWeight(workers[..|workers| - 1]) + Weight(workers[|workers| - 1])
  }

  lemma {:induction false} WeightOfUpdate(workers: seq<Worker>, w: nat, x: Worker)
    requires w < |workers|
    ensures TotalWeight(workers[w := x]) == TotalWeight(workers) - Weight(workers[w]) + Weight(x)
  {
    var n := |workers| - 1;
    if w < n {
      WeightOfUpdate(workers[..n], w, x);
      assert workers[w := x][..n] == workers[..n][w := x];
    } else {
      assert workers[w := x][..n] == workers[..n];
    }
  }

  function Rank(s: State): int {
    3 * (s.hosts - s.next) + TotalWeight(s.workers) + (if s.jobsClosed then 0 else 1) + (if s.resultsClosed then 0 else 1)
  }

  /** Every step of the pool itself lowers the rank, so every schedule ends. */
  lemma StepsLowerRank(s: State, step: Step)
    requires Inv(s) && Enabled(s, step) && !step.Receive? && !step.Cancel?
    ensures 0 <= Rank(Next(s, step)) < Rank(s)
  {
    match step
    case Hand(w) => WeightOfUpdate(s.workers, w, Looking(s.next));
    case Look(w) => WeightOfUpdate(s.workers, w, Holding(s.workers[w].job));
    case Send(w) => WeightOfUpdate(s.workers, w, Idle);
    case Exit(w) => WeightOfUpdate(s.workers, w, Exited);
    case _ =>
  }

  /** As long as the results are open, the pool can take a step, cancelled or not. */
  lemma NeverStuck(states: seq<State>, steps: seq<Step>, n: nat) returns (step: Step)
    requires Run(states, steps) && n < |states| && !states[n].resultsClosed
    ensures Enabled(states[n], step) && !step.Receive? && !step.Cancel?
  {
    RunKeepsInv(states, steps, n);
    var s := states[n];
    if w :| 0 <= w < |s.workers| && s.workers[w].Looking? {
      step := Look(w);
    } else if w :| 0 <= w < |s.workers| && s.workers[w].Holding? {
      SendIsSafe(states, steps, n, w);
      step := Send(w);
    } else if !s.jobsClosed && s.next == s.hosts {
      step := CloseJobs;
    } else if w :| 0 <= w < |s.workers| && s.workers[w].Idle? {
      step := if s.jobsClosed then Exit(w) else Hand(w);
    } else {
      assert s.hosts > 0 && !s.jobsClosed ==> s.workers[0].Exited?;
      step := CloseResults;
    }
  }
}
