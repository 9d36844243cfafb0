/**
 The prefetch scheduler (internal/prefetch.go:93-323): a binary heap of mutable items
 ordered by due time, an index from key to item, and a table of failures. Each item
 records its own position in the queue. The abstract value of a scheduler is the map
 from key to due time together with the failure table.
 */
module Scheduler {
  import opened Clock
  import opened DueHeap
  import opened Options
  import BatchGrid
  import Retry

  class PrefetchItem {
    var due: Instant
    const key: string
    var index: int

    constructor (key: string, due: Instant)
      ensures this.key == key && this.due == due
    {
      this.key := key;
      this.due := due;
      this.index := 0;
    }
  }

  ghost function DuesOf(queue: seq<PrefetchItem>): (d: seq<Instant>)
    reads queue
    ensures |d| == |queue|
    ensures forall i :: 0 <= i < |d| ==> d[i] == queue[i].due
  {
    seq(|queue|, i requires 0 <= i < |queue| reads queue => queue[i].due)
  }

  ghost predicate LinkedTo(items: map<string, PrefetchItem>, members: set<PrefetchItem>) {
    && (forall k :: k in items ==> items[k].key == k && items[k] in members)
    && (forall x :: x in members ==> x.key in items && items[x.key] == x)
  }

  lemma LinkedInsert(items: map<string, PrefetchItem>, members: set<PrefetchItem>, item: PrefetchItem)
    requires LinkedTo(items, members) && item.key !in items
    ensures item !in members
    ensures LinkedTo(items[item.key := item], members + {item})
  {
  }

  lemma LinkedDelete(items: map<string, PrefetchItem>, members: set<PrefetchItem>, item: PrefetchItem)
    requires LinkedTo(items, members) && item in members
    ensures LinkedTo(items - {item.key}, members - {item})
  {
  }

  ghost function Elements(queue: seq<PrefetchItem>): set<PrefetchItem> {
    set x | x in queue
  }

  lemma LastMember(queue: seq<PrefetchItem>)
    requires |queue| > 0
    ensures Elements(queue) == Elements(queue[..|queue| - 1]) + {queue[|queue| - 1]}
  {
  }

  /** `keys` were taken out of `before` in order of due time, leaving `rest`. */
  ghost predicate Drained(before: map<string, Instant>, keys: seq<string>, rest: map<string, Instant>) {
    && (forall i :: 0 <= i < |keys| ==> keys[i] in before)
    && (forall i, j :: 0 <= i < j < |keys| ==> keys[i] != keys[j] && before[keys[i]] <= before[keys[j]])
    && rest.Keys == (set k | k in before && k !in keys)
    && (forall k :: k in rest ==> rest[k] == before[k])
    && (forall i, k :: 0 <= i < |keys| && k in rest ==> before[keys[i]] <= rest[k])
  }

  lemma DrainStep(before: map<string, Instant>, keys: seq<string>, rest: map<string, Instant>, key: string)
    requires Drained(before, keys, rest) && key in rest
    requires forall k :: k in rest ==> rest[key] <= rest[k]
    ensures Drained(before, keys + [key], rest - {key})
  {
  }

  /** What popping everything due by `now` has to return and to leave. */
  ghost predicate PoppedBy(before: map<string, Instant>, now: Instant, keys: seq<string>, rest: map<string, Instant>) {
    && (forall k :: k in keys <==> k in before && before[k] <= now)
    && (forall i, j :: 0 <= i < j < |keys| ==> keys[i] != keys[j] && before[keys[i]] <= before[keys[j]])
    && rest == map k | k in before && now < before[k] :: before[k]
  }

  lemma DrainDone(before: map<string, Instant>, now: Instant, keys: seq<string>, rest: map<string, Instant>)
    requires Drained(before, keys, rest)
    requires forall i :: 0 <= i < |keys| ==> before[keys[i]] <= now
    requires forall k :: k in rest ==> now < rest[k]
    ensures PoppedBy(before, now, keys, rest)
  {
  }

  class PrefetchScheduler {
    const grid: BatchGrid.Grid
    var items: map<string, PrefetchItem>
    var failures: map<string, Retry.Failure>
    var queue: seq<PrefetchItem>

    /** Every queued item knows its own position. */
    ghost predicate Indexed()
      reads this`queue, queue
    {
      forall i :: 0 <= i < |queue| ==> queue[i].index == i
    }

    ghost function Members(): set<PrefetchItem>
      reads this`queue
    {
      Elements(queue)
    }

    /** The index and the queue hold the same items, each under its own key. */
    ghost predicate Linked()
      reads this`items, this`queue
    {
      LinkedTo(items, Members())
    }

    ghost function DueList(): (d: seq<Instant>)
      reads this`queue, queue
      ensures |d| == |queue|
      ensures forall i :: 0 <= i < |d| ==> d[i] == queue[i].due
    {
      DuesOf(queue)
    }

    ghost predicate Valid()
      reads this`items, this`queue, queue
    {
      && Indexed()
      && Linked()
      && HeapOrdered(DueList(), |queue|)
      && grid.Valid()
    }

    /** The abstract value: when each scheduled key is due. */
    ghost function Dues(): map<string, Instant>
      reads this`items, items.Values`due
    {
      map k | k in items :: items[k].due
    }

    constructor (grid: BatchGrid.Grid)
      requires grid.Valid()
      ensures Valid() && Dues() == map[] && failures == map[] && this.grid == grid
    {
      this.grid := grid;
      items := map[];
      failures := map[];
      queue := [];
    }

    // ---------- container/heap over Less, Swap, Push and Pop ----------

    method Swap(i: nat, j: nat)
      requires Indexed() && i < |queue| && j < |queue|
      modifies this`queue, Members()`index
      ensures queue == Swapped(old(queue), i, j)
      ensures Indexed()
      ensures DueList() == Swapped(old(DueList()), i, j)
      ensures Members() == old(Members())
    {
      ghost var before := queue;
      queue := queue[i := queue[j]][j := queue[i]];
      queue[i].index := i;
      queue[j].index := j;
      assert queue[i] == before[j] && queue[j] == before[i];
      forall x | x in before ensures x in queue {
        var k :| 0 <= k < |before| && before[k] == x;
        assert queue[if k == i then j else if k == j then i else k] == x;
      }
    }

    method Up(j0: nat, ghost n: nat)
      requires Indexed() && j0 < n <= |queue|
      requires BrokenAbove(DueList(), n, j0)
      modifies this`queue, Members()`index
      ensures Indexed() && |queue| == |old(queue)| && queue[n..] == old(queue)[n..]
      ensures HeapOrdered(DueList(), n)
      ensures Members() == old(Members())
    {
      var j := j0;
      while true
        invariant 0 <= j < n <= |queue| == |old(queue)|
        invariant Indexed() && BrokenAbove(DueList(), n, j)
        invariant queue[n..] == old(queue)[n..]
        invariant Members() == old(Members())
        decreases j
      {
        var i := if j == 0 then 0 else (j - 1) / 2;
        if i == j || !(queue[j].due < queue[i].due) {
          break;
        }
        SwapUp(DueList(), n, j);
        Swap(i, j);
        j := i;
      }
    }

    /** The child of `i` that is due first. */
    method EarliestChild(i: nat, n: nat) returns (j: nat)
      requires 2 * i + 1 < n <= |queue|
      ensures 1 <= j < n && Parent(j) == i
      ensures forall k :: 1 <= k < n && Parent(k) == i ==> DueList()[j] <= DueList()[k]
    {
      var j1 := 2 * i + 1;
      j := j1;
      var j2 := j1 + 1;
      if j2 < n && queue[j2].due < queue[j1].due {
        j := j2;
      }
      EarlierChild(DueList(), n, i, j);
    }

    /** One turn of the loop of `down`: the new position, or `i` again if nothing moves. */
    method SinkOnce(ghost top: nat, i: nat, n: nat) returns (j: nat)
      requires Indexed() && top <= i < n <= |queue|
      requires SiftingDown(DueList(), n, top, i)
      modifies this`queue, Members()`index
      ensures Indexed() && i <= j < n <= |queue| == |old(queue)|
      ensures SiftingDown(DueList(), n, top, j)
      ensures queue[n..] == old(queue)[n..] && Members() == old(Members())
      ensures j == i ==> queue == old(queue) && forall k :: 1 <= k < n && Parent(k) == i ==> DueList()[i] <= DueList()[k]
    {
      if 2 * i + 1 >= n {
        return i;
      }
      j := EarliestChild(i, n);
      if !(queue[j].due < queue[i].due) {
        return i;
      }
      SwapDown(DueList(), n, top, i, j);
      Swap(i, j);
    }

    method Down(i0: nat, n: nat) returns (moved: bool)
      requires Indexed() && i0 < n <= |queue|
      requires BrokenAt(DueList(), n, i0)
      modifies this`queue, Members()`index
      ensures Indexed() && |queue| == |old(queue)| && queue[n..] == old(queue)[n..]
      ensures moved ==> HeapOrdered(DueList(), n)
      ensures !moved ==> queue == old(queue) && BrokenAbove(DueList(), n, i0)
      ensures Members() == old(Members())
    {
      var i := i0;
      while true
        invariant i0 <= i < n <= |queue| == |old(queue)|
        invariant Indexed() && SiftingDown(DueList(), n, i0, i)
        invariant queue[n..] == old(queue)[n..]
        invariant i == i0 ==> queue == old(queue)
        invariant Members() == old(Members())
        decreases n - i
      {
        var j := SinkOnce(i0, i, n);
        if j == i {
          break;
        }
        i := j;
      }
      SiftStops(DueList(), n, i0, i);
      moved := i > i0;
    }

    method Fix(i: nat)
      requires Indexed() && i < |queue|
      requires BrokenAt(DueList(), |queue|, i)
      modifies this`queue, Members()`index
      ensures Indexed() && |queue| == |old(queue)|
      ensures HeapOrdered(DueList(), |queue|)
      ensures Members() == old(Members())
    {
      var moved := Down(i, |queue|);
      if !moved {
        Up(i, |queue|);
      }
    }

    method Push(item: PrefetchItem)
      requires Indexed() && HeapOrdered(DueList(), |queue|)
      requires item !in queue
      modifies this`queue, Members()`index, item`index
      ensures Indexed() && HeapOrdered(DueList(), |queue|)
      ensures Members() == old(Members()) + {item}
    {
      ghost var before := DueList();
      item.index := |queue|;
      queue := queue + [item];
      assert DueList() == before + [item.due];
      AppendBreaksAbove(before, item.due);
      Up(|queue| - 1, |queue|);
    }

    /** Takes the last element off the queue. */
    method PopLast() returns (item: PrefetchItem)
      requires Indexed() && |queue| > 0 && HeapOrdered(DueList(), |queue| - 1)
      modifies this`queue, Members()`index
      ensures item == old(queue)[|old(queue)| - 1] && |queue| == |old(queue)| - 1
      ensures Indexed() && HeapOrdered(DueList(), |queue|)
      ensures Members() == old(Members()) - {item}
    {
      ghost var before, dues := queue, DueList();
      var n := |queue| - 1;
      item := queue[n];
      assert forall i :: 0 <= i < n ==> before[i] != item by {
        assert forall i :: 0 <= i < n ==> before[i].index == i;
      }
      item.index := -1;
      queue := queue[..n];
      PrefixOrdered(dues, n);
      assert DueList() == dues[..n];
      LastMember(before);
    }

    method RemoveAt(i: nat) returns (item: PrefetchItem)
      requires Indexed() && HeapOrdered(DueList(), |queue|) && i < |queue|
      modifies this`queue, Members()`index
      ensures item == old(queue)[i] && |queue| == |old(queue)| - 1
      ensures Indexed() && HeapOrdered(DueList(), |queue|)
      ensures Members() == old(Members()) - {item}
    {
      ghost var dues := DueList();
      var n := |queue| - 1;
      if n != i {
        LastIntoBreaksLocally(dues, n, i);
        Swap(i, n);
        assert queue[n..] == [old(queue)[i]];
        var moved := Down(i, n);
        if !moved {
          Up(i, n);
        }
        assert queue[n] == queue[n..][0];
      }
      item := PopLast();
    }

    method PopMin() returns (item: PrefetchItem)
      requires Indexed() && HeapOrdered(DueList(), |queue|) && |queue| > 0
      modifies this`queue, Members()`index
      ensures item == old(queue)[0] && |queue| == |old(queue)| - 1
      ensures Indexed() && HeapOrdered(DueList(), |queue|)
      ensures Members() == old(Members()) - {item}
    {
      var n := |queue| - 1;
      ghost var dues := DueList();
      Swap(0, n);
      assert queue[n..] == [old(queue)[0]];
      if n > 0 {
        LastIntoBreaksLocally(dues, n, 0);
        var moved := Down(0, n);
      }
      assert queue[n] == queue[n..][0];
      item := PopLast();
    }

    // ---------- scheduler operations ----------

    method ScheduleLocked(key: string, due: Instant)
      requires Valid()
      modifies this`items, this`queue, Members()
      ensures Valid() && fresh(Members() - old(Members()))
      ensures Dues() == old(Dues())[key := due]
    {
      if key in items {
        Reschedule(items[key], due);
      } else {
        var item := new PrefetchItem(key, due);
        SameDues();
        Enqueue(item);
      }
    }

    method Reschedule(item: PrefetchItem, due: Instant)
      requires Valid() && item in Members()
      modifies this`queue, Members()`index, item`due
      ensures Valid() && Members() == old(Members())
      ensures Dues() == old(Dues())[item.key := due]
    {
      SetDue(item, due);
      Fix(item.index);
    }

    /** Overwrites a due time, which may break the heap at that place. */
    method SetDue(item: PrefetchItem, due: Instant)
      requires Valid() && item in Members()
      modifies item`due
      ensures Indexed() && Linked() && 0 <= item.index < |queue|
      ensures BrokenAt(DueList(), |queue|, item.index)
      ensures Dues() == old(Dues())[item.key := due]
    {
      ghost var dues := DueList();
      ChangeBreaksLocally(dues, item.index, due);
      WriteDue(item, due);
      assert DueList() == dues[item.index := due];
    }

    method WriteDue(item: PrefetchItem, due: Instant)
      requires Linked() && item in Members()
      modifies item`due
      ensures item.due == due && Dues() == old(Dues())[item.key := due]
    {
      item.due := due;
    }

    method Enqueue(item: PrefetchItem)
      requires Valid() && item.key !in items
      modifies this`items, this`queue, Members()`index, item`index
      ensures Valid() && Members() == old(Members()) + {item}
      ensures Dues() == old(Dues())[item.key := item.due]
    {
      Register(item);
      label registered:
      Push(item);
      SameDues@registered();
    }

    /** The abstract value depends on the index and the due times only. */
    twostate lemma SameDues()
      requires items == old(items) && forall k :: k in items ==> items[k].due == old(items[k].due)
      ensures Dues() == old(Dues())
    {
    }

    /** Enters an item into the index. */
    method Register(item: PrefetchItem)
      requires Linked() && item.key !in items
      modifies this`items
      ensures item !in Members() && LinkedTo(items, Members() + {item})
      ensures Dues() == old(Dues())[item.key := item.due]
    {
      LinkedInsert(items, Members(), item);
      items := items[item.key := item];
    }

    /** Takes an item out of the index. */
    method Deregister(item: PrefetchItem)
      modifies this`items
      ensures items == old(items) - {item.key}
      ensures Dues() == old(Dues()) - {item.key}
    {
      items := items - {item.key};
    }

    /** Drops `key` from the queue and the index. */
    method Unschedule(key: string)
      requires Valid()
      modifies this`items, this`queue, Members()`index
      ensures Valid() && Members() <= old(Members())
      ensures Dues() == old(Dues()) - {key}
    {
      if key in items {
        LinkedDelete(items, Members(), items[key]);
        var item := RemoveAt(items[key].index);
        Deregister(item);
      }
    }

    method Remove(key: string)
      requires Valid()
      modifies this`items, this`queue, this`failures, Members()`index
      ensures Valid() && Members() <= old(Members())
      ensures Dues() == old(Dues()) - {key}
      ensures failures == old(failures) - {key}
    {
      failures := failures - {key};
      assert Valid() && Dues() == old(Dues());
      Unschedule(key);
    }

    method Clear()
      requires Valid()
      modifies this`items, this`queue, this`failures
      ensures Valid() && Members() == {}
      ensures Dues() == map[] && failures == map[]
    {
      items := map[];
      failures := map[];
      queue := [];
    }

    method ResetFailures(key: string)
      requires Valid()
      modifies this`failures
      ensures Valid() && Dues() == old(Dues()) && failures == old(failures) - {key}
    {
      failures := failures - {key};
    }

    lemma FrontIsEarliest()
      requires Valid() && |queue| > 0
      ensures queue[0].key in Dues() && Dues()[queue[0].key] == queue[0].due
      ensures forall k :: k in Dues() ==> queue[0].due <= Dues()[k]
    {
      assert queue[0] in Members();
      forall k | k in Dues() ensures queue[0].due <= Dues()[k] {
        HeapMinimum(DueList(), |queue|, items[k].index);
      }
    }

    lemma RestIsLater(now: Instant)
      requires Valid() && (|queue| > 0 ==> queue[0].due > now)
      ensures forall k :: k in Dues() ==> now < Dues()[k]
    {
      if |queue| > 0 {
        FrontIsEarliest();
      }
    }

    /** The earliest due time over all scheduled keys. */
    method NextDue() returns (due: Instant, found: bool)
      requires Valid()
      ensures found <==> Dues() != map[]
      ensures found ==> exists k :: k in Dues() && Dues()[k] == due
      ensures found ==> forall k :: k in Dues() ==> due <= Dues()[k]
    {
      if |queue| == 0 {
        assert forall k :: k !in items;
        return NEVER, false;
      }
      FrontIsEarliest();
      return queue[0].due, true;
    }

    /** The failure recorded for `key`, as the retry rules see it. */
    ghost function Recorded(key: string): Option<Retry.Failure>
      reads this`failures
    {
      if key in failures then Some(failures[key]) else None
    }

    method Rebook(key: string, failure: Retry.Failure, due: Instant)
      requires Valid()
      modifies this`items, this`queue, this`failures, Members()
      ensures Valid() && fresh(Members() - old(Members()))
      ensures Dues() == old(Dues())[key := due] && failures == old(failures)[key := failure]
    {
      failures := failures[key := failure];
      assert Valid() && Dues() == old(Dues());
      ScheduleLocked(key, due);
    }

    /** Books a failed prefetch: the key is either due again when `Retry.Decide` says,
        with its failure counted, or forgotten altogether. No other key is touched. */
    method ScheduleRetryUntil(key: string, now: Instant, grace: Instant)
      returns (due: Instant, attempts: nat, delay: Duration, ok: bool)
      requires Valid()
      modifies this`items, this`queue, this`failures, Members()
      ensures Valid() && fresh(Members() - old(Members()))
      ensures match Retry.Decide(grid, old(Recorded(key)), now, grace)
              case GiveUp(failed) =>
                && !ok && delay == 0 && attempts == failed
                && Dues() == old(Dues()) - {key} && failures == old(failures) - {key}
              case RetryAt(at, failure) =>
                && ok && due == at && attempts == failure.attempts && delay == at - now
                && Dues() == old(Dues())[key := at] && failures == old(failures)[key := failure]
    {
      var recorded := if key in failures then Some(failures[key]) else None;
      var decision := Retry.Plan(grid, recorded, now, grace);
      match decision {
        case GiveUp(failed) =>
          Remove(key);
          due, attempts, delay, ok := NEVER, failed, 0, false;
        case RetryAt(at, failure) =>
          Rebook(key, failure, at);
          due, attempts, delay, ok := at, failure.attempts, at - now, true;
      }
    }

    /** Removes everything due by `now`: the result lists exactly those keys, once each,
        in order of due time, and every other key stays scheduled as it was. */
    method PopDue(now: Instant) returns (keys: seq<string>)
      requires Valid()
      modifies this`items, this`queue, Members()`index
      ensures Valid() && Members() <= old(Members())
      ensures PoppedBy(old(Dues()), now, keys, Dues())
    {
      keys := [];
      ghost var before := Dues();
      while |queue| != 0 && !(queue[0].due > now)
        invariant Valid() && Members() <= old(Members())
        invariant Drained(before, keys, Dues())
        invariant forall i :: 0 <= i < |keys| ==> before[keys[i]] <= now
        decreases |queue|
      {
        ghost var rest := Dues();
        var key := PopEarliest();
        DrainStep(before, keys, rest, key);
        keys := keys + [key];
      }
      RestIsLater(now);
      DrainDone(before, now, keys, Dues());
    }

    /** One turn of the pop loop. */
    method PopEarliest() returns (key: string)
      requires Valid() && |queue| > 0
      modifies this`items, this`queue, Members()`index
      ensures Valid() && Members() <= old(Members()) && |queue| < |old(queue)|
      ensures key in old(Dues()) && old(Dues())[key] == old(queue[0].due)
      ensures forall k :: k in old(Dues()) ==> old(Dues())[key] <= old(Dues())[k]
      ensures Dues() == old(Dues()) - {key}
    {
      FrontIsEarliest();
      LinkedDelete(items, Members(), queue[0]);
      var item := PopMin();
      Deregister(item);
      key := item.key;
    }

    ghost function View(): Table
      reads this`items, this`failures, items.Values`due
    {
      Table(Dues(), failures)
    }

    method Perform(op: Operation)
      requires Valid()
      modifies this`items, this`queue, this`failures, Members()
      ensures Valid() && fresh(Members() - old(Members()))
      ensures View() == Apply(grid, old(View()), op)
    {
      match op {
        case Schedule(key, due) => ScheduleLocked(key, due);
        case Drop(key) => Remove(key);
        case DropAll => Clear();
        case Forgive(key) => ResetFailures(key);
        case Fail(key, now, grace) =>
          var due, attempts, delay, ok := ScheduleRetryUntil(key, now, grace);
        case Pop(now) =>
          var keys := PopDue(now);
      }
    }

    /** Any sequence of operations leaves the scheduler valid and does to its tables exactly
        what the same operations do to a plain map. */
    method PerformAll(ops: seq<Operation>)
      requires Valid()
      modifies this`items, this`queue, this`failures, Members()
      ensures Valid() && fresh(Members() - old(Members()))
      ensures View() == ApplyAll(grid, old(View()), ops)
    {
      for i := 0 to |ops|
        invariant Valid() && fresh(Members() - old(Members()))
        invariant View() == ApplyAll(grid, old(View()), ops[..i])
      {
        Perform(ops[i]);
        assert ops[..i + 1][..i] == ops[..i];
      }
      assert ops[..|ops|] == ops;
    }
  }

  // ---------- the scheduler as a plain map ----------

  /** What a scheduler amounts to: when each key is due, and the recorded failures. */
  datatype Table = Table(dues: map<string, Instant>, failures: map<string, Retry.Failure>)

  datatype Operation =
    | Schedule(key: string, due: Instant)
    | Drop(key: string)
    | DropAll
    | Forgive(key: string)
    | Fail(key: string, now: Instant, grace: Instant)
    | Pop(now: Instant)

  ghost function Apply(grid: BatchGrid.Grid, t: Table, op: Operation): Table {
    match op
    case Schedule(key, due) => t.(dues := t.dues[key := due])
    case Drop(key) => Table(t.dues - {key}, t.failures - {key})
    case DropAll => Table(map[], map[])
    case Forgive(key) => t.(failures := t.failures - {key})
    case Fail(key, now, grace) =>
      var recorded := if key in t.failures then Some(t.failures[key]) else None;
      (match Retry.Decide(grid, recorded, now, grace)
       case GiveUp(_) => Table(t.dues - {key}, t.failures - {key})
       case RetryAt(due, failure) => Table(t.dues[key := due], t.failures[key := failure]))
    case Pop(now) => t.(dues := map k | k in t.dues && now < t.dues[k] :: t.dues[k])
  }

  ghost function ApplyAll(grid: BatchGrid.Grid, t: Table, ops: seq<Operation>): Table {
    if ops == [] then t else Apply(grid, ApplyAll(grid, t, ops[..|ops| - 1]), ops[|ops| - 1])
  }

  /** In every run from an empty scheduler, a failure is on record only for a key that failed,
      and it has been counted at least once. */
  lemma {:induction false} FailuresAreCounted(grid: BatchGrid.Grid, ops: seq<Operation>, key: string)
    requires key in ApplyAll(grid, Table(map[], map[]), ops).failures
    ensures ApplyAll(grid, Table(map[], map[]), ops).failures[key].attempts >= 1
    ensures exists i :: 0 <= i < |ops| && ops[i].Fail? && ops[i].key == key
                        && ops[i].now == ApplyAll(grid, Table(map[], map[]), ops).failures[key].firstFailed
  {
    var rest, op := ops[..|ops| - 1], ops[|ops| - 1];
    var before := ApplyAll(grid, Table(map[], map[]), rest);
    if key in before.failures {
      FailuresAreCounted(grid, rest, key);
      var i :| 0 <= i < |rest| && rest[i].Fail? && rest[i].key == key && rest[i].now == before.failures[key].firstFailed;
      assert ops[i] == rest[i];
    }
  }
}
