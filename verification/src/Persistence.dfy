/**
 The persistence protocol of the cache (internal/utils/cache/cache.go). Mutators change the
 map under one lock. A saver copies the map under that lock, writes the copy under a second
 lock, and marks the cache clean under the first lock again, so any number of savers and
 mutators interleave between these sections. Writing a file is one step that succeeds,
 leaves the file as it was, or replaces the file and then fails to sync its directory.
 */
module Persistence {
  import opened Options

  /** The file, with the generation of the map it holds as a history variable. */
  datatype Disk<T> = Missing | Unreadable | Stored(contents: map<string, T>, generation: nat)

  /** Outcomes of `writeSnapshot`. */
  datatype Write = Synced | Failed | RenamedNotSynced

  /** The fields of the cache, and its file. */
  datatype Shared<T> = Shared(
    data: map<string, T>,
    generation: nat,
    dirty: bool,
    persistedGeneration: nat,
    hasPersisted: bool,
    disk: Disk<T>)

  datatype Saver<T> =
    | Idle
    | Snapped(snapshot: map<string, T>, generation: nat, force: bool)
    | Persisted(generation: nat)
    | Returned(ok: bool)

  datatype State<T> = State(shared: Shared<T>, savers: seq<Saver<T>>)

  // ---------- the locked sections ----------

  /** Every mutation that takes effect: the new map, marked dirty, one generation on. */
  function Mutated<T>(c: Shared<T>, data: map<string, T>): Shared<T> {
    c.(data := data, dirty := true, generation := c.generation + 1)
  }

  function SetEntry<T>(c: Shared<T>, key: string, value: T): Shared<T> {
    Mutated(c, c.data[key := value])
  }

  /** `next` is what the update function returned, if it asked for an update. */
  function UpdateEntry<T>(c: Shared<T>, key: string, next: Option<T>): Shared<T> {
    if next.None? then c else Mutated(c, c.data[key := next.value])
  }

  function RemoveEntry<T>(c: Shared<T>, key: string): Shared<T> {
    if key !in c.data then c else Mutated(c, c.data - {key})
  }

  function PurgeAll<T>(c: Shared<T>): Shared<T> {
    Mutated(c, map[])
  }

  predicate Superseded<T>(c: Shared<T>, generation: nat, force: bool) {
    c.hasPersisted && (generation < c.persistedGeneration || (generation == c.persistedGeneration && !force))
  }

  /** `persistSnapshot`, and whether it returned without an error. */
  function PersistSnapshot<T>(c: Shared<T>, snapshot: map<string, T>, generation: nat, force: bool, write: Write): (Shared<T>, bool) {
    if Superseded(c, generation, force) then (c, true)
    else match write
      case Synced => (c.(disk := Stored(snapshot, generation), persistedGeneration := generation, hasPersisted := true), true)
      case Failed => (c, false)
      case RenamedNotSynced => (c.(disk := Stored(snapshot, generation)), false)
  }

  function MarkClean<T>(c: Shared<T>, generation: nat): Shared<T> {
    if c.generation == generation then c.(dirty := false) else c
  }

  // ---------- the interleaved protocol ----------

  datatype Step<T> =
    | Set(key: string, value: T)
    | Update(key: string, next: Option<T>)
    | Remove(key: string)
    | Purge
    | Begin(saver: nat, force: bool)
    | Persist(saver: nat, write: Write)
    | Finish(saver: nat)
    | Again(saver: nat)

  predicate Mutates<T>(step: Step<T>) {
    step.Set? || step.Update? || step.Remove? || step.Purge?
  }

  predicate Enabled<T>(s: State<T>, step: Step<T>) {
    match step
    case Begin(i, _) => i < |s.savers| && s.savers[i].Idle?
    case Persist(i, _) => i < |s.savers| && s.savers[i].Snapped?
    case Finish(i) => i < |s.savers| && s.savers[i].Persisted?
    case Again(i) => i < |s.savers| && s.savers[i].Returned?
    case _ => true
  }

  function Next<T>(s: State<T>, step: Step<T>): State<T>
    requires Enabled(s, step)
  {
    var c := s.shared;
    match step
    case Set(key, value) => s.(shared := SetEntry(c, key, value))
    case Update(key, next) => s.(shared := UpdateEntry(c, key, next))
    case Remove(key) => s.(shared := RemoveEntry(c, key))
    case Purge => s.(shared := PurgeAll(c))
    case Begin(i, force) =>
      s.(savers := s.savers[i := if !force && !c.dirty then Returned(true) else Snapped(c.data, c.generation, force)])
    case Persist(i, write) =>
      var saver := s.savers[i];
      var (c', ok) := PersistSnapshot(c, saver.snapshot, saver.generation, saver.force, write);
      State(c', s.savers[i := if ok then Persisted(saver.generation) else Returned(false)])
    case Finish(i) => State(MarkClean(c, s.savers[i].generation), s.savers[i := Returned(true)])
    case Again(i) => s.(savers := s.savers[i := Idle])
  }

  /** What `New` leaves behind: no file, a loaded file, or a file it could not read. */
  ghost predicate Init<T>(s: State<T>) {
    && (forall i :: 0 <= i < |s.savers| ==> s.savers[i].Idle?)
    && (|| s.shared == Shared(map[], 0, false, 0, false, Missing)
        || s.shared == Shared(map[], 1, true, 0, false, Unreadable)
        || (s.shared.disk.Stored? && s.shared == Shared(s.shared.disk.contents, 0, false, 0, true, Stored(s.shared.disk.contents, 0))))
  }

  ghost predicate Run<T>(states: seq<State<T>>, steps: seq<Step<T>>) {
    && |states| == |steps| + 1
    && Init(states[0])
    && forall i :: 0 <= i < |steps| ==> Enabled(states[i], steps[i]) && states[i + 1] == Next(states[i], steps[i])
  }

  // ---------- the invariant ----------

  /** The file holds the map in memory, or there is no file and nothing to store. */
  ghost predicate DiskCurrent<T>(c: Shared<T>) {
    || (c.disk.Stored? && c.disk.contents == c.data)
    || (c.disk.Missing? && c.data == map[])
  }

  /** A copy taken at some generation is the map itself if that generation still stands. */
  ghost predicate CopyOf<T>(c: Shared<T>, contents: map<string, T>, generation: nat) {
    generation <= c.generation && (generation == c.generation ==> contents == c.data)
  }

  ghost predicate SaverOk<T>(c: Shared<T>, saver: Saver<T>) {
    match saver
    case Snapped(snapshot, generation, _) => CopyOf(c, snapshot, generation)
    case Persisted(generation) => c.hasPersisted && generation <= c.persistedGeneration
    case _ => true
  }

  ghost predicate SharedOk<T>(c: Shared<T>) {
    && (c.disk.Stored? ==> CopyOf(c, c.disk.contents, c.disk.generation))
    && (c.hasPersisted ==> c.disk.Stored? && c.persistedGeneration <= c.disk.generation)
    && (!c.dirty ==>
          || (c.hasPersisted && c.persistedGeneration == c.generation)
          || (c.generation == 0 && (c.disk.Stored? || (c.disk.Missing? && c.data == map[]))))
  }

  ghost predicate Inv<T>(s: State<T>) {
    && SharedOk(s.shared)
    && forall i :: 0 <= i < |s.savers| ==> SaverOk(s.shared, s.savers[i])
  }

  lemma StepKeepsInv<T>(s: State<T>, step: Step<T>)
    requires Inv(s) && Enabled(s, step)
    ensures Inv(Next(s, step))
  {
  }

  lemma {:induction false} RunKeepsInv<T>(states: seq<State<T>>, steps: seq<Step<T>>, n: nat)
    requires Run(states, steps) && n < |states|
    ensures Inv(states[n])
  {
    if n > 0 {
      RunKeepsInv(states, steps, n - 1);
      StepKeepsInv(states[n - 1], steps[n - 1]);
    }
  }

  /** In every reachable state of every interleaving, a clean cache is on disk. */
  lemma CleanMeansStored<T>(states: seq<State<T>>, steps: seq<Step<T>>, n: nat)
    requires Run(states, steps) && n < |states| && !states[n].shared.dirty
    ensures DiskCurrent(states[n].shared)
  {
    RunKeepsInv(states, steps, n);
  }

  // ---------- the stored generation ----------

  /** Without unsynced renames the file is always the last one recorded as persisted. */
  ghost predicate Recorded<T>(c: Shared<T>) {
    c.disk.Stored? ==> c.hasPersisted && c.disk.generation == c.persistedGeneration
  }

  lemma StepKeepsRecorded<T>(s: State<T>, step: Step<T>)
    requires Enabled(s, step) && Recorded(s.shared) && !(step.Persist? && step.write.RenamedNotSynced?)
    ensures var s' := Next(s, step);
            && Recorded(s'.shared)
            && (s.shared.disk.Stored? ==> s'.shared.disk.Stored? && s.shared.disk.generation <= s'.shared.disk.generation)
  {
  }

  lemma {:induction false} RunKeepsRecorded<T>(states: seq<State<T>>, steps: seq<Step<T>>, n: nat)
    requires Run(states, steps) && n < |states|
    requires forall i :: 0 <= i < n ==> !(steps[i].Persist? && steps[i].write.RenamedNotSynced?)
    ensures Recorded(states[n].shared)
  {
    if n > 0 {
      RunKeepsRecorded(states, steps, n - 1);
      StepKeepsRecorded(states[n - 1], steps[n - 1]);
    }
  }

  /** With every write all-or-nothing, the stored generation never goes backwards. */
  lemma {:induction false} StoredGenerationMonotone<T>(states: seq<State<T>>, steps: seq<Step<T>>, m: nat, n: nat)
    requires Run(states, steps) && m <= n < |states| && states[m].shared.disk.Stored?
    requires forall i :: 0 <= i < n ==> !(steps[i].Persist? && steps[i].write.RenamedNotSynced?)
    ensures states[n].shared.disk.Stored?
    ensures states[m].shared.disk.generation <= states[n].shared.disk.generation
  {
    if m < n {
      StoredGenerationMonotone(states, steps, m, n - 1);
      RunKeepsRecorded(states, steps, n - 1);
      StepKeepsRecorded(states[n - 1], steps[n - 1]);
    }
  }

  /** In general a write lowers the stored generation exactly when it is not superseded and
      its copy is older than the file, and then the file was renamed into place by a save
      that reported an error. */
  lemma StoredGenerationDropsExactly<T>(s: State<T>, i: nat, write: Write)
    requires Inv(s) && Enabled(s, Persist(i, write)) && s.shared.disk.Stored?
    ensures var s' := Next(s, Persist(i, write));
            && s'.shared.disk.Stored?
            && (s'.shared.disk.generation < s.shared.disk.generation <==>
                  && !write.Failed?
                  && !Superseded(s.shared, s.savers[i].generation, s.savers[i].force)
                  && s.savers[i].generation < s.shared.disk.generation)
            && (s'.shared.disk.generation < s.shared.disk.generation ==> !Recorded(s.shared))
            && (s'.shared.hasPersisted ==> s'.shared.persistedGeneration <= s'.shared.disk.generation)
  {
  }

  const EMPTY_CACHE: Shared<int> := Shared(map[], 0, false, 0, false, Missing)

  /** Such a run exists: a forced save of generation 0 overwrites the unsynced generation 1. */
  lemma UnsyncedRenameCanRegress() returns (states: seq<State<int>>, steps: seq<Step<int>>)
    ensures Run(states, steps) && |steps| == 5
    ensures states[4].shared.disk == Stored(map["a" := 1], 1)
    ensures states[5].shared.disk == Stored(map[], 0)
  {
    var s0 := State(EMPTY_CACHE, [Idle, Idle]);
    steps := [Begin(0, true), Set("a", 1), Begin(1, false), Persist(1, RenamedNotSynced), Persist(0, Synced)];
    var s1 := Next(s0, steps[0]);
    var s2 := Next(s1, steps[1]);
    var s3 := Next(s2, steps[2]);
    var s4 := Next(s3, steps[3]);
    var s5 := Next(s4, steps[4]);
    states := [s0, s1, s2, s3, s4, s5];
    assert Init(s0);
  }

  // ---------- what a successful save guarantees ----------

  /** Saver `i` began since the last mutation and has not failed. */
  ghost predicate Saving<T>(s: State<T>, i: nat)
    requires i < |s.savers|
  {
    match s.savers[i]
    case Snapped(_, generation, _) => generation == s.shared.generation
    case Persisted(generation) => generation == s.shared.generation
    case Returned(ok) => ok ==> !s.shared.dirty
    case Idle => false
  }

  lemma {:induction false} SaverReaches<T>(states: seq<State<T>>, steps: seq<Step<T>>, i: nat, m: nat, n: nat)
    requires Run(states, steps) && m < n < |states| && i < |states[m].savers|
    requires steps[m].Begin? && steps[m].saver == i
    requires forall k :: m <= k < n ==> !Mutates(steps[k]) && steps[k] != Again(i)
    ensures i < |states[n].savers| && Saving(states[n], i)
  {
    if m + 1 < n {
      SaverReaches(states, steps, i, m, n - 1);
    }
    assert Enabled(states[n - 1], steps[n - 1]) && states[n] == Next(states[n - 1], steps[n - 1]);
  }

  /** A save that returns nil, with no mutation since it began, leaves the file equal to
      the map, whatever other savers did meanwhile. In particular this holds for the final
      save of `CloseWithError`. */
  lemma SuccessfulSaveIsDurable<T>(states: seq<State<T>>, steps: seq<Step<T>>, i: nat, m: nat, n: nat)
    requires Run(states, steps) && m < n < |states| && i < |states[m].savers|
    requires steps[m].Begin? && steps[m].saver == i
    requires forall k :: m <= k < n ==> !Mutates(steps[k]) && steps[k] != Again(i)
    requires i < |states[n].savers| && states[n].savers[i] == Returned(true)
    ensures DiskCurrent(states[n].shared)
  {
    SaverReaches(states, steps, i, m, n);
    CleanMeansStored(states, steps, n);
  }

  // ---------- the object ----------

  /** The cache object. Each method below is one locked section, or a whole call made of
      such sections when nothing runs in between. */
  class Cache<T> {
    var data: map<string, T>
    var generation: nat
    var dirty: bool
    var persistedGeneration: nat
    var hasPersistedGeneration: bool
    var file: Disk<T>

    ghost function View(): Shared<T>
      reads this
    {
      Shared(data, generation, dirty, persistedGeneration, hasPersistedGeneration, file)
    }

    /** Opens the cache over the given file, which `load` cannot read if `Unreadable`. */
    constructor (found: Disk<T>)
      ensures View() == match found
                        case Missing => Shared(map[], 0, false, 0, false, Missing)
                        case Unreadable => Shared(map[], 1, true, 0, false, Unreadable)
                        case Stored(contents, _) => Shared(contents, 0, false, 0, true, Stored(contents, 0))
      ensures SharedOk(View())
    {
      data := map[];
      generation := 0;
      dirty := false;
      persistedGeneration := 0;
      hasPersistedGeneration := false;
      file := found;
      new;
      match found {
        case Missing =>
        case Unreadable =>
          dirty := true;
          generation := generation + 1;
        case Stored(contents, _) =>
          data := contents;
          hasPersistedGeneration := true;
          file := Stored(contents, 0);
      }
    }

    method Set(key: string, value: T)
      requires SharedOk(View())
      modifies this
      ensures View() == SetEntry(old(View()), key, value) && SharedOk(View())
    {
      data := data[key := value];
      dirty := true;
      generation := generation + 1;
    }

    method Update(key: string, next: Option<T>)
      requires SharedOk(View())
      modifies this
      ensures View() == UpdateEntry(old(View()), key, next) && SharedOk(View())
    {
      if next.None? {
        return;
      }
      data := data[key := next.value];
      dirty := true;
      generation := generation + 1;
    }

    method Remove(key: string)
      requires SharedOk(View())
      modifies this
      ensures View() == RemoveEntry(old(View()), key) && SharedOk(View())
    {
      if key !in data {
        return;
      }
      data := data - {key};
      dirty := true;
      generation := generation + 1;
    }

    method PersistCopy(snapshot: map<string, T>, snapped: nat, force: bool, write: Write) returns (ok: bool)
      requires SharedOk(View()) && CopyOf(View(), snapshot, snapped)
      modifies this
      ensures (View(), ok) == PersistSnapshot(old(View()), snapshot, snapped, force, write)
      ensures SharedOk(View())
    {
      if hasPersistedGeneration {
        if snapped < persistedGeneration || (snapped == persistedGeneration && !force) {
          return true;
        }
      }
      match write {
        case Failed =>
          return false;
        case RenamedNotSynced =>
          file := Stored(snapshot, snapped);
          return false;
        case Synced =>
          file := Stored(snapshot, snapped);
      }
      persistedGeneration := snapped;
      hasPersistedGeneration := true;
      return true;
    }

    /** A save during which nothing else happens, as when the caller holds the lock. It
        reports success exactly when it had nothing to do or the write went through, and
        then the file holds the map. */
    method Save(force: bool, write: Write) returns (ok: bool)
      requires SharedOk(View())
      modifies this
      ensures SharedOk(View()) && data == old(data) && generation == old(generation)
      ensures ok <==> (!force && !old(dirty)) || Superseded(old(View()), old(generation), force) || write.Synced?
      ensures ok ==> DiskCurrent(View()) && (force || old(dirty) ==> !dirty)
    {
      if !force && !dirty {
        return true;
      }
      var snapshot, snapped := data, generation;
      ok := PersistCopy(snapshot, snapped, force, write);
      if !ok {
        return false;
      }
      if generation == snapped {
        dirty := false;
      }
    }

    /** Empties the cache and saves it; success means that the file is empty, too. */
    method Purge(write: Write) returns (ok: bool)
      requires SharedOk(View())
      modifies this
      ensures SharedOk(View()) && data == map[]
      ensures ok <==> write.Synced?
      ensures ok ==> file.Stored? && file.contents == map[] && !dirty
    {
      data := map[];
      dirty := true;
      generation := generation + 1;
      ok := Save(false, write);
    }
  }
}
