/**
  The cache of command results: a map whose entries live for five minutes, behind a read-write lock,
  and a background cleaner that a second mutex and a flag keep to one at a time.  Threads take one
  step at a time, in any order; a step is a lock operation, an access under a lock, or a spawn.
 */
module CommandCache {
  import opened Wrappers

  /** Five minutes, in nanoseconds. */
  const CACHE_TTL := 300_000_000_000

  /** Every set that brings the size of the map to a multiple of this asks for a cleanup. */
  const CLEANUP_EVERY := 100

  datatype CacheEntry = CacheEntry(output: string, cachedTime: int)
  {
    predicate Fresh(now: int) {
      now - cachedTime < CACHE_TTL
    }
  }

  // ---------- The reference: a log that keeps every set with its time ----------

  datatype SetEvent = SetEvent(key: string, entry: CacheEntry)

  function Latest(log: seq<SetEvent>, key: string): Option<CacheEntry> {
    if log == [] then None
    else if log[|log| - 1].key == key then Some(log[|log| - 1].entry)
    else Latest(log[..|log| - 1], key)
  }

  /** The latest value for the key if it is younger than five minutes, otherwise a miss. */
  function LogGet(log: seq<SetEvent>, key: string, now: int): Option<string> {
    match Latest(log, key)
    case Some(entry) => if entry.Fresh(now) then Some(entry.output) else None
    case None => None
  }

  /** What a lookup in the map answers. */
  function MapGet(entries: map<string, CacheEntry>, key: string, now: int): Option<string> {
    if key in entries && entries[key].Fresh(now) then Some(entries[key].output) else None
  }

  /** The map is the log, less entries that have expired. */
  ghost predicate Refines(entries: map<string, CacheEntry>, log: seq<SetEvent>, now: int) {
    && (forall k | k in entries :: Latest(log, k) == Some(entries[k]))
    && (forall k | k !in entries :: Latest(log, k) == None || !Latest(log, k).value.Fresh(now))
  }

  lemma RefinesGet(entries: map<string, CacheEntry>, log: seq<SetEvent>, key: string, now: int)
    requires Refines(entries, log, now)
    ensures MapGet(entries, key, now) == LogGet(log, key, now)
  {
  }

  lemma RefinesSet(entries: map<string, CacheEntry>, log: seq<SetEvent>, now: int, key: string, entry: CacheEntry)
    requires Refines(entries, log, now)
    ensures Refines(entries[key := entry], log + [SetEvent(key, entry)], now)
  {
    var log' := log + [SetEvent(key, entry)];
    assert log'[..|log|] == log;
    assert forall k :: Latest(log', k) == if k == key then Some(entry) else Latest(log, k);
  }

  lemma RefinesDelete(entries: map<string, CacheEntry>, log: seq<SetEvent>, now: int, key: string)
    requires Refines(entries, log, now) && key in entries && !entries[key].Fresh(now)
    ensures Refines(entries - {key}, log, now)
  {
  }

  // ---------- Threads, locks and the cleaner ----------

  datatype Stage =
    // getCachedCommandResult
    | GetWaiting(key: string)
    | GetReading(key: string)
    | GetUnlocking(key: string, answer: Option<string>)
    // setCachedCommandResult
    | SetWaiting(key: string, output: string)
    | SetWriting(key: string, output: string)
    | SetUnlocking(shouldCleanup: bool)
    | FlagWaiting
    | FlagTesting
    | FlagUnlocking(spawn: bool)
    | Spawning
    // cleanExpiredCacheEntries
    | CleanWaiting
    | Scanning(todo: set<string>)
    | Clearing
    | CleanupUnlocking
    | CacheUnlocking
    //
    | Done(result: Option<string>)

  datatype World = World(
    entries: map<string, CacheEntry>, log: seq<SetEvent>, clock: int, threads: map<nat, Stage>,
    writer: Option<nat>, readers: set<nat>, cleanupHolder: Option<nat>, cleanupInProgress: bool)
  {
    function Go(p: nat, stage: Stage): World {
      this.(threads := threads[p := stage])
    }
  }

  datatype Step = Start(pid: nat, stage: Stage) | Move(pid: nat) | Scan(pid: nat, key: string)
                | Spawn(pid: nat, child: nat) | Tick(elapsed: nat)

  predicate Enabled(w: World, step: Step) {
    match step
    case Start(p, stage) => p !in w.threads && (stage.GetWaiting? || stage.SetWaiting?)
    case Tick(_) => true
    case Scan(p, key) => p in w.threads && w.threads[p].Scanning? && key in w.threads[p].todo
    case Spawn(p, child) => p in w.threads && w.threads[p].Spawning? && child !in w.threads
    case Move(p) =>
      p in w.threads &&
      match w.threads[p]
      case GetWaiting(_) => w.writer == None
      case SetWaiting(_, _) => w.writer == None && w.readers == {}
      case CleanWaiting => w.writer == None && w.readers == {}
      case FlagWaiting => w.cleanupHolder == None
      case Scanning(todo) => todo == {} && w.cleanupHolder == None
      case Spawning => false
      case Done(_) => false
      case _ => true
  }

  function Apply(w: World, step: Step): World
    requires Enabled(w, step)
  {
    match step
    case Start(p, stage) => w.Go(p, stage)
    case Tick(elapsed) => w.(clock := w.clock + elapsed)
    case Scan(p, key) =>
      var scanned := w.Go(p, Scanning(w.threads[p].todo - {key}));
      if key in w.entries && !w.entries[key].Fresh(w.clock) then scanned.(entries := w.entries - {key}) else scanned
    case Spawn(p, child) => w.Go(p, Done(None)).Go(child, CleanWaiting)
    case Move(p) =>
      match w.threads[p]
      case GetWaiting(key) => w.Go(p, GetReading(key)).(readers := w.readers + {p})
      case GetReading(key) => w.Go(p, GetUnlocking(key, MapGet(w.entries, key, w.clock)))
      case GetUnlocking(_, answer) => w.Go(p, Done(answer)).(readers := w.readers - {p})
      case SetWaiting(key, output) => w.Go(p, SetWriting(key, output)).(writer := Some(p))
      case SetWriting(key, output) =>
        var entry := CacheEntry(output, w.clock);
        var entries := w.entries[key := entry];
        w.Go(p, SetUnlocking(|entries| % CLEANUP_EVERY == 0)).(
        entries := entries, log := w.log + [SetEvent(key, entry)])
      case SetUnlocking(shouldCleanup) => w.Go(p, if shouldCleanup then FlagWaiting else Done(None)).(writer := None)
      case FlagWaiting => w.Go(p, FlagTesting).(cleanupHolder := Some(p))
      case FlagTesting => w.Go(p, FlagUnlocking(!w.cleanupInProgress)).(cleanupInProgress := true)
      case FlagUnlocking(spawn) => w.Go(p, if spawn then Spawning else Done(None)).(cleanupHolder := None)
      case CleanWaiting => w.Go(p, Scanning(w.entries.Keys)).(writer := Some(p))
      case Scanning(_) => w.Go(p, Clearing).(cleanupHolder := Some(p))
      case Clearing => w.Go(p, CleanupUnlocking).(cleanupInProgress := false)
      case CleanupUnlocking => w.Go(p, CacheUnlocking).(cleanupHolder := None)
      case CacheUnlocking => w.Go(p, Done(None)).(writer := None)
  }

  ghost predicate Init(w: World) {
    && w.entries == map[] && w.log == [] && w.threads == map[]
    && w.writer == None && w.readers == {} && w.cleanupHolder == None && !w.cleanupInProgress
  }

  ghost predicate Next(w: World, w': World) {
    exists step :: Enabled(w, step) && w' == Apply(w, step)
  }

  ghost predicate IsRun(run: seq<World>) {
    && |run| > 0 && Init(run[0])
    && forall i, j {:trigger Next(run[i], run[j])} | 0 <= i && j == i + 1 < |run| :: Next(run[i], run[j])
  }

  // ---------- The inductive invariant ----------

  predicate Reads(s: Stage) {
    s.GetReading? || s.GetUnlocking?
  }

  predicate Writes(s: Stage) {
    s.SetWriting? || s.SetUnlocking? || s.Scanning? || s.Clearing? || s.CleanupUnlocking? || s.CacheUnlocking?
  }

  predicate HoldsCleanup(s: Stage) {
    s.FlagTesting? || s.FlagUnlocking? || s.Clearing? || s.CleanupUnlocking?
  }

  /** A thread that is to spawn the cleaner, or is a cleaner that has yet to clear the flag. */
  predicate OwnsFlag(s: Stage) {
    (s.FlagUnlocking? && s.spawn) || s.Spawning? || s.CleanWaiting? || s.Scanning? || s.Clearing?
  }

  ghost predicate WriterOk(w: World) {
    forall p :: w.writer == Some(p) <==> p in w.threads && Writes(w.threads[p])
  }

  ghost predicate ReadersOk(w: World) {
    && (forall p :: p in w.readers <==> p in w.threads && Reads(w.threads[p]))
    && (w.writer.Some? ==> w.readers == {})
  }

  ghost predicate CleanupHolderOk(w: World) {
    forall p :: w.cleanupHolder == Some(p) <==> p in w.threads && HoldsCleanup(w.threads[p])
  }

  ghost predicate LocksOk(w: World) {
    WriterOk(w) && ReadersOk(w) && CleanupHolderOk(w)
  }

  predicate FlagOwner(w: World, p: nat) {
    p in w.threads && OwnsFlag(w.threads[p])
  }

  ghost predicate FlagOwned(w: World) {
    w.cleanupInProgress <==> exists p :: FlagOwner(w, p)
  }

  ghost predicate OneFlagOwner(w: World) {
    forall p, q :: FlagOwner(w, p) && FlagOwner(w, q) ==> p == q
  }

  ghost predicate Inv(w: World) {
    LocksOk(w) && FlagOwned(w) && OneFlagOwner(w) && Refines(w.entries, w.log, w.clock)
  }

  lemma StepWriter(w: World, step: Step)
    requires WriterOk(w) && Enabled(w, step)
    ensures WriterOk(Apply(w, step))
  {
  }

  /** The move of a thread that neither takes nor gives back the read lock. */
  lemma OtherReaders(w: World, p: nat)
    requires ReadersOk(w) && Enabled(w, Move(p)) && !w.threads[p].GetWaiting? && !Reads(w.threads[p])
    ensures ReadersOk(Apply(w, Move(p)))
  {
  }

  lemma GetReaders(w: World, p: nat)
    requires ReadersOk(w) && Enabled(w, Move(p)) && (w.threads[p].GetWaiting? || Reads(w.threads[p]))
    ensures ReadersOk(Apply(w, Move(p)))
  {
  }

  lemma StepReaders(w: World, step: Step)
    requires ReadersOk(w) && Enabled(w, step)
    ensures ReadersOk(Apply(w, step))
  {
    if step.Move? {
      if w.threads[step.pid].GetWaiting? || Reads(w.threads[step.pid]) {
        GetReaders(w, step.pid);
      } else {
        OtherReaders(w, step.pid);
      }
    }
  }

  lemma StepCleanupHolder(w: World, step: Step)
    requires CleanupHolderOk(w) && Enabled(w, step)
    ensures CleanupHolderOk(Apply(w, step))
  {
    var w' := Apply(w, step);
    forall p
      ensures w'.cleanupHolder == Some(p) <==> p in w'.threads && HoldsCleanup(w'.threads[p])
    {
      assert w.cleanupHolder == Some(p) <==> p in w.threads && HoldsCleanup(w.threads[p]);
    }
  }

  /** Who owns the flag after a step owned it before, or is the child of who did, or has just set it. */
  lemma OwnerBefore(w: World, step: Step, p: nat)
    requires Enabled(w, step) && FlagOwner(Apply(w, step), p)
    ensures FlagOwner(w, p) || (step.Spawn? && step.child == p && FlagOwner(w, step.pid) && !FlagOwner(Apply(w, step), step.pid))
            || (step == Move(p) && w.threads[p].FlagTesting? && !w.cleanupInProgress)
  {
  }

  lemma StepOneFlagOwner(w: World, step: Step)
    requires FlagOwned(w) && OneFlagOwner(w) && Enabled(w, step)
    ensures OneFlagOwner(Apply(w, step))
  {
    var w' := Apply(w, step);
    forall p, q | FlagOwner(w', p) && FlagOwner(w', q)
      ensures p == q
    {
      OwnerBefore(w, step, p);
      OwnerBefore(w, step, q);
    }
  }

  /** Who owned the flag still does, or has passed it to the cleaner it spawned, or has cleared it. */
  lemma OwnerAfter(w: World, step: Step, p: nat)
    requires Enabled(w, step) && FlagOwner(w, p)
    ensures FlagOwner(Apply(w, step), p) || (step.Spawn? && step.pid == p && FlagOwner(Apply(w, step), step.child))
            || (step == Move(p) && w.threads[p].Clearing?)
  {
  }

  lemma StepFlagOwned(w: World, step: Step)
    requires FlagOwned(w) && OneFlagOwner(w) && Enabled(w, step)
    ensures FlagOwned(Apply(w, step))
  {
    var w' := Apply(w, step);
    if w.cleanupInProgress {
      var p :| FlagOwner(w, p);
      OwnerAfter(w, step, p);
    } else if step.Move? && w.threads[step.pid].FlagTesting? {
      assert FlagOwner(w', step.pid);
    }
    forall p | FlagOwner(w', p)
      ensures w'.cleanupInProgress
    {
      OwnerBefore(w, step, p);
      if step.Move? && w.threads[step.pid].Clearing? {
        assert FlagOwner(w, step.pid);
      }
    }
  }

  lemma StepRefines(w: World, step: Step)
    requires Refines(w.entries, w.log, w.clock) && Enabled(w, step)
    ensures Refines(Apply(w, step).entries, Apply(w, step).log, Apply(w, step).clock)
  {
    if step.Move? && w.threads[step.pid].SetWriting? {
      var s := w.threads[step.pid];
      RefinesSet(w.entries, w.log, w.clock, s.key, CacheEntry(s.output, w.clock));
    }
  }

  lemma InitInv(w: World)
    requires Init(w)
    ensures Inv(w)
  {
  }

  lemma StepInv(w: World, step: Step)
    requires Inv(w) && Enabled(w, step)
    ensures Inv(Apply(w, step))
  {
    StepWriter(w, step);
    StepReaders(w, step);
    StepCleanupHolder(w, step);
    StepOneFlagOwner(w, step);
    StepFlagOwned(w, step);
    StepRefines(w, step);
  }

  // ---------- What holds in every run ----------

  lemma StepOf(run: seq<World>, n: nat) returns (step: Step)
    requires IsRun(run) && n + 1 < |run|
    ensures Enabled(run[n], step) && run[n + 1] == Apply(run[n], step)
  {
    var w, w' := run[n], run[n + 1];
    assert Next(w, w');
    step :| Enabled(w, step) && w' == Apply(w, step);
  }

  lemma {:induction false} RunInv(run: seq<World>, n: nat)
    requires IsRun(run) && n < |run|
    ensures Inv(run[n])
  {
    if n == 0 {
      InitInv(run[0]);
    } else {
      RunInv(run, n - 1);
      var step := StepOf(run, n - 1);
      StepInv(run[n - 1], step);
    }
  }

  lemma ReadStep(w: World, step: Step, p: nat)
    requires Enabled(w, step) && p in w.threads && w.threads[p].GetReading?
    requires p in Apply(w, step).threads && Apply(w, step).threads[p].GetUnlocking?
    ensures Apply(w, step).threads[p].answer == MapGet(w.entries, w.threads[p].key, w.clock)
  {
  }

  /** Every get answers what a map that never forgets a set would answer at that moment. */
  lemma GetsAreExact(run: seq<World>, n: nat, p: nat)
    requires IsRun(run) && n + 1 < |run|
    requires p in run[n].threads && run[n].threads[p].GetReading?
    requires p in run[n + 1].threads && run[n + 1].threads[p].GetUnlocking?
    ensures var key := run[n].threads[p].key;
            run[n + 1].threads[p].answer == LogGet(run[n].log, key, run[n].clock)
  {
    RunInv(run, n);
    var step := StepOf(run, n);
    ReadStep(run[n], step, p);
    RefinesGet(run[n].entries, run[n].log, run[n].threads[p].key, run[n].clock);
  }

  /** The log forgets nothing and grows exactly with the sets. */
  lemma LogGrowsBySets(run: seq<World>, n: nat)
    requires IsRun(run) && n + 1 < |run|
    ensures run[n + 1].log == run[n].log
            || exists p :: && p in run[n].threads && run[n].threads[p].SetWriting?
                           && run[n + 1].log == run[n].log +
                              [SetEvent(run[n].threads[p].key, CacheEntry(run[n].threads[p].output, run[n].clock))]
  {
    var step := StepOf(run, n);
    if step.Move? && run[n].threads[step.pid].SetWriting? {
      assert step.pid in run[n].threads;
    }
  }

  /** The flag is up exactly while one thread is to spawn the cleaner, or is the cleaner and has yet to clear it. */
  lemma FlagMeansOneCleaner(run: seq<World>, n: nat)
    requires IsRun(run) && n < |run|
    ensures run[n].cleanupInProgress <==> exists p :: FlagOwner(run[n], p) && forall q :: FlagOwner(run[n], q) ==> q == p
  {
    RunInv(run, n);
    if run[n].cleanupInProgress {
      var p :| FlagOwner(run[n], p);
    }
  }

  /** While one thread scans or clears, no other thread reads, writes or scans. */
  lemma CleanerIsAlone(run: seq<World>, n: nat, p: nat, q: nat)
    requires IsRun(run) && n < |run| && p in run[n].threads && q in run[n].threads
    requires run[n].threads[p].Scanning? || run[n].threads[p].Clearing?
    requires Reads(run[n].threads[q]) || Writes(run[n].threads[q])
    ensures p == q
  {
    RunInv(run, n);
  }

  /**
    Thread `p` can take its next step even if a waiting writer holds back new readers, as Go's
    read-write lock does.
   */
  predicate CanProceed(w: World, p: nat, step: Step) {
    && Enabled(w, step)
    && ((step.Move? && step.pid == p) || (step.Scan? && step.pid == p) || (step.Spawn? && step.pid == p))
    && (w.threads[p].GetWaiting? ==>
          forall q | q in w.threads :: !w.threads[q].SetWaiting? && !w.threads[q].CleanWaiting?)
  }

  lemma HolderProceeds(w: World, p: nat)
    requires Inv(w) && p in w.threads
    requires w.cleanupHolder == Some(p)
             || (w.cleanupHolder == None && (w.writer == Some(p) || p in w.readers))
    ensures exists step :: CanProceed(w, p, step)
  {
    if w.threads[p].Scanning? && w.threads[p].todo != {} {
      var key :| key in w.threads[p].todo;
      assert CanProceed(w, p, Scan(p, key));
    } else {
      assert CanProceed(w, p, Move(p));
    }
  }

  lemma FreshPid(threads: map<nat, Stage>) returns (p: nat)
    ensures p !in threads
  {
    var pids := threads.Keys;
    p := 0;
    while pids != {}
      invariant forall q | q in threads && q !in pids :: q < p
      invariant pids <= threads.Keys
      decreases |pids|
    {
      var q :| q in pids;
      pids := pids - {q};
      p := if q < p then p else q + 1;
    }
  }

  /**
    The two mutexes never deadlock: as long as some thread is not done, some thread can take a step, a new
    reader only where no writer waits.
   */
  lemma NoDeadlock(run: seq<World>, n: nat, unfinished: nat) returns (p: nat, step: Step)
    requires IsRun(run) && n < |run| && unfinished in run[n].threads && !run[n].threads[unfinished].Done?
    ensures p in run[n].threads && Enabled(run[n], step)
    ensures step == Move(p) || (step.Scan? && step.pid == p) || (step.Spawn? && step.pid == p)
    ensures run[n].threads[p].GetWaiting? ==>
              forall q | q in run[n].threads :: !run[n].threads[q].SetWaiting? && !run[n].threads[q].CleanWaiting?
  {
    var w := run[n];
    RunInv(run, n);
    p := unfinished;
    if w.cleanupHolder.Some? {
      p := w.cleanupHolder.value;
      HolderProceeds(w, p);
    } else if w.writer.Some? {
      p := w.writer.value;
      HolderProceeds(w, p);
    } else if w.readers != {} {
      p :| p in w.readers;
      HolderProceeds(w, p);
    } else {
      if w.threads[p].GetWaiting? && exists q :: q in w.threads && (w.threads[q].SetWaiting? || w.threads[q].CleanWaiting?) {
        p :| p in w.threads && (w.threads[p].SetWaiting? || w.threads[p].CleanWaiting?);
      }
      if w.threads[p].Spawning? {
        var child := FreshPid(w.threads);
        assert CanProceed(w, p, Spawn(p, child));
      } else {
        assert CanProceed(w, p, Move(p));
      }
    }
    step :| CanProceed(w, p, step);
    assert CanProceed(w, p, step) && Enabled(w, step);
  }
}

/** The three functions of the cache as they are written, each the critical section of one lock. */
module CommandCacheStore {
  import opened Wrappers
  import opened CommandCache

  class Store {
    var commandCache: map<string, CacheEntry>
    var cleanupInProgress: bool
    var clock: int
    /** Every set so far. */
    ghost var log: seq<SetEvent>

    ghost predicate Valid()
      reads this
    {
      Refines(commandCache, log, clock)
    }

    constructor ()
      ensures Valid() && commandCache == map[] && log == [] && !cleanupInProgress
    {
      commandCache, cleanupInProgress, clock, log := map[], false, 0, [];
    }

    /** Reads the clock, which may have gone on but never goes back. */
    method Now() returns (now: int)
      modifies this`clock
      ensures now == clock && old(clock) <= clock
      ensures old(Valid()) ==> Valid()
    {
      var elapsed: int :| 0 <= elapsed;
      clock := clock + elapsed;
      now := clock;
    }

    method Get(cacheKey: string) returns (output: string, found: bool)
      requires Valid()
      modifies this`clock
      ensures Valid()
      ensures LogGet(log, cacheKey, clock) == if found then Some(output) else None
    {
      if cacheKey in commandCache {
        var entry := commandCache[cacheKey];
        var now := Now();
        if entry.Fresh(now) {
          return entry.output, true;
        }
      }
      return "", false;
    }

    /** `spawn` tells that the caller starts a cleaner. */
    method Set(cacheKey: string, output: string) returns (spawn: bool)
      requires Valid()
      modifies this
      ensures Valid() && old(clock) <= clock
      ensures log == old(log) + [SetEvent(cacheKey, CacheEntry(output, clock))]
      ensures commandCache == old(commandCache)[cacheKey := CacheEntry(output, clock)]
      ensures spawn == (|commandCache| % CLEANUP_EVERY == 0 && !old(cleanupInProgress))
      ensures cleanupInProgress == (old(cleanupInProgress) || spawn)
    {
      var now := Now();
      RefinesSet(commandCache, log, clock, cacheKey, CacheEntry(output, now));
      commandCache := commandCache[cacheKey := CacheEntry(output, now)];
      log := log + [SetEvent(cacheKey, CacheEntry(output, now))];
      var shouldCleanup := |commandCache| % CLEANUP_EVERY == 0;
      spawn := false;
      if shouldCleanup {
        if !cleanupInProgress {
          cleanupInProgress := true;
          spawn := true;
        }
      }
    }

    /** Removes entries only once they have expired, and every entry that had expired at the start. */
    method CleanExpired()
      requires Valid()
      modifies this`commandCache, this`cleanupInProgress, this`clock
      ensures Valid() && old(clock) <= clock && !cleanupInProgress
      ensures forall k | k in commandCache :: k in old(commandCache) && commandCache[k] == old(commandCache)[k]
      ensures forall k | k in old(commandCache) && k !in commandCache :: !old(commandCache)[k].Fresh(clock)
      ensures forall k | k in commandCache :: commandCache[k].Fresh(old(clock))
    {
      var todo := commandCache.Keys;
      while todo != {}
        invariant Valid() && old(clock) <= clock && todo <= commandCache.Keys
        invariant forall k | k in commandCache :: k in old(commandCache) && commandCache[k] == old(commandCache)[k]
        invariant forall k | k in old(commandCache) && k !in commandCache :: !old(commandCache)[k].Fresh(clock)
        invariant forall k | k in commandCache && k !in todo :: commandCache[k].Fresh(old(clock))
        decreases todo
      {
        var key :| key in todo;
        todo := todo - {key};
        var now := Now();
        if !commandCache[key].Fresh(now) {
          RefinesDelete(commandCache, log, clock, key);
          commandCache := commandCache - {key};
        }
      }
      cleanupInProgress := false;
    }
  }
}
