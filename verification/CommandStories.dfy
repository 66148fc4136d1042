/** What becomes of each call of the command cache, from the moment it is made to its return, in every run. */
module CommandStories {
  import opened CommandCache
  import opened Wrappers

  /** A thread stands where it stood unless the step is its own. */
  lemma Stays(w: World, step: Step, p: nat)
    requires Enabled(w, step) && p in w.threads
    ensures p in Apply(w, step).threads
    ensures Apply(w, step).threads[p] == w.threads[p]
            || (step == Move(p) || (step.Scan? && step.pid == p) || (step.Spawn? && step.pid == p))
  {
  }

  // ---------- A get ----------

  /** The answer is that of the log at some moment from world `i` on, before world `m`. */
  ghost predicate AnswersLog(run: seq<World>, i: nat, m: nat, key: string, answer: Option<string>) {
    exists n | i <= n < m && n < |run| :: answer == LogGet(run[n].log, key, run[n].clock)
  }

  /** Where a get for the key may stand in world `m` if it began in world `i`. */
  ghost predicate GetTold(run: seq<World>, i: nat, m: nat, key: string, s: Stage) {
    match s
    case GetWaiting(k) => k == key
    case GetReading(k) => k == key
    case GetUnlocking(k, answer) => k == key && AnswersLog(run, i, m, key, answer)
    case Done(result) => AnswersLog(run, i, m, key, result)
    case _ => false
  }

  lemma AnswersLater(run: seq<World>, i: nat, m: nat, key: string, answer: Option<string>)
    requires AnswersLog(run, i, m, key, answer)
    ensures AnswersLog(run, i, m + 1, key, answer)
  {
    var n :| i <= n < m && n < |run| && answer == LogGet(run[n].log, key, run[n].clock);
  }

  lemma GetMoves(run: seq<World>, i: nat, m: nat, p: nat, key: string)
    requires i <= m < |run| && Inv(run[m]) && Enabled(run[m], Move(p)) && GetTold(run, i, m, key, run[m].threads[p])
    ensures p in Apply(run[m], Move(p)).threads && GetTold(run, i, m + 1, key, Apply(run[m], Move(p)).threads[p])
  {
    match run[m].threads[p]
    case GetWaiting(_) =>
    case GetReading(_) =>
      RefinesGet(run[m].entries, run[m].log, key, run[m].clock);
    case GetUnlocking(_, answer) => AnswersLater(run, i, m, key, answer);
  }

  lemma GetStays(run: seq<World>, i: nat, m: nat, key: string, s: Stage)
    requires GetTold(run, i, m, key, s)
    ensures GetTold(run, i, m + 1, key, s)
  {
    if s.GetUnlocking? {
      AnswersLater(run, i, m, key, s.answer);
    } else if s.Done? {
      AnswersLater(run, i, m, key, s.result);
    }
  }

  lemma {:induction false} GetStory(run: seq<World>, i: nat, m: nat, p: nat, key: string)
    requires IsRun(run) && i <= m < |run| && p in run[i].threads && run[i].threads[p] == GetWaiting(key)
    ensures p in run[m].threads && GetTold(run, i, m, key, run[m].threads[p])
    decreases m
  {
    if i < m {
      GetStory(run, i, m - 1, p, key);
      var step := StepOf(run, m - 1);
      Stays(run[m - 1], step, p);
      RunInv(run, m - 1);
      if step == Move(p) {
        GetMoves(run, i, m - 1, p, key);
      } else {
        GetStays(run, i, m - 1, key, run[m - 1].threads[p]);
      }
    }
  }

  /**
    A call that asks for a key and has returned has given what a map that never forgets a set would have
    answered for that key, at some moment between the call and the return: the latest output, if that was set
    less than five minutes before.
   */
  lemma GetsReturnExactly(run: seq<World>, i: nat, m: nat, p: nat, key: string, result: Option<string>)
    requires IsRun(run) && i <= m < |run| && p in run[i].threads && run[i].threads[p] == GetWaiting(key)
    requires p in run[m].threads && run[m].threads[p] == Done(result)
    ensures exists n :: i <= n <= m && result == LogGet(run[n].log, key, run[n].clock)
                        && (result.Some? <==> && Latest(run[n].log, key).Some?
                                              && run[n].clock - Latest(run[n].log, key).value.cachedTime < 300_000_000_000)
  {
    GetStory(run, i, m, p, key);
  }

  // ---------- A set ----------

  /** The thread wrote its output between worlds `n` and `n + 1`: one event more in the log, one entry in the map. */
  ghost predicate Wrote(run: seq<World>, n: nat, p: nat, key: string, output: string)
    requires n + 1 < |run|
  {
    && p in run[n].threads && run[n].threads[p] == SetWriting(key, output)
    && run[n + 1].log == run[n].log + [SetEvent(key, CacheEntry(output, run[n].clock))]
    && run[n + 1].entries == run[n].entries[key := CacheEntry(output, run[n].clock)]
  }

  /** The map had a multiple of a hundred entries after the write. */
  predicate AsksForCleanup(run: seq<World>, n: nat)
    requires n + 1 < |run|
  {
    |run[n + 1].entries| % 100 == 0
  }

  /** The flag was up at some moment from world `n` on, up to world `m`. */
  ghost predicate FlagWasUp(run: seq<World>, n: nat, m: nat) {
    exists f | n <= f <= m && f < |run| :: run[f].cleanupInProgress
  }

  /** Where a set may stand in world `m` if it wrote between worlds `n` and `n + 1`. */
  ghost predicate WrittenTold(run: seq<World>, n: nat, m: nat, s: Stage)
    requires n + 1 < |run|
  {
    match s
    case SetUnlocking(shouldCleanup) => shouldCleanup == AsksForCleanup(run, n)
    case FlagWaiting => AsksForCleanup(run, n)
    case FlagTesting => AsksForCleanup(run, n)
    case FlagUnlocking(_) => FlagWasUp(run, n, m)
    case Spawning => FlagWasUp(run, n, m)
    case Done(_) => AsksForCleanup(run, n) ==> FlagWasUp(run, n, m)
    case _ => false
  }

  lemma FlagWasUpLater(run: seq<World>, n: nat, m: nat)
    requires FlagWasUp(run, n, m)
    ensures FlagWasUp(run, n, m + 1)
  {
    var f :| n <= f <= m && f < |run| && run[f].cleanupInProgress;
  }

  lemma WrittenMoves(run: seq<World>, n: nat, m: nat, p: nat, step: Step)
    requires n + 1 <= m && m + 1 < |run| && Enabled(run[m], step) && run[m + 1] == Apply(run[m], step)
    requires p in run[m].threads && WrittenTold(run, n, m, run[m].threads[p])
    ensures p in run[m + 1].threads && WrittenTold(run, n, m + 1, run[m + 1].threads[p])
  {
    Stays(run[m], step, p);
    if FlagWasUp(run, n, m) {
      FlagWasUpLater(run, n, m);
    }
    if step == Move(p) && run[m].threads[p].FlagTesting? {
      assert run[m + 1].cleanupInProgress;
    }
  }

  lemma WriteStep(run: seq<World>, n: nat, p: nat, key: string, output: string)
    requires n + 1 < |run| && Enabled(run[n], Move(p)) && run[n + 1] == Apply(run[n], Move(p))
    requires run[n].threads[p] == SetWriting(key, output)
    ensures Wrote(run, n, p, key, output) && p in run[n + 1].threads
    ensures WrittenTold(run, n, n + 1, run[n + 1].threads[p])
  {
  }

  lemma LogStep(w: World, step: Step)
    requires Enabled(w, step)
    ensures w.log <= Apply(w, step).log
  {
  }

  /** Where a set stands in world `m` if it began in world `i`: still waiting or writing, or done with the write. */
  ghost predicate SetTold(run: seq<World>, i: nat, m: nat, p: nat, key: string, output: string)
    requires m < |run| && p in run[m].threads
  {
    || run[m].threads[p] == SetWaiting(key, output)
    || run[m].threads[p] == SetWriting(key, output)
    || exists n | i <= n < m ::
         Wrote(run, n, p, key, output) && run[n + 1].log <= run[m].log && WrittenTold(run, n, m, run[m].threads[p])
  }

  lemma SetMoves(run: seq<World>, i: nat, m: nat, p: nat, key: string, output: string, step: Step)
    requires i <= m && m + 1 < |run| && Enabled(run[m], step) && run[m + 1] == Apply(run[m], step)
    requires p in run[m].threads && SetTold(run, i, m, p, key, output)
    ensures p in run[m + 1].threads && SetTold(run, i, m + 1, p, key, output)
  {
    Stays(run[m], step, p);
    LogStep(run[m], step);
    if n :| i <= n < m && Wrote(run, n, p, key, output) && run[n + 1].log <= run[m].log && WrittenTold(run, n, m, run[m].threads[p]) {
      WrittenMoves(run, n, m, p, step);
      assert run[n + 1].log <= run[m + 1].log;
    } else if step == Move(p) && run[m].threads[p].SetWriting? {
      WriteStep(run, m, p, key, output);
    }
  }

  lemma {:induction false} SetStory(run: seq<World>, i: nat, m: nat, p: nat, key: string, output: string)
    requires IsRun(run) && i <= m < |run| && p in run[i].threads && run[i].threads[p] == SetWaiting(key, output)
    ensures p in run[m].threads && SetTold(run, i, m, p, key, output)
    decreases m
  {
    if i < m {
      SetStory(run, i, m - 1, p, key, output);
      var step := StepOf(run, m - 1);
      SetMoves(run, i, m - 1, p, key, output, step);
    }
  }

  /**
    A call that stores an output and has returned wrote it itself, under its key, at one moment in between: the
    log has that event from then on.  If the map had a multiple of a hundred entries then, a cleaner was on its
    way at some moment before the return.
   */
  lemma SetsAreLogged(run: seq<World>, i: nat, m: nat, p: nat, key: string, output: string, result: Option<string>)
    requires IsRun(run) && i <= m < |run| && p in run[i].threads && run[i].threads[p] == SetWaiting(key, output)
    requires p in run[m].threads && run[m].threads[p] == Done(result)
    ensures exists n | i <= n < m ::
              && Wrote(run, n, p, key, output) && run[n + 1].log <= run[m].log
              && (AsksForCleanup(run, n) ==> FlagWasUp(run, n, m))
  {
    SetStory(run, i, m, p, key, output);
  }

  // ---------- A cleaner ----------

  /** Nothing outside `todo` had expired at the time. */
  predicate FreshOutside(entries: map<string, CacheEntry>, todo: set<string>, time: int) {
    forall k | k in entries && k !in todo :: entries[k].Fresh(time)
  }

  /** What a cleaner that was waiting at the time has done by now. */
  ghost predicate CleanTold(w: World, p: nat, time: int) {
    && p in w.threads && time <= w.clock
    && match w.threads[p]
       case CleanWaiting => true
       case Scanning(todo) => FreshOutside(w.entries, todo, time)
       case Clearing => FreshOutside(w.entries, {}, time)
       case CleanupUnlocking => FreshOutside(w.entries, {}, time)
       case CacheUnlocking => FreshOutside(w.entries, {}, time)
       case Done(_) => true
       case _ => false
  }

  lemma OneWriter(w: World, p: nat, q: nat)
    requires WriterOk(w) && p in w.threads && q in w.threads && Writes(w.threads[p]) && Writes(w.threads[q])
    ensures p == q
  {
    assert w.writer == Some(p);
  }

  /** While a cleaner works, the others leave the entries alone. */
  lemma CleanerGuards(w: World, step: Step, p: nat)
    requires WriterOk(w) && Enabled(w, step) && p in w.threads && !step.Tick? && step.pid != p
    requires w.threads[p].Scanning? || w.threads[p].Clearing? || w.threads[p].CleanupUnlocking? || w.threads[p].CacheUnlocking?
    ensures Apply(w, step).entries == w.entries
  {
    if !step.Start? && Writes(w.threads[step.pid]) {
      OneWriter(w, p, step.pid);
    }
  }

  lemma CleanMoves(w: World, step: Step, p: nat, time: int)
    requires WriterOk(w) && Enabled(w, step) && CleanTold(w, p, time)
    ensures CleanTold(Apply(w, step), p, time)
  {
    Stays(w, step, p);
    if !step.Tick? && step.pid != p && !w.threads[p].CleanWaiting? && !w.threads[p].Done? {
      CleanerGuards(w, step, p);
    }
  }

  lemma {:induction false} CleanStory(run: seq<World>, i: nat, m: nat, p: nat)
    requires IsRun(run) && i <= m < |run| && p in run[i].threads && run[i].threads[p] == CleanWaiting
    ensures CleanTold(run[m], p, run[i].clock)
    decreases m
  {
    if i < m {
      CleanStory(run, i, m - 1, p);
      var step := StepOf(run, m - 1);
      RunInv(run, m - 1);
      CleanMoves(run[m - 1], step, p, run[i].clock);
    }
  }

  /** When a cleaner has scanned the map, no entry is left that had expired when it was spawned. */
  lemma CleanerRemovesExpired(run: seq<World>, i: nat, m: nat, p: nat, key: string)
    requires IsRun(run) && i <= m < |run| && p in run[i].threads && run[i].threads[p] == CleanWaiting
    requires p in run[m].threads && run[m].threads[p] == Clearing && key in run[m].entries
    ensures run[i].clock - run[m].entries[key].cachedTime < 300_000_000_000
  {
    CleanStory(run, i, m, p);
  }

  // ---------- A run in which a get hits and a later one misses ----------

  ghost predicate Reachable(w: World) {
    exists run: seq<World> :: IsRun(run) && run[|run| - 1] == w
  }

  lemma Reach(w: World, step: Step) returns (w': World)
    requires Reachable(w) && Enabled(w, step)
    ensures Reachable(w') && w' == Apply(w, step)
  {
    w' := Apply(w, step);
    var run: seq<World> :| IsRun(run) && run[|run| - 1] == w;
    var longer := run + [w'];
    assert Next(w, w');
    forall i, j | 0 <= i && j == i + 1 < |longer|
      ensures Next(longer[i], longer[j])
    {
      if j < |run| {
        assert Next(run[i], run[j]);
      }
    }
    assert longer[0] == run[0] && longer[|longer| - 1] == w';
    assert IsRun(longer);
  }

  lemma ReachWriting(key: string, output: string) returns (w: World)
    ensures Reachable(w) && w.threads == map[0 := SetWriting(key, output)] && w.entries == map[] && w.log == []
  {
    w := World(map[], [], 0, map[], None, {}, None, false);
    assert IsRun([w]);
    w := Reach(w, Start(0, SetWaiting(key, output)));
    w := Reach(w, Move(0));
  }

  lemma ReachSet(key: string, output: string) returns (w: World)
    ensures Reachable(w) && w.threads == map[0 := Done(None)] && w.writer == None
    ensures w.log == [SetEvent(key, CacheEntry(output, w.clock))] && w.entries == map[key := CacheEntry(output, w.clock)]
  {
    w := ReachWriting(key, output);
    w := Reach(w, Move(0));
    assert w.threads == map[0 := SetUnlocking(false)];
    w := Reach(w, Move(0));
  }

  lemma ReachGet(w: World, p: nat, key: string) returns (w': World)
    requires Reachable(w) && p !in w.threads && w.writer == None
    ensures Reachable(w') && w'.writer == None && w'.clock == w.clock && w'.log == w.log && w'.entries == w.entries
    ensures w'.threads == w.threads[p := Done(MapGet(w.entries, key, w.clock))]
  {
    w' := Reach(w, Start(p, GetWaiting(key)));
    w' := Reach(w', Move(p));
    w' := Reach(w', Move(p));
    w' := Reach(w', Move(p));
  }

  /** After a set, a get for the key hits, and one more than five minutes later misses. */
  lemma HitsAndMisses(key: string, output: string) returns (w: World)
    ensures Reachable(w) && |w.log| == 1 && w.log[0].key == key && w.log[0].entry.output == output
    ensures w.threads == map[0 := Done(None), 1 := Done(Some(output)), 2 := Done(None)]
  {
    w := ReachSet(key, output);
    w := ReachGet(w, 1, key);
    w := Reach(w, Tick(300_000_000_000));
    w := ReachGet(w, 2, key);
  }
}
