// What the invariant means for whole runs: the promises of the pipeline, stated over
// every reachable state and over the log of every run.
module Safety {
  import opened Prelude
  import Fifo
  import opened Protocol
  import opened Runs
  import H = History
  import opened Invariant
  import Cursors

  // However producer and workers interleave, and however often the pipeline was stopped
  // or crashed, an event has at most one active item, and that event is stored and locked.
  lemma MutualExclusion(cfg: Config, feed: seq<Event>, steps: seq<Step>, s: State)
    requires Proper(cfg) && Reached(cfg, feed, steps, s)
    ensures forall t1, t2 | t1 in s.flight && t2 in s.flight && Active(s.flight[t1]) && Active(s.flight[t2]) ::
              s.flight[t1].uid == s.flight[t2].uid ==> t1 == t2
    ensures forall t :: t in s.flight && Active(s.flight[t]) ==> Locked(s.store, s.flight[t].uid)
  {
    ReachedInv(cfg, feed, steps, s);
    forall t1, t2 | t1 in s.flight && t2 in s.flight && Active(s.flight[t1]) && Active(s.flight[t2]) &&
                    s.flight[t1].uid == s.flight[t2].uid
      ensures t1 == t2
    {
      assert ActiveAt(s.flight, t1, s.flight[t1].uid) && ActiveAt(s.flight, t2, s.flight[t1].uid);
    }
  }

  // A worker's storage calls always meet the event they are for, so none of them fails
  // with "not found", and the producer only ever locks an event that is unlocked.
  lemma StorageCallsFindTheirEvent(cfg: Config, feed: seq<Event>, steps: seq<Step>, s: State)
    requires Proper(cfg) && Reached(cfg, feed, steps, s)
    ensures Enabled(cfg, s, LockHead) ==> Fifo.Find(s.store, s.phase.todo[0].id) == Some(s.phase.todo[0]) && !s.phase.todo[0].locked
    ensures forall t :: (t in s.flight && (s.flight[t].at.Answered? || s.flight[t].at.Committed?)) ==> Fifo.Has(s.store, s.flight[t].uid)
  {
    ReachedInv(cfg, feed, steps, s);
    forall t | t in s.flight && (s.flight[t].at.Answered? || s.flight[t].at.Committed?)
      ensures Fifo.Has(s.store, s.flight[t].uid)
    {
      assert Backed(cfg, s.store, s.log, s.flight[t]);
    }
  }

  // ---- events the producer loses sight of

  // The step takes the work on event u away without unlocking or deleting u: `put` drops it
  // after an error, its delete fails, or the worker that holds it fails.
  ghost predicate Loses(s: State, step: Step, u: string) {
    match step
    case DropHead => s.phase.Holding? && s.phase.head.id == u
    case DeleteFails(t) => ActiveAt(s.flight, t, u)
    case Fail(t) => ActiveAt(s.flight, t, u)
    case _ => false
  }

  // The step begins a new run, or stores the event anew.
  ghost predicate Restores(cfg: Config, s: State, step: Step, u: string) {
    step.Start? || (step.PushNext? && s.phase.Pushing? && s.phase.batch != [] && s.phase.batch[0].uid == u &&
                    !Cursors.Refused(cfg, s, step))
  }

  // Some step lost the event and no later one restored it.
  ghost predicate LostInRun(cfg: Config, feed: seq<Event>, steps: seq<Step>, u: string)
    decreases |steps|
  {
    steps != [] &&
    var prior, step := steps[..|steps| - 1], steps[|steps| - 1];
    var p := Exec(cfg, Init(feed), prior);
    p.Some? && !Restores(cfg, p.value, step, u) && (Loses(p.value, step, u) || LostInRun(cfg, feed, prior, u))
  }

  lemma LostStep(cfg: Config, s: State, step: Step, u: string)
    requires Inv(cfg, s) && Enabled(cfg, s, step)
    ensures u in Apply(cfg, s, step).lost <==> !Restores(cfg, s, step, u) && (Loses(s, step, u) || u in s.lost)
  {
    if OfWorker(step) {
      WorkerLoses(cfg, s, step, u);
    }
  }

  lemma WorkerLoses(cfg: Config, s: State, step: Step, u: string)
    requires Inv(cfg, s) && Enabled(cfg, s, step) && OfWorker(step)
    ensures u in Apply(cfg, s, step).lost <==> Loses(s, step, u) || u in s.lost
  {
    if step.Commit? || step.Unlock? {
      assert Backed(cfg, s.store, s.log, s.flight[step.token]);
    }
  }

  lemma {:induction false} LostIs(cfg: Config, feed: seq<Event>, steps: seq<Step>, s: State, u: string)
    requires Proper(cfg) && Reached(cfg, feed, steps, s)
    ensures u in s.lost <==> LostInRun(cfg, feed, steps, u)
    decreases |steps|
  {
    if steps != [] {
      var prior := steps[..|steps| - 1];
      var p := Exec(cfg, Init(feed), prior).value;
      ReachedInv(cfg, feed, prior, p);
      LostIs(cfg, feed, prior, p, u);
      LostStep(cfg, p, steps[|steps| - 1], u);
    }
  }

  // While the producer is in its loop, a stored event that is locked, and not the one about
  // to be put, has no active item if and only if this run has lost it.
  lemma NoEventForgotten(cfg: Config, feed: seq<Event>, steps: seq<Step>, s: State, u: string)
    requires Proper(cfg) && Reached(cfg, feed, steps, s) && Serving(s.phase)
    ensures Locked(s.store, u) && !(s.phase.Holding? && s.phase.head.id == u) && (forall t :: !ActiveAt(s.flight, t, u))
            <==> LostInRun(cfg, feed, steps, u)
  {
    ReachedInv(cfg, feed, steps, s);
    LostIs(cfg, feed, steps, s, u);
    assert Abandoned(s.store, s.flight, s.phase, u) <==> u in s.lost;
  }

  // A worker may fail anywhere.  If it holds the event, the event stays stored and locked
  // without an item, while the producer goes on.
  lemma FailureLeavesLocked(cfg: Config, feed: seq<Event>, steps: seq<Step>, s: State, t: nat)
    requires Proper(cfg) && Reached(cfg, feed, steps, s) && t in s.flight && Active(s.flight[t])
    ensures var s' := Apply(cfg, s, Fail(t));
            var u := s.flight[t].uid;
            s'.phase == s.phase && Locked(s'.store, u) && u in s'.lost && forall t' :: !ActiveAt(s'.flight, t', u)
  {
    ReachedInv(cfg, feed, steps, s);
    var s' := Apply(cfg, s, Fail(t));
    var u := s.flight[t].uid;
    assert Backed(cfg, s.store, s.log, s.flight[t]) && ActiveAt(s.flight, t, u);
    forall t' ensures !ActiveAt(s'.flight, t', u) {
      assert ActiveAt(s'.flight, t', u) ==> ActiveAt(s.flight, t', u) && t' != t;
    }
  }

  // ---- resumption

  function Unlocks(us: seq<string>): (r: seq<Step>)
    ensures |r| == |us| && forall i :: 0 <= i < |us| ==> r[i] == UnlockOne(us[i])
  {
    if us == [] then [] else Unlocks(us[..|us| - 1]) + [UnlockOne(us[|us| - 1])]
  }

  lemma {:induction false} UnlockRun(cfg: Config, s: State, us: seq<string>)
    requires s.phase.Unlocking? && Exec(cfg, s, Unlocks(us)).Some?
    ensures var s' := Exec(cfg, s, Unlocks(us)).value;
            s' == s.(store := s'.store) && Fifo.AllUnlocked(s'.store) == Fifo.AllUnlocked(s.store)
  {
    if us != [] {
      var before := us[..|us| - 1];
      assert Unlocks(us)[..|us| - 1] == Unlocks(before);
      UnlockRun(cfg, s, before);
      Fifo.UnlockKeepsRest(Exec(cfg, s, Unlocks(before)).value.store, us[|us| - 1]);
    }
  }

  lemma Parts(cfg: Config, s: State, a: seq<Step>, b: seq<Step>)
    requires Exec(cfg, s, a + b).Some?
    ensures Exec(cfg, s, a).Some? && Exec(cfg, s, a + b) == Exec(cfg, Exec(cfg, s, a).value, b)
  {
    ExecPrefix(cfg, s, a, b);
    ExecAppend(cfg, s, a, b);
  }

  lemma ExecTwoParts(cfg: Config, s: State, a: Step, b: Step)
    requires Exec(cfg, s, [a] + [b]).Some?
    ensures Enabled(cfg, s, a) && Enabled(cfg, Apply(cfg, s, a), b)
    ensures Exec(cfg, s, [a] + [b]) == Some(Apply(cfg, Apply(cfg, s, a), b))
  {
    assert ([a] + [b])[..1] == [a] && [a][..0] == [];
    assert Exec(cfg, s, [a]).Some? && Exec(cfg, s, [a][..0]) == Some(s);
  }

  lemma Restart(cfg: Config, s: State, us: seq<string>, s': State)
    requires Exec(cfg, s, [EndRun] + [Start] + (Unlocks(us) + ([BeginLoop] + [Load]))) == Some(s')
    ensures s'.store == Fifo.AllUnlocked(s.store) && s'.log == s.log && s'.saved == s.saved
    ensures s'.phase.Injecting? && s'.phase.todo == Fifo.First(Fifo.AllUnlocked(s.store), 100)
  {
    Parts(cfg, s, [EndRun] + [Start], Unlocks(us) + ([BeginLoop] + [Load]));
    ExecTwoParts(cfg, s, EndRun, Start);
    var s1 := Exec(cfg, s, [EndRun] + [Start]).value;
    Parts(cfg, s1, Unlocks(us), [BeginLoop] + [Load]);
    UnlockRun(cfg, s1, us);
    var s2 := Exec(cfg, s1, Unlocks(us)).value;
    ExecTwoParts(cfg, s2, BeginLoop, Load);
    Fifo.AllOff(s2.store);
  }

  // Stop or crash anywhere, run again, unlock everything and load: the queue is what it
  // was, in the same order, and the first 100 events of it are about to be injected.  An
  // item that was active meets the very context it had, so that at most the answer of the
  // call in progress is lost.
  lemma ResumeAfterCrash(cfg: Config, feed: seq<Event>, steps: seq<Step>, s: State, us: seq<string>, s': State)
    requires Proper(cfg) && Reached(cfg, feed, steps, s)
    requires Exec(cfg, s, [EndRun] + [Start] + (Unlocks(us) + ([BeginLoop] + [Load]))) == Some(s')
    ensures s'.store == Fifo.AllUnlocked(s.store) && s'.log == s.log && s'.saved == s.saved
    ensures s'.phase.Injecting? && s'.phase.todo == Fifo.First(Fifo.AllUnlocked(s.store), 100)
    ensures forall t :: t in s.flight && Active(s.flight[t]) ==>
              Fifo.Has(s'.store, s.flight[t].uid) &&
              Reload(cfg, Fifo.Find(s'.store, s.flight[t].uid).value.context) == s.flight[t].context
  {
    ReachedInv(cfg, feed, steps, s);
    Restart(cfg, s, us, s');
    forall t | t in s.flight && Active(s.flight[t])
      ensures Fifo.Has(s'.store, s.flight[t].uid) &&
              Reload(cfg, Fifo.Find(s'.store, s.flight[t].uid).value.context) == s.flight[t].context
    {
      var item := s.flight[t];
      assert Backed(cfg, s.store, s.log, item);
      Fifo.UnlockedFind(s.store, item.uid);
      assert Explained(cfg, s.log, item.uid, item.context);
    }
  }

  // ---- stage order

  // The flags of a stored event form an initial segment that leaves out the last stage.
  lemma FlagsAreAPrefix(cfg: Config, feed: seq<Event>, steps: seq<Step>, s: State, u: string)
    requires Proper(cfg) && Reached(cfg, feed, steps, s) && Fifo.Has(s.store, u)
    ensures var c := Fifo.Find(s.store, u).value.context;
            && (forall i: nat, j: nat :: i < j < |cfg.names| && Flagged(cfg, c, j) ==> Flagged(cfg, c, i))
            && !Flagged(cfg, c, |cfg.names| - 1)
  {
    ReachedInv(cfg, feed, steps, s);
    assert Explained(cfg, s.log, u, Fifo.Find(s.store, u).value.context);
  }

  lemma {:induction false} LogGrows(cfg: Config, s: State, steps: seq<Step>)
    requires Exec(cfg, s, steps).Some?
    ensures s.log <= Exec(cfg, s, steps).value.log
  {
    if steps != [] {
      var prior := steps[..|steps| - 1];
      LogGrows(cfg, s, prior);
      Cursors.StepGrows(cfg, Exec(cfg, s, prior).value, steps[|steps| - 1]);
    }
  }

  // From one state of a run to any later one a flag that is set stays set, unless the
  // event was deleted and pushed again in between.
  lemma FlagsNeverReset(cfg: Config, feed: seq<Event>, steps: seq<Step>, s: State, more: seq<Step>, s': State, u: string, i: nat)
    requires Proper(cfg) && Reached(cfg, feed, steps, s) && Reached(cfg, feed, steps + more, s')
    requires Fifo.Has(s.store, u) && Fifo.Has(s'.store, u) && i < |cfg.names|
    requires Flagged(cfg, Fifo.Find(s.store, u).value.context, i)
    requires forall m :: |s.log| <= m < |s'.log| ==> s'.log[m] != Pushed(u)
    ensures Flagged(cfg, Fifo.Find(s'.store, u).value.context, i)
  {
    ReachedInv(cfg, feed, steps, s);
    ReachedInv(cfg, feed, steps + more, s');
    Parts(cfg, Init(feed), steps, more);
    LogGrows(cfg, s, more);
    assert s'.log[..|s.log|] == s.log;
    H.LevelGrows(|cfg.names|, s'.log, u, |s.log|);
    assert Explained(cfg, s.log, u, Fifo.Find(s.store, u).value.context);
    assert Explained(cfg, s'.log, u, Fifo.Find(s'.store, u).value.context);
  }

  // A stage that an event has completed is never called again for it, in this run or after
  // any restart, unless the event was pushed anew in between.
  lemma CompletedStageNotRecalled(cfg: Config, feed: seq<Event>, steps: seq<Step>, s: State, i: nat, j: nat)
    requires Proper(cfg) && Reached(cfg, feed, steps, s) && i < j < |s.log|
    requires s.log[i].Stored? && s.log[i].processed
    requires s.log[j].Called? && s.log[j].uid == s.log[i].uid && s.log[j].stage <= s.log[i].stage
    ensures exists m :: i < m < j && s.log[m] == Pushed(s.log[i].uid)
  {
    ReachedInv(cfg, feed, steps, s);
    H.NoRerun(|cfg.names|, s.log, i, j);
  }

  // A stage is called only for an event that has completed every earlier stage since it
  // was pushed.
  lemma CalledInOrder(cfg: Config, feed: seq<Event>, steps: seq<Step>, s: State, j: nat, k: nat)
    requires Proper(cfg) && Reached(cfg, feed, steps, s)
    requires j < |s.log| && s.log[j].Called? && k < s.log[j].stage
    ensures exists i :: 0 <= i < j && s.log[i].Stored? && s.log[i].uid == s.log[j].uid && s.log[i].stage == k && s.log[i].processed &&
                        forall m :: i <= m < j ==> s.log[m] != Pushed(s.log[j].uid)
  {
    ReachedInv(cfg, feed, steps, s);
    var i := H.CalledInOrder(|cfg.names|, s.log, j, k);
  }

  // A stage is given the pipeline context the event last stored, by this run or an
  // earlier one, and an empty one if nothing was stored since the event was pushed.
  lemma StageSeesLastContext(cfg: Config, feed: seq<Event>, steps: seq<Step>, s: State, j: nat)
    requires Proper(cfg) && Reached(cfg, feed, steps, s) && j < |s.log| && s.log[j].Called?
    ensures var u := s.log[j].uid;
            || (s.log[j].input == EMPTY_MAP && H.Memo(s.log[..j], u).None?)
            || exists i :: 0 <= i < j && s.log[i].Stored? && s.log[i].uid == u && s.log[j].input == s.log[i].pipeline &&
                 forall m :: i < m < j ==> s.log[m] != Pushed(u) && !(s.log[m].Stored? && s.log[m].uid == u)
  {
    ReachedInv(cfg, feed, steps, s);
    H.LegalAt(|cfg.names|, s.log, j);
    var u := s.log[j].uid;
    if H.Memo(s.log[..j], u).Some? {
      var i := H.MemoWitness(s.log[..j], u);
      forall m | i < m < j ensures s.log[m] != Pushed(u) && !(s.log[m].Stored? && s.log[m].uid == u) {
        assert s.log[..j][m] == s.log[m];
      }
    }
  }

  // ---- conservation

  // `i` is where the event left for good: the stage that was called last asked for its
  // removal, or it was the last stage.
  ghost predicate LeftAt(n: nat, log: H.Log, u: string, i: nat) {
    && i < |log| && log[i].Deleted? && log[i].uid == u
    && (forall m :: i < m < |log| ==> log[m].uid != u)
    && (exists c :: 0 <= c < i && log[c].Called? && log[c].uid == u && log[c].stage == log[i].stage && forall m :: c < m < i ==> log[m].uid != u)
    && (!log[i].removed ==> log[i].stage + 1 == n && forall k: nat :: k + 1 < n ==> CompletedBefore(log, u, k, i))
  }

  // Stage k was stored as processed before position i, after the last push before i.
  ghost predicate CompletedBefore(log: H.Log, u: string, k: nat, i: nat)
    requires i < |log|
  {
    exists c :: 0 <= c < i && log[c].Stored? && log[c].uid == u && log[c].stage == k && log[c].processed &&
                forall m :: c <= m < i ==> log[m] != Pushed(u)
  }

  // Every event ever pushed is stored, or a stage removed it, or it went through all
  // stages: no retry, no passthrough, no failure and no crash drops one.
  lemma Conservation(cfg: Config, feed: seq<Event>, steps: seq<Step>, s: State, u: string)
    requires Proper(cfg) && Reached(cfg, feed, steps, s) && H.EverPushed(s.log, u)
    ensures Fifo.Has(s.store, u) || exists i :: LeftAt(|cfg.names|, s.log, u, i)
  {
    ReachedInv(cfg, feed, steps, s);
    var n, log := |cfg.names|, s.log;
    if !Fifo.Has(s.store, u) {
      var i := H.DeletedWitness(n, log, u);
      H.LegalAt(n, log, i);
      var before := log[..i];
      var c := H.CallWitness(before, u, log[i].stage);
      forall m | c < m < i ensures log[m].uid != u {
        assert before[m] == log[m];
      }
      if !log[i].removed {
        forall k: nat | k + 1 < n ensures CompletedBefore(log, u, k, i) {
          var w := H.StoredWitness(n, before, u, k);
          forall m | w <= m < i ensures log[m] != Pushed(u) {
            assert before[m] == log[m];
          }
        }
      }
      assert LeftAt(n, log, u, i);
    }
  }

  // ---- a repeated event in memory

  // SQLite refuses an event that is still stored; the memory back end replaces it and
  // clears its lock.  Doing so keeps the locks of active items, and with them the whole
  // invariant, exactly when no item of that event is active.
  lemma MemoryOverwrite(cfg: Config, s: State)
    requires Proper(cfg) && cfg.backend.Memory? && Inv(cfg, s) && Enabled(cfg, s, PushNext)
    ensures (forall t :: t in s.flight && Active(s.flight[t]) ==> Locked(Apply(cfg, s, PushNext).store, s.flight[t].uid))
            <==> Calm(s, PushNext)
    ensures Inv(cfg, Apply(cfg, s, PushNext)) <==> Calm(s, PushNext)
  {
    var u := s.phase.batch[0].uid;
    var s' := Apply(cfg, s, PushNext);
    assert !Locked(s'.store, u);
    if Calm(s, PushNext) {
      PushNextInv(cfg, s);
      forall t | t in s'.flight && Active(s'.flight[t]) ensures Locked(s'.store, s'.flight[t].uid) {
        assert Backed(cfg, s'.store, s'.log, s'.flight[t]);
      }
    } else {
      var t :| t in s.flight && Active(s.flight[t]) && s.flight[t].uid == u;
      assert !Backed(cfg, s'.store, s'.log, s'.flight[t]);
    }
  }
}
