// What becomes of a stage's answer: what is stored, handed on, and given to the next stage,
// in every run.
module Contents {
  import opened Prelude
  import Fifo
  import opened Protocol
  import opened Runs
  import H = History
  import opened Invariant
  import Cursors
  import S = Safety

  // A step of the worker that holds this token.
  predicate ActsOn(step: Step, t: nat) {
    OfWorker(step) && step.token == t
  }

  ghost predicate LeavesAlone(steps: seq<Step>, t: nat) {
    forall i :: 0 <= i < |steps| ==> !ActsOn(steps[i], t)
  }

  // The item stays as it is, or goes when the run ends.
  ghost predicate Same(s: State, r: State, t: nat) {
    t < r.next && (t in r.flight ==> t in s.flight && r.flight[t] == s.flight[t])
  }

  lemma StepLeaves(cfg: Config, s: State, step: Step, t: nat)
    requires Enabled(cfg, s, step) && !ActsOn(step, t) && t < s.next
    ensures Same(s, Apply(cfg, s, step), t)
  {
    if OfWorker(step) {
      WorkerLeaves(cfg, s, step, t);
    }
  }

  lemma WorkerLeaves(cfg: Config, s: State, step: Step, t: nat)
    requires Enabled(cfg, s, step) && OfWorker(step) && step.token != t && t < s.next
    ensures Same(s, Apply(cfg, s, step), t)
  {
  }

  lemma {:induction false} OthersLeave(cfg: Config, s: State, mid: seq<Step>, t: nat)
    requires Exec(cfg, s, mid).Some? && LeavesAlone(mid, t) && t < s.next
    ensures Same(s, Exec(cfg, s, mid).value, t)
  {
    if mid != [] {
      var prior := mid[..|mid| - 1];
      OthersLeave(cfg, s, prior, t);
      StepLeaves(cfg, Exec(cfg, s, prior).value, mid[|mid| - 1], t);
    }
  }

  // The stage of item t was called in state p and answered a, nothing else has happened to the
  // item since, and this is the state now.
  ghost predicate Answers(cfg: Config, feed: seq<Event>, pre: seq<Step>, p: State, t: nat, a: Answer, mid: seq<Step>, s: State) {
    Proper(cfg) && Reached(cfg, feed, pre, p) && Enabled(cfg, p, Call(t, a)) &&
    Reached(cfg, feed, pre + [Call(t, a)] + mid, s) && LeavesAlone(mid, t)
  }

  lemma StillAnswered(cfg: Config, feed: seq<Event>, pre: seq<Step>, p: State, t: nat, a: Answer, mid: seq<Step>, s: State)
    requires Answers(cfg, feed, pre, p, t, a, mid, s)
    ensures Inv(cfg, s) && (t in s.flight ==> s.flight[t] == p.flight[t].(at := Answered(a)))
    ensures t in s.flight ==> Locked(s.store, p.flight[t].uid) && p.flight[t].stage < |cfg.names|
  {
    ReachedInv(cfg, feed, pre, p);
    ReachedInv(cfg, feed, pre + [Call(t, a)] + mid, s);
    ExecMore(cfg, Init(feed), pre, Call(t, a));
    ExecPrefix(cfg, Init(feed), pre + [Call(t, a)], mid);
    ExecAppend(cfg, Init(feed), pre + [Call(t, a)], mid);
    OthersLeave(cfg, Apply(cfg, p, Call(t, a)), mid, t);
    if t in s.flight {
      assert Backed(cfg, s.store, s.log, s.flight[t]);
    }
  }

  // Removal, or completion by the last stage: the event can only be deleted, or stay as it is
  // if the delete or the worker fails.  Any other answer is stored.
  lemma AnswerDecides(cfg: Config, feed: seq<Event>, pre: seq<Step>, p: State, t: nat, a: Answer, mid: seq<Step>, s: State)
    requires Answers(cfg, feed, pre, p, t, a, mid, s) && t in s.flight
    ensures var leaves := a.remove || (a.processed && p.flight[t].stage == |cfg.names| - 1);
            && (Enabled(cfg, s, Delete(t)) <==> leaves) && (Enabled(cfg, s, DeleteFails(t)) <==> leaves)
            && (Enabled(cfg, s, Commit(t)) <==> !leaves)
    ensures !Enabled(cfg, s, Unlock(t)) && !Enabled(cfg, s, Pass(t)) && !Enabled(cfg, s, Skip(t))
  {
    StillAnswered(cfg, feed, pre, p, t, a, mid, s);
    Decides(cfg, s, t, a);
  }

  lemma Decides(cfg: Config, s: State, t: nat, a: Answer)
    requires t in s.flight && s.flight[t].at == Answered(a) && s.flight[t].stage < |cfg.names|
    ensures var leaves := a.remove || (a.processed && s.flight[t].stage == |cfg.names| - 1);
            && (Enabled(cfg, s, Delete(t)) <==> leaves) && (Enabled(cfg, s, DeleteFails(t)) <==> leaves)
            && (Enabled(cfg, s, Commit(t)) <==> !leaves)
    ensures !Enabled(cfg, s, Unlock(t)) && !Enabled(cfg, s, Pass(t)) && !Enabled(cfg, s, Skip(t))
  {
  }

  // A delete takes the event out, or leaves the store as it is.
  lemma DeleteTakesOut(cfg: Config, s: State, t: nat)
    requires Enabled(cfg, s, Delete(t))
    ensures !Fifo.Has(Apply(cfg, s, Delete(t)).store, s.flight[t].uid)
    ensures forall v :: v != s.flight[t].uid ==> Fifo.Find(Apply(cfg, s, Delete(t)).store, v) == Fifo.Find(s.store, v)
    ensures Apply(cfg, s, DeleteFails(t)).store == s.store
  {
  }

  // The stored event once the answer of stage k is written down: the body the stage gave or
  // else the one it was given, the pipeline context it gave or else an empty one, and the flag.
  ghost predicate Holds(cfg: Config, given: Item, a: Answer, e: Record)
    requires given.stage < |cfg.names|
  {
    && (a.body.Some? ==> e.data == a.body.value) && (a.body.None? ==> e.data == given.body)
    && (a.pipeline.Some? ==> e.context.pipeline == Some(cfg.recodeContext(a.pipeline.value)))
    && (a.pipeline.None? ==> e.context.pipeline == Some(cfg.recodeContext(EMPTY_MAP)))
    && e.context.flags == given.context.flags[cfg.names[given.stage] := a.processed]
  }

  // A commit stores the answer and hands it on: to the next stage if the stage has completed
  // the event, and otherwise to the unlock.
  lemma AnswerIsStored(cfg: Config, feed: seq<Event>, pre: seq<Step>, p: State, t: nat, a: Answer, mid: seq<Step>, s: State)
    requires Answers(cfg, feed, pre, p, t, a, mid, s) && Enabled(cfg, s, Commit(t))
    ensures var given, r := p.flight[t], Apply(cfg, s, Commit(t));
            given.stage < |cfg.names| && Locked(r.store, given.uid) &&
            var e := Fifo.Find(r.store, given.uid).value;
            && Holds(cfg, given, a, e)
            && r.log == s.log + [Stored(given.uid, given.stage, a.processed, e.context.pipeline.value)]
            && t in r.flight && r.flight[t].uid == given.uid && r.flight[t].body == e.data && r.flight[t].context == e.context
            && (if a.processed then r.flight[t].at == Waiting && r.flight[t].stage == given.stage + 1
                else r.flight[t].at == Committed && r.flight[t].stage == given.stage)
    ensures forall v :: v != p.flight[t].uid ==> Fifo.Find(Apply(cfg, s, Commit(t)).store, v) == Fifo.Find(s.store, v)
  {
    StillAnswered(cfg, feed, pre, p, t, a, mid, s);
  }

  // An unlock leaves the event as it is stored, for the next load.
  lemma UnlockReleases(cfg: Config, feed: seq<Event>, steps: seq<Step>, s: State, t: nat)
    requires Proper(cfg) && Reached(cfg, feed, steps, s) && Enabled(cfg, s, Unlock(t))
    ensures var u, r := s.flight[t].uid, Apply(cfg, s, Unlock(t));
            Fifo.Has(s.store, u) && Fifo.Find(r.store, u) == Some(Fifo.Find(s.store, u).value.(locked := false)) &&
            (t in r.flight ==> r.flight[t].at == Passing)
  {
    ReachedInv(cfg, feed, steps, s);
    assert Backed(cfg, s.store, s.log, s.flight[t]);
  }

  // The next call for the event, in this run or a later one, gets the context of the answer.
  lemma NextCallSeesAnswer(cfg: Config, feed: seq<Event>, pre: seq<Step>, p: State, t: nat, a: Answer, mid: seq<Step>, s: State,
                           more: seq<Step>, r: State, j: nat)
    requires Answers(cfg, feed, pre, p, t, a, mid, s) && Enabled(cfg, s, Commit(t))
    requires Reached(cfg, feed, pre + [Call(t, a)] + mid + [Commit(t)] + more, r)
    requires |s.log| < j < |r.log| && r.log[j].Called? && r.log[j].uid == p.flight[t].uid
    requires forall m :: |s.log| < m < j ==> r.log[m] != Pushed(p.flight[t].uid) && !(r.log[m].Stored? && r.log[m].uid == p.flight[t].uid)
    ensures a.pipeline.Some? ==> r.log[j].input == cfg.recodeContext(a.pipeline.value)
    ensures a.pipeline.None? ==> r.log[j].input == cfg.recodeContext(EMPTY_MAP)
  {
    var before, last := pre + [Call(t, a)] + mid, |s.log|;
    var c := Apply(cfg, s, Commit(t));
    var u := LogsAnswer(cfg, feed, pre, p, t, a, mid, s);
    ExecMore(cfg, Init(feed), before, Commit(t));
    LogGoesOn(cfg, Init(feed), before + [Commit(t)], c, more, r);
    ReachedInv(cfg, feed, before + [Commit(t)] + more, r);
    InputIsStored(|cfg.names|, c.log, r.log, u, last, j);
  }

  lemma LogsAnswer(cfg: Config, feed: seq<Event>, pre: seq<Step>, p: State, t: nat, a: Answer, mid: seq<Step>, s: State) returns (u: string)
    requires Answers(cfg, feed, pre, p, t, a, mid, s) && Enabled(cfg, s, Commit(t))
    ensures u == p.flight[t].uid
    ensures var log := Apply(cfg, s, Commit(t)).log;
            |log| == |s.log| + 1 && log[|s.log|].Stored? && log[|s.log|].uid == u &&
            log[|s.log|].pipeline == cfg.recodeContext(if a.pipeline.Some? then a.pipeline.value else EMPTY_MAP)
  {
    u := p.flight[t].uid;
    AnswerIsStored(cfg, feed, pre, p, t, a, mid, s);
  }

  lemma InputIsStored(n: nat, before: H.Log, log: H.Log, u: string, i: nat, j: nat)
    requires before <= log && H.Legal(n, log) && i < |before| && i < j < |log|
    requires before[i].Stored? && before[i].uid == u && log[j].Called? && log[j].uid == u
    requires forall m :: i < m < j ==> log[m] != Pushed(u) && !(log[m].Stored? && log[m].uid == u)
    ensures log[j].input == before[i].pipeline
  {
    H.LegalAt(n, log, j);
    MemoIsStored(log, u, i, j);
  }

  lemma LogGoesOn(cfg: Config, s: State, steps: seq<Step>, c: State, more: seq<Step>, r: State)
    requires Exec(cfg, s, steps) == Some(c) && Exec(cfg, s, steps + more) == Some(r)
    ensures c.log <= r.log
  {
    ExecAppend(cfg, s, steps, more);
    S.LogGrows(cfg, c, more);
  }

  // A stored context is there to be given until the event is pushed anew.
  lemma {:induction false} MemoIsStored(log: H.Log, u: string, i: nat, j: nat)
    requires i < j <= |log| && log[i].Stored? && log[i].uid == u
    requires forall m :: i < m < j ==> log[m] != Pushed(u) && !(log[m].Stored? && log[m].uid == u)
    ensures H.Memo(log[..j], u) == Some(log[i].pipeline)
    decreases j
  {
    assert H.Last(log[..j]) == log[j - 1] && H.Prior(log[..j]) == log[..j - 1];
    if j > i + 1 {
      MemoIsStored(log, u, i, j - 1);
    }
  }

  // ---- what the producer takes from storage

  // A context comes back from storage with its pipeline context recoded, and with its flags.
  lemma ReloadIs(cfg: Config, c: Context)
    ensures Reload(cfg, c).flags == c.flags
    ensures c.pipeline.None? ==> Reload(cfg, c).pipeline == None
    ensures c.pipeline.Some? ==> Reload(cfg, c).pipeline == Some(cfg.recodeContext(c.pipeline.value))
  {
  }

  // A loaded event is put in front of the first stage with the body and context that are
  // stored for it, as they come back from storage.
  lemma PutShowsStored(cfg: Config, feed: seq<Event>, steps: seq<Step>, s: State)
    requires Proper(cfg) && Reached(cfg, feed, steps, s) && Enabled(cfg, s, PutHead)
    ensures var u, r := s.phase.head.id, Apply(cfg, s, PutHead);
            Locked(s.store, u) && r.store == s.store && s.next in r.flight &&
            var e, item := Fifo.Find(s.store, u).value, r.flight[s.next];
            && item.uid == u && item.body == cfg.recodeBody(e.data) && item.stage == 0 && item.at == Waiting
            && item.context.flags == e.context.flags && item.context.pipeline == e.context.pipeline
            && forall t :: t in s.flight ==> t in r.flight && r.flight[t] == s.flight[t]
  {
    ReachedInv(cfg, feed, steps, s);
    assert Explained(cfg, s.log, s.phase.head.id, Fifo.Find(s.store, s.phase.head.id).value.context);
  }

  // Loading takes the unlocked events in the order of their pushes, up to 100 of them: an event
  // is taken if and only if it is unlocked and has fewer than 100 unlocked ones before it.
  lemma LoadTakesUnlocked(cfg: Config, feed: seq<Event>, steps: seq<Step>, s: State, i: nat)
    requires Proper(cfg) && Reached(cfg, feed, steps, s) && Enabled(cfg, s, Load) && i < |s.store|
    ensures var todo := Apply(cfg, s, Load).phase.todo;
            |todo| <= 100 &&
            (s.store[i] in todo <==> !s.store[i].locked && Fifo.Rank(s.store, false, i) < 100) &&
            (s.store[i] in todo ==> Fifo.Rank(s.store, false, i) < |todo| && todo[Fifo.Rank(s.store, false, i)] == s.store[i])
  {
    ReachedInv(cfg, feed, steps, s);
    Fifo.ListingExactly(s.store, false, 100, i);
  }
}
