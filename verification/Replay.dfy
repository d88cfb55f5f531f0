// When an event is pushed, and goes through the stages, a second time.
module Replay {
  import opened Prelude
  import Fifo
  import opened Protocol
  import opened Runs
  import H = History
  import opened Invariant
  import opened Cursors
  import opened Drive
  import S = Safety

  ghost predicate DistinctFeed(feed: seq<Event>) {
    forall i, j :: 0 <= i < j < |feed| ==> feed[i].uid != feed[j].uid
  }

  // ---- only an interrupted batch is pushed again

  // The event was fetched at or after the stored cursor, and pushed.
  ghost predicate Uncovered(cfg: Config, s: State, u: string) {
    var at := Reading(cfg, s.phase);
    at.Some? && exists q :: Resume(cfg, s) <= q < at.value && q < |s.feed| && s.feed[q].uid == u
  }

  // The step gives up a batch of which the event was already pushed, or begins to read
  // without looking at the stored cursor.
  ghost predicate Interrupts(cfg: Config, s: State, step: Step, u: string) {
    Enabled(cfg, s, step) &&
    ((s.phase.Pushing? && !step.SaveCursor? && !Apply(cfg, s, step).phase.Pushing? && Uncovered(cfg, s, u)) ||
     (step.BeginUnread? && s.saved.Some?))
  }

  ghost predicate Interrupted(cfg: Config, feed: seq<Event>, steps: seq<Step>, u: string)
    decreases |steps|
  {
    steps != [] &&
    var prior := steps[..|steps| - 1];
    (Interrupted(cfg, feed, prior, u) ||
     (Exec(cfg, Init(feed), prior).Some? && Interrupts(cfg, Exec(cfg, Init(feed), prior).value, steps[|steps| - 1], u)))
  }

  // An event that was pushed and not interrupted lies behind the reading position, and
  // behind the stored cursor too unless its batch is being pushed.
  ghost predicate Behind(cfg: Config, s: State, q: nat) {
    var at := Reading(cfg, s.phase);
    (at.Some? ==> q < at.value) && (s.phase.Pushing? || q < Resume(cfg, s))
  }

  ghost predicate Inv2(cfg: Config, feed: seq<Event>, steps: seq<Step>, s: State) {
    && Slice(s)
    && (forall u :: H.EverPushed(s.log, u) ==> exists q :: 0 <= q < |s.feed| && s.feed[q].uid == u)
    && (s.saved.None? ==> forall u :: !H.EverPushed(s.log, u))
    && forall q: nat :: PushedAt(s, q) ==> Interrupted(cfg, feed, steps, s.feed[q].uid) || Behind(cfg, s, q)
  }

  lemma Later(cfg: Config, feed: seq<Event>, prior: seq<Step>, p: State, step: Step, u: string)
    requires Exec(cfg, Init(feed), prior) == Some(p)
    ensures Interrupted(cfg, feed, prior + [step], u) <==> Interrupted(cfg, feed, prior, u) || Interrupts(cfg, p, step, u)
  {
    assert (prior + [step])[..|prior|] == prior;
  }

  // What was pushed before the step was in the feed before it.
  lemma WasPushedAt(cfg: Config, feed: seq<Event>, prior: seq<Step>, p: State, s: State, q: nat)
    requires Inv2(cfg, feed, prior, p) && p.feed <= s.feed && DistinctFeed(s.feed)
    requires q < |s.feed| && H.EverPushed(p.log, s.feed[q].uid)
    ensures PushedAt(p, q)
  {
    var q0 :| 0 <= q0 < |p.feed| && p.feed[q0].uid == s.feed[q].uid;
    assert s.feed[q0] == p.feed[q0];
  }

  lemma PushKeeps(cfg: Config, feed: seq<Event>, prior: seq<Step>, p: State, step: Step, s: State)
    requires Inv2(cfg, feed, prior, p) && Exec(cfg, Init(feed), prior) == Some(p)
    requires Pushes(cfg, p, s) && Slice(s) && DistinctFeed(s.feed)
    ensures Inv2(cfg, feed, prior + [step], s)
  {
    var at := Reading(cfg, p.phase).value;
    forall q: nat | PushedAt(s, q)
      ensures Interrupted(cfg, feed, prior + [step], s.feed[q].uid) || Behind(cfg, s, q)
    {
      Later(cfg, feed, prior, p, step, s.feed[q].uid);
      if H.EverPushed(p.log, s.feed[q].uid) {
        assert PushedAt(p, q);
      } else {
        assert s.feed[q].uid == s.feed[at].uid;
      }
    }
    forall u | H.EverPushed(s.log, u) ensures exists q :: 0 <= q < |s.feed| && s.feed[q].uid == u {
      if !H.EverPushed(p.log, u) {
        assert s.feed[at].uid == u;
      }
    }
  }

  lemma SaveKeeps(cfg: Config, feed: seq<Event>, prior: seq<Step>, p: State, step: Step, s: State)
    requires Inv2(cfg, feed, prior, p) && Exec(cfg, Init(feed), prior) == Some(p)
    requires Saves(cfg, p, s) && Slice(s)
    ensures Inv2(cfg, feed, prior + [step], s)
  {
    forall q: nat | PushedAt(s, q)
      ensures Interrupted(cfg, feed, prior + [step], s.feed[q].uid) || Behind(cfg, s, q)
    {
      Later(cfg, feed, prior, p, step, s.feed[q].uid);
      assert PushedAt(p, q);
    }
  }

  lemma StayKeeps(cfg: Config, feed: seq<Event>, prior: seq<Step>, p: State, step: Step, s: State)
    requires Inv2(cfg, feed, prior, p) && Exec(cfg, Init(feed), prior) == Some(p)
    requires Enabled(cfg, p, step) && s == Apply(cfg, p, step) && !step.SaveCursor?
    requires Stays(cfg, p, step, s) && Slice(s) && DistinctFeed(s.feed)
    ensures Inv2(cfg, feed, prior + [step], s)
  {
    forall q: nat | PushedAt(s, q)
      ensures Interrupted(cfg, feed, prior + [step], s.feed[q].uid) || Behind(cfg, s, q)
    {
      Later(cfg, feed, prior, p, step, s.feed[q].uid);
      WasPushedAt(cfg, feed, prior, p, s, q);
      assert s.feed[q] == p.feed[q];
      if !Interrupted(cfg, feed, prior, p.feed[q].uid) {
        StayBehind(cfg, p, step, s, q);
      }
    }
    forall u | H.EverPushed(s.log, u) ensures exists q :: 0 <= q < |s.feed| && s.feed[q].uid == u {
      var q :| 0 <= q < |p.feed| && p.feed[q].uid == u;
      assert s.feed[q].uid == u;
    }
  }

  lemma StayBehind(cfg: Config, p: State, step: Step, s: State, q: nat)
    requires Enabled(cfg, p, step) && s == Apply(cfg, p, step) && !step.SaveCursor? && Slice(p)
    requires Stays(cfg, p, step, s) && q < |p.feed| && Behind(cfg, p, q) && p.saved.Some?
    ensures Behind(cfg, s, q) || Interrupts(cfg, p, step, p.feed[q].uid)
  {
    if p.phase.Pushing? && !s.phase.Pushing? && q >= Resume(cfg, p) {
      assert Uncovered(cfg, p, p.feed[q].uid);
    }
  }

  lemma {:induction false} RunInv2(cfg: Config, feed: seq<Event>, steps: seq<Step>, s: State)
    requires Exec(cfg, Init(feed), steps) == Some(s) && DistinctFeed(s.feed)
    ensures Inv2(cfg, feed, steps, s)
    decreases |steps|
  {
    if steps != [] {
      var prior := steps[..|steps| - 1];
      var step := steps[|steps| - 1];
      var p := Exec(cfg, Init(feed), prior).value;
      SliceRun(cfg, feed, prior, p);
      StepMoves(cfg, p, step);
      RunInv2(cfg, feed, prior, p);
      assert steps == prior + [step];
      if step.PushNext? && !Refused(cfg, p, step) {
        PushKeeps(cfg, feed, prior, p, step, s);
      } else if step.SaveCursor? {
        SaveKeeps(cfg, feed, prior, p, step, s);
      } else {
        StayKeeps(cfg, feed, prior, p, step, s);
      }
    }
  }

  // The step that pushes an event for the second time follows an interruption of its batch.
  lemma RepeatedPush(cfg: Config, feed: seq<Event>, steps: seq<Step>, s: State, u: string)
    requires Exec(cfg, Init(feed), steps) == Some(s) && DistinctFeed(s.feed)
    requires Enabled(cfg, s, PushNext) && s.phase.batch[0].uid == u && H.EverPushed(s.log, u)
    ensures Interrupted(cfg, feed, steps, u)
  {
    RunInv2(cfg, feed, steps, s);
    NextIsNotBehind(cfg, feed, steps, s);
  }

  lemma NextIsNotBehind(cfg: Config, feed: seq<Event>, steps: seq<Step>, s: State)
    requires Inv2(cfg, feed, steps, s) && s.phase.Pushing? && s.phase.batch != [] && H.EverPushed(s.log, s.phase.batch[0].uid)
    ensures Interrupted(cfg, feed, steps, s.phase.batch[0].uid)
  {
    var at := Reading(cfg, s.phase).value;
    assert s.feed[at] == s.phase.batch[0];
    assert PushedAt(s, at) && !Behind(cfg, s, at);
  }

  // Over a feed of distinct events, an event that was pushed twice was in a batch that was
  // given up after it was pushed, or the stored cursor was not read.
  lemma {:induction false} PushedTwiceWasInterrupted(cfg: Config, feed: seq<Event>, steps: seq<Step>, s: State, i: nat, j: nat)
    requires Exec(cfg, Init(feed), steps) == Some(s) && DistinctFeed(s.feed)
    requires i < j < |s.log| && s.log[i].Pushed? && s.log[j] == s.log[i]
    ensures Interrupted(cfg, feed, steps, s.log[i].uid)
    decreases |steps|
  {
    var u := s.log[i].uid;
    var prior := steps[..|steps| - 1];
    var step := steps[|steps| - 1];
    var p := Exec(cfg, Init(feed), prior).value;
    StepGrows(cfg, p, step);
    assert DistinctFeed(p.feed);
    if j < |p.log| {
      assert p.log[i] == s.log[i] && p.log[j] == s.log[j];
      PushedTwiceWasInterrupted(cfg, feed, prior, p, i, j);
    } else {
      assert p.log[i] == Pushed(u);
      RepeatedPush(cfg, feed, prior, p, u);
    }
  }

  // Only a push that an interruption made a repeated one can be refused.
  lemma RefusedWasInterrupted(cfg: Config, feed: seq<Event>, steps: seq<Step>, s: State)
    requires Proper(cfg) && Reached(cfg, feed, steps, s) && DistinctFeed(s.feed) && Refused(cfg, s, PushNext)
    ensures Interrupted(cfg, feed, steps, s.phase.batch[0].uid)
  {
    ReachedInv(cfg, feed, steps, s);
    AliveWasPushed(s.log, s.phase.batch[0].uid);
    RepeatedPush(cfg, feed, steps, s, s.phase.batch[0].uid);
  }

  lemma {:induction false} AliveWasPushed(log: H.Log, u: string)
    requires exists n :: H.Legal(n, log)
    requires H.Alive(log, u)
    ensures H.EverPushed(log, u)
  {
    var n :| H.Legal(n, log);
    var prior := H.Prior(log);
    assert H.MayFollow(n, prior, H.Last(log));
    if H.Last(log) != Pushed(u) {
      assert H.Legal(n, prior);
      AliveWasPushed(prior, u);
      var i :| 0 <= i < |prior| && prior[i] == Pushed(u);
      assert log[i] == Pushed(u);
    } else {
      assert log[|log| - 1] == Pushed(u);
    }
  }

  // ---- without interruption

  // No run stops or ends while it is pushing a batch, and none begins without its cursor.
  ghost predicate Smooth(cfg: Config, feed: seq<Event>, steps: seq<Step>)
    decreases |steps|
  {
    steps == [] ||
    var prior := steps[..|steps| - 1];
    var step := steps[|steps| - 1];
    (Smooth(cfg, feed, prior) && !step.BeginUnread? &&
     (Exec(cfg, Init(feed), prior).Some? && (step.Stop? || step.EndRun?) ==>
       !Exec(cfg, Init(feed), prior).value.phase.Pushing?))
  }

  lemma {:induction false} SmoothIsNotInterrupted(cfg: Config, feed: seq<Event>, steps: seq<Step>, s: State)
    requires Proper(cfg) && Exec(cfg, Init(feed), steps) == Some(s) && DistinctFeed(s.feed) && Smooth(cfg, feed, steps)
    ensures CalmRun(cfg, Init(feed), steps) && forall u :: !Interrupted(cfg, feed, steps, u)
    decreases |steps|
  {
    if steps != [] {
      var prior := steps[..|steps| - 1];
      var step := steps[|steps| - 1];
      var p := Exec(cfg, Init(feed), prior).value;
      SliceRun(cfg, feed, prior, p);
      StepMoves(cfg, p, step);
      SmoothIsNotInterrupted(cfg, feed, prior, p);
      if step.PushNext? {
        FirstPush(cfg, feed, prior, p);
      }
      PushingGoesOn(cfg, p, step);
      forall u ensures !Interrupted(cfg, feed, steps, u) {
        assert steps == prior + [step];
        Later(cfg, feed, prior, p, step, u);
      }
    }
  }

  lemma FirstPush(cfg: Config, feed: seq<Event>, steps: seq<Step>, s: State)
    requires Proper(cfg) && Exec(cfg, Init(feed), steps) == Some(s) && DistinctFeed(s.feed) && Enabled(cfg, s, PushNext)
    requires CalmRun(cfg, Init(feed), steps) && forall u :: !Interrupted(cfg, feed, steps, u)
    ensures Calm(s, PushNext) && !Fifo.Has(s.store, s.phase.batch[0].uid)
  {
    var u := s.phase.batch[0].uid;
    ReachedInv(cfg, feed, steps, s);
    if Fifo.Has(s.store, u) {
      AliveWasPushed(s.log, u);
      RepeatedPush(cfg, feed, steps, s, u);
      assert false;
    }
    forall t | t in s.flight && Active(s.flight[t]) ensures s.flight[t].uid != u {
      assert Backed(cfg, s.store, s.log, s.flight[t]);
    }
  }

  lemma PushingGoesOn(cfg: Config, s: State, step: Step)
    requires Enabled(cfg, s, step) && !Refused(cfg, s, step)
    ensures s.phase.Pushing? && !step.Stop? && !step.EndRun? && !step.SaveCursor? ==> Apply(cfg, s, step).phase.Pushing?
  {
  }

  // Over a feed of distinct events, as long as no batch is interrupted and each run reads its
  // cursor, every event is pushed at most once and no push is refused or meets an item.
  lemma PushedOnce(cfg: Config, feed: seq<Event>, steps: seq<Step>, s: State)
    requires Proper(cfg) && Exec(cfg, Init(feed), steps) == Some(s) && DistinctFeed(s.feed) && Smooth(cfg, feed, steps)
    ensures forall i, j :: 0 <= i < j < |s.log| && s.log[i].Pushed? ==> s.log[j] != s.log[i]
    ensures !Refused(cfg, s, PushNext) && Reached(cfg, feed, steps, s)
  {
    SmoothIsNotInterrupted(cfg, feed, steps, s);
    forall i, j | 0 <= i < j < |s.log| && s.log[i].Pushed? ensures s.log[j] != s.log[i] {
      if s.log[j] == s.log[i] {
        PushedTwiceWasInterrupted(cfg, feed, steps, s, i, j);
      }
    }
    if Enabled(cfg, s, PushNext) {
      FirstPush(cfg, feed, steps, s);
    }
  }

  // In such runs a stage that an event has completed is never called again for it.
  lemma CompletedStageNeverRecalled(cfg: Config, feed: seq<Event>, steps: seq<Step>, s: State, i: nat, j: nat)
    requires Proper(cfg) && Exec(cfg, Init(feed), steps) == Some(s) && DistinctFeed(s.feed) && Smooth(cfg, feed, steps)
    requires i < j < |s.log| && s.log[i].Stored? && s.log[i].processed && s.log[j].Called? && s.log[j].uid == s.log[i].uid
    ensures s.log[j].stage > s.log[i].stage
  {
    PushedOnce(cfg, feed, steps, s);
    ReachedInv(cfg, feed, steps, s);
    H.LegalAt(|cfg.names|, s.log, i);
    AliveWasPushed(s.log[..i], s.log[i].uid);
    var k :| 0 <= k < i && s.log[..i][k] == Pushed(s.log[i].uid);
    assert forall m :: i < m < j ==> s.log[m] != s.log[k];
    if s.log[j].stage <= s.log[i].stage {
      S.CompletedStageNotRecalled(cfg, feed, steps, s, i, j);
    }
  }
}
