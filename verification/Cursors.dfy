// Where the producer reads the feed, and how each step moves this position, the stored
// cursor and the set of events pushed so far.
module Cursors {
  import opened Prelude
  import Fifo
  import opened Protocol
  import opened Runs
  import H = History

  // The position of the next event to push.
  function Reading(cfg: Config, phase: Phase): Option<nat> {
    match phase
    case Looping(c) => Some(Position(cfg, c))
    case Injecting(c, _) => Some(Position(cfg, c))
    case Holding(c, _, _) => Some(Position(cfg, c))
    case Fetching(c) => Some(Position(cfg, c))
    case Pushing(c, batch) => if |batch| <= Position(cfg, c) then Some(Position(cfg, c) - |batch|) else None
    case _ => None
  }

  // Where the next run will begin to read.
  function Resume(cfg: Config, s: State): nat {
    match s.saved
    case None => StartPosition(cfg)
    case Some(c) => Position(cfg, c)
  }

  predicate PushedAt(s: State, p: nat) {
    p < |s.feed| && H.EverPushed(s.log, s.feed[p].uid)
  }

  // What is left of a batch is the part of the feed before the batch's cursor.
  ghost predicate Slice(s: State) {
    s.phase.Pushing? ==>
      s.phase.cursor.At? && |s.phase.batch| <= s.phase.cursor.pos <= |s.feed| &&
      s.phase.batch == s.feed[s.phase.cursor.pos - |s.phase.batch|..s.phase.cursor.pos]
  }

  predicate Refused(cfg: Config, s: State, step: Step) {
    step.PushNext? && s.phase.Pushing? && s.phase.batch != [] && Fifo.Has(s.store, s.phase.batch[0].uid) && cfg.backend.Sqlite?
  }

  // No step takes anything back from feed or log, and only a push logs a push.
  lemma StepGrows(cfg: Config, s: State, step: Step)
    requires Enabled(cfg, s, step)
    ensures var s' := Apply(cfg, s, step);
            s.feed <= s'.feed && s.log <= s'.log && |s'.log| <= |s.log| + 1 &&
            (|s'.log| > |s.log| && s'.log[|s.log|].Pushed? ==> step.PushNext? && s.phase.batch[0].uid == s'.log[|s.log|].uid)
  {
    FeedGrows(cfg, s, step);
    LogGrows(cfg, s, step);
  }

  lemma FeedGrows(cfg: Config, s: State, step: Step)
    requires Enabled(cfg, s, step)
    ensures s.feed <= Apply(cfg, s, step).feed
  {
  }

  lemma LogGrows(cfg: Config, s: State, step: Step)
    requires Enabled(cfg, s, step)
    ensures var s' := Apply(cfg, s, step);
            s.log <= s'.log && |s'.log| <= |s.log| + 1 &&
            (|s'.log| > |s.log| && s'.log[|s.log|].Pushed? ==> step.PushNext? && s.phase.batch[0].uid == s'.log[|s.log|].uid)
  {
    if OfWorker(step) {
      WorkerLogGrows(cfg, s, step);
    }
  }

  lemma WorkerLogGrows(cfg: Config, s: State, step: Step)
    requires Enabled(cfg, s, step) && OfWorker(step)
    ensures var s' := Apply(cfg, s, step);
            s'.log == s.log || (|s'.log| == |s.log| + 1 && s.log <= s'.log && !s'.log[|s.log|].Pushed?)
  {
  }

  // In memory a run is the only one of its process.
  lemma MemoryRunsOn(cfg: Config, s: State, step: Step)
    requires cfg.backend.Memory? && Enabled(cfg, s, step)
    ensures var p, p' := s.phase, Apply(cfg, s, step).phase;
            (p'.Down? ==> p.Down?) && (p'.Unlocking? ==> p.Down? || p.Unlocking?)
  {
  }

  ghost predicate SamePushes(s: State, s': State) {
    forall u :: H.EverPushed(s'.log, u) <==> H.EverPushed(s.log, u)
  }

  // A push: the event at the reading position, which moves on by one.
  ghost predicate Pushes(cfg: Config, s: State, s': State) {
    var at := Reading(cfg, s.phase);
    && at.Some? && at.value < |s.feed| && s'.feed == s.feed
    && s.phase.Pushing? && s'.phase.Pushing? && Reading(cfg, s'.phase) == Some(at.value + 1)
    && s'.saved == Some(if s.saved.None? then Origin else s.saved.value)
    && s'.log == s.log + [Pushed(s.feed[at.value].uid)]
  }

  // The stored cursor catches up with the reading position.
  ghost predicate Saves(cfg: Config, s: State, s': State) {
    var at := Reading(cfg, s.phase);
    && at.Some? && s'.feed == s.feed && SamePushes(s, s') && s.phase.Pushing? && !s'.phase.Pushing?
    && s'.saved == Some(At(at.value)) && Reading(cfg, s'.phase) == at
  }

  // Any other step leaves the reading position where it is, ends the reading, or begins it
  // at the stored cursor or, if that cannot be read, at the configured one.
  ghost predicate Stays(cfg: Config, s: State, step: Step, s': State) {
    var at, at' := Reading(cfg, s.phase), Reading(cfg, s'.phase);
    && s.feed <= s'.feed && (s'.feed != s.feed ==> step.Grow?) && SamePushes(s, s') && s'.saved == s.saved
    && (at'.None? || at' == at ||
        (s.phase.Unlocking? && at' == Some(if step.BeginUnread? then StartPosition(cfg) else Resume(cfg, s)) &&
         (step.BeginUnread? || step.BeginLoop?) && !s'.phase.Pushing?))
    && (s.phase.Pushing? && s'.phase.Pushing? ==> at' == at)
  }

  lemma PushMoves(cfg: Config, s: State)
    requires Enabled(cfg, s, PushNext) && Slice(s) && !Refused(cfg, s, PushNext)
    ensures var s' := Apply(cfg, s, PushNext); Slice(s') && Pushes(cfg, s, s')
  {
    var s' := Apply(cfg, s, PushNext);
    var c, n := s.phase.cursor.pos, |s.phase.batch|;
    assert s.phase.batch[0] == s.feed[c - n];
    assert s'.phase.batch == s.feed[c - n + 1..c];
  }

  lemma SameLog(s: State, s': State)
    requires s.log <= s'.log && |s'.log| <= |s.log| + 1 && (|s'.log| > |s.log| ==> !s'.log[|s.log|].Pushed?)
    ensures SamePushes(s, s')
  {
    forall u | H.EverPushed(s'.log, u) ensures H.EverPushed(s.log, u) {
      var i :| 0 <= i < |s'.log| && s'.log[i] == Pushed(u);
      assert s.log[i] == Pushed(u);
    }
    forall u | H.EverPushed(s.log, u) ensures H.EverPushed(s'.log, u) {
      var i :| 0 <= i < |s.log| && s.log[i] == Pushed(u);
      assert s'.log[i] == Pushed(u);
    }
  }

  lemma WorkerShape(cfg: Config, s: State, step: Step)
    requires Enabled(cfg, s, step) && OfWorker(step)
    ensures var s' := Apply(cfg, s, step); s'.phase == s.phase && s'.saved == s.saved && s'.feed == s.feed
  {
  }

  // Workers touch neither cursor nor feed.
  lemma WorkerMoves(cfg: Config, s: State, step: Step)
    requires Enabled(cfg, s, step) && OfWorker(step) && Slice(s)
    ensures var s' := Apply(cfg, s, step); Slice(s') && s'.phase == s.phase && Stays(cfg, s, step, s')
  {
    StepGrows(cfg, s, step);
    WorkerShape(cfg, s, step);
    SameLog(s, Apply(cfg, s, step));
  }

  lemma GrowMoves(cfg: Config, s: State, step: Step)
    requires step.Grow? && Slice(s)
    ensures var s' := Apply(cfg, s, step); Slice(s') && Stays(cfg, s, step, s')
  {
    var s' := Apply(cfg, s, step);
    if s.phase.Pushing? {
      var c, n := s.phase.cursor.pos, |s.phase.batch|;
      assert s'.feed[c - n..c] == s.feed[c - n..c];
    }
  }

  predicate BeforeFetch(step: Step) {
    match step
    case Start => true
    case UnlockOne(_) => true
    case BeginLoop => true
    case BeginUnread => true
    case Load => true
    case LockHead => true
    case PutHead => true
    case DropHead => true
    case EndInject => true
    case _ => false
  }

  lemma BeforeFetchMoves(cfg: Config, s: State, step: Step)
    requires Enabled(cfg, s, step) && Slice(s) && BeforeFetch(step)
    ensures var s' := Apply(cfg, s, step); Slice(s') && Stays(cfg, s, step, s')
  {
  }

  lemma FetchMoves(cfg: Config, s: State, step: Step)
    requires Enabled(cfg, s, step) && Slice(s) && !BeforeFetch(step) && !OfWorker(step) && !step.Grow? && !step.SaveCursor?
    requires step.PushNext? ==> Refused(cfg, s, step)
    ensures var s' := Apply(cfg, s, step); Slice(s') && Stays(cfg, s, step, s')
  {
  }

  lemma StepMoves(cfg: Config, s: State, step: Step)
    requires Enabled(cfg, s, step) && Slice(s)
    ensures var s' := Apply(cfg, s, step);
            Slice(s') &&
            if step.PushNext? && !Refused(cfg, s, step) then Pushes(cfg, s, s')
            else if step.SaveCursor? then Saves(cfg, s, s')
            else Stays(cfg, s, step, s')
  {
    if step.PushNext? && !Refused(cfg, s, step) {
      PushMoves(cfg, s);
    } else if OfWorker(step) {
      WorkerMoves(cfg, s, step);
    } else if step.Grow? {
      GrowMoves(cfg, s, step);
    } else if BeforeFetch(step) {
      BeforeFetchMoves(cfg, s, step);
    } else if !step.SaveCursor? {
      FetchMoves(cfg, s, step);
    }
  }

  lemma {:induction false} SliceRun(cfg: Config, feed: seq<Event>, steps: seq<Step>, s: State)
    requires Exec(cfg, Init(feed), steps) == Some(s)
    ensures Slice(s)
  {
    if steps != [] {
      var p := Exec(cfg, Init(feed), steps[..|steps| - 1]).value;
      SliceRun(cfg, feed, steps[..|steps| - 1], p);
      StepMoves(cfg, p, steps[|steps| - 1]);
    }
  }
}
