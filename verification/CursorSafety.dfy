// The stored cursor never runs ahead of what was pushed, in every run, exactly when the
// feed position of an empty cursor is not more than one past the configured start.
module CursorSafety {
  import opened Prelude
  import Fifo
  import opened Protocol
  import opened Runs
  import H = History
  import S = Safety
  import opened Cursors

  // Every feed event from the start up to `pos` has been pushed.
  ghost predicate Covered(cfg: Config, s: State, pos: nat) {
    forall p: nat :: StartPosition(cfg) <= p < pos ==> PushedAt(s, p)
  }

  // What a resumed source relies on: it continues from the stored cursor.
  ghost predicate Safe(cfg: Config, s: State) {
    s.saved.Some? ==> Covered(cfg, s, Position(cfg, s.saved.value))
  }

  // Everything before the next event to push was pushed.  Until the first push the reading
  // position is the start.
  ghost predicate Inv(cfg: Config, s: State) {
    && Safe(cfg, s) && Slice(s)
    && var at := Reading(cfg, s.phase);
    && (at.Some? ==> Covered(cfg, s, at.value))
    && (at.Some? && s.saved.None? ==> at.value == StartPosition(cfg))
  }

  lemma CoveredGrows(cfg: Config, s: State, s': State, pos: nat)
    requires Covered(cfg, s, pos) && s.feed <= s'.feed
    requires forall u :: H.EverPushed(s.log, u) ==> H.EverPushed(s'.log, u)
    ensures Covered(cfg, s', pos)
  {
    forall p: nat | StartPosition(cfg) <= p < pos ensures PushedAt(s', p) {
      assert PushedAt(s, p);
    }
  }

  lemma PushKeepsInv(cfg: Config, s: State, s': State)
    requires Inv(cfg, s) && Pushes(cfg, s, s') && Slice(s') && cfg.since <= StartPosition(cfg) + 1
    ensures Inv(cfg, s')
  {
    var at := Reading(cfg, s.phase).value;
    assert s'.log[|s.log|] == Pushed(s.feed[at].uid);
    assert forall u :: H.EverPushed(s.log, u) ==> Pushed(u) in s'.log;
    CoveredGrows(cfg, s, s', at);
    assert PushedAt(s', at);
    if s.saved.Some? {
      CoveredGrows(cfg, s, s', Position(cfg, s.saved.value));
    }
  }

  lemma StayKeepsInv(cfg: Config, s: State, step: Step, s': State)
    requires Inv(cfg, s) && (Stays(cfg, s, step, s') || Saves(cfg, s, s')) && Slice(s')
    ensures Inv(cfg, s')
  {
    if s.saved.Some? {
      CoveredGrows(cfg, s, s', Position(cfg, s.saved.value));
    }
    if Reading(cfg, s.phase).Some? {
      CoveredGrows(cfg, s, s', Reading(cfg, s.phase).value);
    }
  }

  lemma {:induction false} RunInv(cfg: Config, feed: seq<Event>, steps: seq<Step>, s: State)
    requires cfg.since <= StartPosition(cfg) + 1
    requires Exec(cfg, Init(feed), steps) == Some(s)
    ensures Inv(cfg, s)
  {
    if steps != [] {
      var prior := steps[..|steps| - 1];
      var step := steps[|steps| - 1];
      var p := Exec(cfg, Init(feed), prior).value;
      RunInv(cfg, feed, prior, p);
      StepMoves(cfg, p, step);
      if step.PushNext? && !Refused(cfg, p, step) {
        PushKeepsInv(cfg, p, s);
      } else {
        StayKeepsInv(cfg, p, step, s);
      }
    }
  }

  // A feed of distinct events.
  function Numbered(n: nat): (f: seq<Event>)
    ensures |f| == n && forall i :: 0 <= i < n ==> |f[i].uid| == i
  {
    if n == 0 then [] else Numbered(n - 1) + [Event(seq(n - 1, i => 'x'), EMPTY_MAP)]
  }

  // The first run of a source, stopped after the first push of a batch of two.
  const OPENING: seq<Step> := ([] + [Start]) + [BeginLoop]
  const IDLE: seq<Step> := (OPENING + [Load]) + [EndInject]
  const FIRST_PUSH: seq<Step> := (IDLE + [Fetch(2)]) + [PushNext]

  lemma OpeningRun(cfg: Config, feed: seq<Event>)
    ensures Exec(cfg, Init(feed), OPENING) == Some(Init(feed).(phase := Looping(cfg.continuation)))
  {
    ExecMore(cfg, Init(feed), [], Start);
    ExecMore(cfg, Init(feed), [] + [Start], BeginLoop);
  }

  // Up to the fetch.
  lemma IdleRun(cfg: Config, feed: seq<Event>)
    ensures Exec(cfg, Init(feed), IDLE) == Some(Init(feed).(phase := Fetching(cfg.continuation)))
  {
    OpeningRun(cfg, feed);
    ExecMore(cfg, Init(feed), OPENING, Load);
    ExecMore(cfg, Init(feed), OPENING + [Load], EndInject);
  }

  // The first push stores an empty cursor, which from then on hides the configured
  // continuation id.
  lemma FirstPushRun(cfg: Config, feed: seq<Event>)
    requires StartPosition(cfg) + 2 <= |feed|
    ensures var r := Exec(cfg, Init(feed), FIRST_PUSH);
            var p := StartPosition(cfg);
            var e := feed[p];
            r == Some(Init(feed).(store := [Fifo.Entry(e.uid, e.body, NO_CONTEXT, false)], saved := Some(Origin),
                                  phase := Pushing(At(p + 2), [feed[p + 1]]), log := [Pushed(e.uid)]))
  {
    var p := StartPosition(cfg);
    var e := feed[p];
    assert feed[p..p + 2] == [feed[p], feed[p + 1]] && feed[p..p + 2][1..] == [feed[p + 1]];
    IdleRun(cfg, feed);
    ExecMore(cfg, Init(feed), IDLE, Fetch(2));
    ExecMore(cfg, Init(feed), IDLE + [Fetch(2)], PushNext);
    FirstStore(e);
    assert [] + [Pushed(e.uid)] == [Pushed(e.uid)];
    assert Init(feed).lost - {e.uid} == {};
  }

  lemma FirstStore(e: Event)
    ensures Fifo.Push<Blob, Context>(Fifo.Delete([], e.uid), e.uid, e.body, NO_CONTEXT) ==
            [Fifo.Entry(e.uid, e.body, NO_CONTEXT, false)]
  {
  }

  // Every run, over every feed, keeps the stored cursor behind what was pushed if and only
  // if the position of an empty cursor is at most one past the start.
  lemma CursorSafeExactly(cfg: Config)
    ensures (forall feed, steps, s :: Exec(cfg, Init(feed), steps) == Some(s) ==> Safe(cfg, s))
            <==> cfg.since <= StartPosition(cfg) + 1
  {
    var p := StartPosition(cfg);
    if cfg.since <= p + 1 {
      forall feed, steps, s | Exec(cfg, Init(feed), steps) == Some(s) ensures Safe(cfg, s) {
        RunInv(cfg, feed, steps, s);
      }
    } else {
      var feed := Numbered(p + 2);
      FirstPushRun(cfg, feed);
      var s := Exec(cfg, Init(feed), FIRST_PUSH).value;
      assert feed[p + 1].uid != feed[p].uid;
      assert p <= p + 1 < Position(cfg, s.saved.value);
      assert !PushedAt(s, p + 1);
      assert !Safe(cfg, s);
    }
  }

  // Nothing between the start and the stored cursor is lost, over any number of stops,
  // failures and crashes: each such event is stored, or was removed by a stage, or went
  // through all of them.
  lemma NothingLost(cfg: Config, feed: seq<Event>, steps: seq<Step>, s: State, p: nat)
    requires Proper(cfg) && Reached(cfg, feed, steps, s) && cfg.since <= StartPosition(cfg) + 1
    requires s.saved.Some? && StartPosition(cfg) <= p < Position(cfg, s.saved.value)
    ensures p < |s.feed|
    ensures Fifo.Has(s.store, s.feed[p].uid) || exists i :: S.LeftAt(|cfg.names|, s.log, s.feed[p].uid, i)
  {
    RunInv(cfg, feed, steps, s);
    assert PushedAt(s, p);
    S.Conservation(cfg, feed, steps, s, s.feed[p].uid);
  }
}
