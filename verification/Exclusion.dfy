// Mutual exclusion in memory: a repeated event breaks it, and nothing else does.
module Exclusion {
  import opened Prelude
  import Fifo
  import opened Protocol
  import opened Runs
  import H = History
  import opened Invariant
  import opened Drive
  import C = CursorSafety
  import opened Cursors

  // No two events of the feed from `from` on have the same id.
  ghost predicate DistinctFrom(feed: seq<Event>, from: nat) {
    forall i, j :: from <= i < j < |feed| ==> feed[i].uid != feed[j].uid
  }

  // ---- a repeated event

  // Between two turns: k positions of the feed are read, nothing is in flight, and this is stored.
  ghost predicate Quiet(cfg: Config, feed: seq<Event>, s: State, k: nat, store: Store) {
    s.phase.Looping? && Position(cfg, s.phase.cursor) == k && s.feed == feed && s.flight == map[] && s.store == store
  }

  // An event that waits to be tried again.
  ghost predicate WaitsFor(cfg: Config, e: Record, u: string) {
    e.id == u && !e.locked && Untried(cfg, e.context)
  }

  lemma NewWaits(cfg: Config, e: Event)
    requires |cfg.names| >= 1
    ensures WaitsFor(cfg, Arrival(e), e.uid) && Callable(cfg, NO_CONTEXT)
  {
    assert !Flagged(cfg, NO_CONTEXT, 0);
  }

  lemma Postponed(e: Record, rest: Store, body: Blob, context: Context)
    requires !Fifo.Has(rest, e.id)
    ensures Fifo.SetLock(Fifo.Update(Fifo.SetLock([e] + rest, e.id, true), e.id, body, context), e.id, false)
            == [Fifo.Entry(e.id, body, context, false)] + rest
  {
    Fifo.SetLockCons(e, rest, e.id, true);
    Fifo.SetLockNone(rest, e.id, true);
    Fifo.UpdateCons(e.(locked := true), rest, e.id, body, context);
    Fifo.UpdateNone(rest, e.id, body, context);
    Fifo.SetLockCons(e.(data := body, context := context, locked := true), rest, e.id, false);
    Fifo.SetLockNone(rest, e.id, false);
  }

  lemma RemovedOnly(x: Record)
    ensures Fifo.Delete(Fifo.SetLock([x], x.id, true), x.id) == []
  {
    Fifo.DeleteFirst([x]);
  }

  lemma RemovedSecond(e: Record, x: Record)
    requires e.id != x.id
    ensures Fifo.Has([e, x], x.id) && Fifo.Delete(Fifo.SetLock([e, x], x.id, true), x.id) == [e]
  {
    assert [e, x] == [e] + [x];
    Fifo.SetLockCons(e, [x], x.id, true);
    assert x in [e, x];
    RemovedOnly(x);
    assert ([e] + Fifo.SetLock([x], x.id, true))[1..] == Fifo.SetLock([x], x.id, true);
  }

  lemma ArrivesBehind(e: Record, x: Event)
    requires e.id != x.uid && !e.locked
    ensures WithArrival([e], x) == [e, Arrival(x)]
    ensures Fifo.Select([e, Arrival(x)], false) == [e, Arrival(x)]
  {
    Fifo.DeleteNone([e], x.uid);
    assert [e] + [Arrival(x)] == [e, Arrival(x)];
    Fifo.SelectCons(Arrival(x), [], false);
    assert [Arrival(x)] + [] == [Arrival(x)];
    Fifo.SelectCons(e, [Arrival(x)], false);
  }

  lemma ArrivesOver(e: Record, x: Event)
    requires e.id == x.uid
    ensures WithArrival([e], x) == [Arrival(x)]
  {
    assert Fifo.Delete([e], x.uid) == [];
  }

  // The event at k is pushed while nothing is stored.
  lemma Arrive(cfg: Config, feed: seq<Event>, s: State, k: nat) returns (more: seq<Step>, r: State)
    requires Quiet(cfg, feed, s, k, []) && k < |feed|
    ensures Goes(cfg, s, more, r) && Quiet(cfg, feed, r, k + 1, [Arrival(feed[k])])
  {
    One(cfg, s, Load);
    var l := Apply(cfg, s, Load);
    var a;
    a, r := FetchRun(cfg, l, k);
    more := Join(cfg, s, [Load], l, a, r);
  }

  // It is removed again.
  lemma Leave(cfg: Config, feed: seq<Event>, s: State, k: nat, x: Record) returns (more: seq<Step>, r: State)
    requires Quiet(cfg, feed, s, k, [x]) && !x.locked && Callable(cfg, x.context)
    ensures Goes(cfg, s, more, r) && Quiet(cfg, feed, r, k, [])
  {
    LoadOne(cfg, s, x);
    var l := s.(phase := Injecting(s.phase.cursor, [x]));
    var a, m := RemoveHead(cfg, l);
    RemovedOnly(x);
    more := Join(cfg, s, [Load], l, a, m);
    var b;
    b, r := IdleRun(cfg, m);
    more := Join(cfg, s, more, m, b, r);
  }

  // With one event waiting, it is tried and postponed, and another one is pushed behind it.
  lemma ArriveBehind(cfg: Config, feed: seq<Event>, s: State, k: nat, e: Record) returns (more: seq<Step>, r: State, e': Record)
    requires Quiet(cfg, feed, s, k, [e]) && k < |feed| && WaitsFor(cfg, e, e.id) && feed[k].uid != e.id
    ensures Goes(cfg, s, more, r) && WaitsFor(cfg, e', e.id) && Quiet(cfg, feed, r, k + 1, [e', Arrival(feed[k])])
  {
    LoadOne(cfg, s, e);
    var l := s.(phase := Injecting(s.phase.cursor, [e]));
    var a, m, body, context := PostponeHead(cfg, l);
    e' := Fifo.Entry(e.id, body, context, false);
    Postponed(e, [], body, context);
    assert [e] + [] == [e] && [e'] + [] == [e'];
    more := Join(cfg, s, [Load], l, a, m);
    ArrivesBehind(e', feed[k]);
    var b;
    b, r := FetchRun(cfg, m, k);
    more := Join(cfg, s, more, m, b, r);
  }

  // Both are put in turn: the waiting one is postponed, the other one removed.
  lemma LeaveBehind(cfg: Config, feed: seq<Event>, s: State, k: nat, e: Record, x: Record)
    returns (more: seq<Step>, r: State, e': Record)
    requires Quiet(cfg, feed, s, k, [e, x]) && WaitsFor(cfg, e, e.id) && e.id != x.id && !x.locked && Callable(cfg, x.context)
    requires Fifo.Select([e, x], false) == [e, x]
    ensures Goes(cfg, s, more, r) && WaitsFor(cfg, e', e.id) && Quiet(cfg, feed, r, k, [e'])
  {
    One(cfg, s, Load);
    var l := Apply(cfg, s, Load);
    var a, m, body, context := PostponeHead(cfg, l);
    e' := Fifo.Entry(e.id, body, context, false);
    Postponed(e, [x], body, context);
    assert [e] + [x] == [e, x] && [e'] + [x] == [e', x];
    more := Join(cfg, s, [Load], l, a, m);
    var b;
    b, r := LeaveSecond(cfg, m, e', x);
    more := Join(cfg, s, more, m, b, r);
  }

  lemma LeaveSecond(cfg: Config, s: State, e: Record, x: Record) returns (more: seq<Step>, r: State)
    requires s.phase.Injecting? && s.phase.todo == [x] && s.store == [e, x] && s.flight == map[]
    requires e.id != x.id && Callable(cfg, x.context)
    ensures Goes(cfg, s, more, r)
    ensures r.phase == Looping(s.phase.cursor) && r.feed == s.feed && r.flight == map[] && r.store == [e]
  {
    RemovedSecond(e, x);
    var a, m := RemoveHead(cfg, s);
    var b;
    b, r := IdleRun(cfg, m);
    more := Join(cfg, s, a, m, b, r);
  }

  // Up to position k, event by event.
  lemma {:induction false} ReadTo(cfg: Config, feed: seq<Event>, k: nat) returns (steps: seq<Step>, s: State)
    requires cfg.backend.Memory? && |cfg.names| >= 1 && StartPosition(cfg) <= k <= |feed|
    ensures Goes(cfg, Init(feed), steps, s) && Quiet(cfg, feed, s, k, [])
    decreases k
  {
    if k == StartPosition(cfg) {
      C.OpeningRun(cfg, feed);
      steps, s := C.OPENING, Init(feed).(phase := Looping(cfg.continuation));
      GoesWithoutPut(cfg, Init(feed), steps, s);
    } else {
      var m, b;
      steps, m := ReadTo(cfg, feed, k - 1);
      b, s := Arrive(cfg, feed, m, k - 1);
      steps := Join(cfg, Init(feed), steps, m, b, s);
      m := s;
      NewWaits(cfg, feed[k - 1]);
      b, s := Leave(cfg, feed, m, k, Arrival(feed[k - 1]));
      steps := Join(cfg, Init(feed), steps, m, b, s);
    }
  }

  // On from event i to position k, while event i is tried again and again.
  lemma {:induction false} WaitTo(cfg: Config, feed: seq<Event>, i: nat, k: nat) returns (steps: seq<Step>, s: State, e: Record)
    requires cfg.backend.Memory? && |cfg.names| >= 1 && StartPosition(cfg) <= i < k <= |feed|
    requires forall m :: i < m < k ==> feed[m].uid != feed[i].uid
    ensures Goes(cfg, Init(feed), steps, s) && WaitsFor(cfg, e, feed[i].uid) && Quiet(cfg, feed, s, k, [e])
    decreases k
  {
    var m, b;
    if k == i + 1 {
      steps, m := ReadTo(cfg, feed, i);
      b, s := Arrive(cfg, feed, m, i);
      e := Arrival(feed[i]);
      NewWaits(cfg, feed[i]);
      steps := Join(cfg, Init(feed), steps, m, b, s);
    } else {
      steps, m, e := WaitTo(cfg, feed, i, k - 1);
      b, s, e := ArriveBehind(cfg, feed, m, k - 1, e);
      steps := Join(cfg, Init(feed), steps, m, b, s);
      m := s;
      NewWaits(cfg, feed[k - 1]);
      ArrivesBehind(e, feed[k - 1]);
      b, s, e := LeaveBehind(cfg, feed, m, k, e, Arrival(feed[k - 1]));
      steps := Join(cfg, Init(feed), steps, m, b, s);
    }
  }

  // The event is put; while a stage works on it, it is pushed anew, loaded and put again.
  lemma PutTwice(cfg: Config, feed: seq<Event>, s: State, k: nat, e: Record)
    returns (more: seq<Step>, r: State, t1: nat, t2: nat)
    requires cfg.backend.Memory? && Quiet(cfg, feed, s, k, [e]) && !e.locked && k < |feed| && feed[k].uid == e.id
    ensures Goes(cfg, s, more, r) && r.feed == feed
    ensures t1 != t2 && ActiveAt(r.flight, t1, e.id) && ActiveAt(r.flight, t2, e.id)
  {
    LoadOne(cfg, s, e);
    var l := s.(phase := Injecting(s.phase.cursor, [e]));
    var b, m := TakeHead(cfg, l);
    more := Join(cfg, s, [Load], l, b, m);
    assert m.store == [e.(locked := true)] by {
      Fifo.SetLockCons(e, [], e.id, true);
      assert [e] + [] == [e];
    }
    ArrivesOver(e.(locked := true), feed[k]);
    b, r := FetchRun(cfg, m, k);
    more := Join(cfg, s, more, m, b, r);
    t1 := s.next;
    m := r;
    t2 := m.next;
    b, r := PutAgain(cfg, m, Arrival(feed[k]));
    more := Join(cfg, s, more, m, b, r);
  }

  lemma PutAgain(cfg: Config, s: State, e: Record) returns (more: seq<Step>, r: State)
    requires s.phase.Looping? && s.store == [e] && !e.locked && |s.flight| == 1
    ensures Goes(cfg, s, more, r) && r.feed == s.feed && r.flight == s.flight[s.next := ItemOf(cfg, e)]
  {
    LoadOne(cfg, s, e);
    var l := s.(phase := Injecting(s.phase.cursor, [e]));
    var b;
    b, r := TakeHead(cfg, l);
    more := Join(cfg, s, [Load], l, b, r);
  }

  // The first event after i with its id.
  lemma {:induction false} FirstRepeat(feed: seq<Event>, i: nat, j: nat) returns (k: nat)
    requires i < j < |feed| && feed[j].uid == feed[i].uid
    ensures i < k <= j && feed[k].uid == feed[i].uid && forall m :: i < m < k ==> feed[m].uid != feed[i].uid
    decreases j
  {
    if m :| i < m < j && feed[m].uid == feed[i].uid {
      k := FirstRepeat(feed, i, m);
    } else {
      k := j;
    }
  }

  // The feed holds an event twice: the second one is pushed while a stage works on the
  // first, loaded and put again.  From then on two items act on the same stored event.
  // Never more than two items are in flight.
  lemma RepeatedEventOverlaps(cfg: Config, feed: seq<Event>, i: nat, j: nat)
    returns (steps: seq<Step>, s: State, t1: nat, t2: nat)
    requires cfg.backend.Memory? && |cfg.names| >= 1 && StartPosition(cfg) <= i < j < |feed| && feed[i].uid == feed[j].uid
    ensures Goes(cfg, Init(feed), steps, s) && s.feed == feed
    ensures t1 != t2 && ActiveAt(s.flight, t1, feed[j].uid) && ActiveAt(s.flight, t2, feed[j].uid)
  {
    var k := FirstRepeat(feed, i, j);
    var m, e, b;
    steps, m, e := WaitTo(cfg, feed, i, k);
    b, s, t1, t2 := PutTwice(cfg, feed, m, k, e);
    steps := Join(cfg, Init(feed), steps, m, b, s);
  }

  // ---- no repeated event

  // What has been pushed lies between the start and the reading position.
  ghost predicate OnePass(cfg: Config, s: State) {
    && Slice(s)
    && (s.phase.Down? || s.phase.Unlocking? ==> s.saved.None? && forall u :: !H.EverPushed(s.log, u))
    && var at := Reading(cfg, s.phase);
       at.Some? ==> at.value >= StartPosition(cfg) && forall u :: H.EverPushed(s.log, u) ==> ReadBefore(cfg, s, u, at.value)
  }

  ghost predicate ReadBefore(cfg: Config, s: State, u: string, limit: nat) {
    exists q :: StartPosition(cfg) <= q < limit && q < |s.feed| && s.feed[q].uid == u
  }

  lemma ReadBeforeGrows(cfg: Config, s: State, s': State, limit: nat, limit': nat)
    requires s.feed <= s'.feed && limit <= limit'
    ensures forall u :: ReadBefore(cfg, s, u, limit) ==> ReadBefore(cfg, s', u, limit')
  {
    forall u | ReadBefore(cfg, s, u, limit) ensures ReadBefore(cfg, s', u, limit') {
      var q :| StartPosition(cfg) <= q < limit && q < |s.feed| && s.feed[q].uid == u;
      assert s'.feed[q].uid == u;
    }
  }

  lemma OnePassStep(cfg: Config, s: State, step: Step)
    requires cfg.backend.Memory? && OnePass(cfg, s) && Enabled(cfg, s, step)
    ensures OnePass(cfg, Apply(cfg, s, step))
  {
    var s' := Apply(cfg, s, step);
    StepMoves(cfg, s, step);
    MemoryRunsOn(cfg, s, step);
    var at := Reading(cfg, s.phase);
    if at.Some? {
      ReadBeforeGrows(cfg, s, s', at.value, at.value);
      ReadBeforeGrows(cfg, s, s', at.value, at.value + 1);
    }
    if step.PushNext? && !Refused(cfg, s, step) {
      assert s'.feed[at.value].uid == s.feed[at.value].uid;
      forall u | H.EverPushed(s'.log, u) ensures ReadBefore(cfg, s', u, at.value + 1) {
        if !H.EverPushed(s.log, u) {
          assert u == s.feed[at.value].uid;
        }
      }
    }
  }

  // In memory, over a feed of distinct events, no push meets an event that was pushed before,
  // so that every push is calm.
  lemma {:induction false} DistinctIsCalm(cfg: Config, feed: seq<Event>, steps: seq<Step>, s: State)
    requires Proper(cfg) && cfg.backend.Memory? && Exec(cfg, Init(feed), steps) == Some(s)
    requires DistinctFrom(s.feed, StartPosition(cfg))
    ensures CalmRun(cfg, Init(feed), steps) && OnePass(cfg, s) && Inv(cfg, s)
  {
    if steps == [] {
      InitInv(cfg, feed);
    } else {
      var prior := steps[..|steps| - 1];
      var step := steps[|steps| - 1];
      var p := Exec(cfg, Init(feed), prior).value;
      SliceRun(cfg, feed, prior, p);
      StepMoves(cfg, p, step);
      assert p.feed <= s.feed;
      DistinctPrefix(p.feed, s.feed, StartPosition(cfg));
      DistinctIsCalm(cfg, feed, prior, p);
      OnePassStep(cfg, p, step);
      UnreadIsCalm(cfg, p, step);
      StepInv(cfg, p, step);
    }
  }

  lemma DistinctPrefix(feed: seq<Event>, feed': seq<Event>, from: nat)
    requires feed <= feed' && DistinctFrom(feed', from)
    ensures DistinctFrom(feed, from)
  {
  }

  lemma UnreadIsCalm(cfg: Config, s: State, step: Step)
    requires Inv(cfg, s) && OnePass(cfg, s) && DistinctFrom(s.feed, StartPosition(cfg)) && Enabled(cfg, s, step)
    ensures Calm(s, step)
  {
    if step.PushNext? {
      var u := s.phase.batch[0].uid;
      var at := Reading(cfg, s.phase).value;
      assert u == s.feed[at].uid && !ReadBefore(cfg, s, u, at);
      assert !H.EverPushed(s.log, u);
      NotPushedNotAlive(s.log, u);
      forall t | t in s.flight && Active(s.flight[t]) ensures s.flight[t].uid != u {
        assert Backed(cfg, s.store, s.log, s.flight[t]);
      }
    }
  }

  lemma {:induction false} NotPushedNotAlive(log: H.Log, u: string)
    requires !H.EverPushed(log, u)
    ensures forall n :: H.Legal(n, log) ==> !H.Alive(log, u)
  {
    if log != [] {
      NotPushedNotAlive(H.Prior(log), u);
      assert log[|log| - 1] == H.Last(log);
    }
  }

  // In memory all runs over a feed keep at most one active item per event, in all their
  // states and whatever the interleaving, if and only if the feed does not repeat an
  // event from the start on.
  lemma MemoryExclusionExactly(cfg: Config, feed: seq<Event>)
    requires Proper(cfg) && cfg.backend.Memory?
    ensures (forall steps, s :: Exec(cfg, Init(feed), steps) == Some(s) && s.feed == feed ==> Exclusive(s.flight))
            <==> DistinctFrom(feed, StartPosition(cfg))
  {
    if DistinctFrom(feed, StartPosition(cfg)) {
      forall steps, s | Exec(cfg, Init(feed), steps) == Some(s) && s.feed == feed
        ensures Exclusive(s.flight)
      {
        DistinctIsCalm(cfg, feed, steps, s);
      }
    } else {
      var i, j :| StartPosition(cfg) <= i < j < |feed| && feed[i].uid == feed[j].uid;
      var steps, s, t1, t2 := RepeatedEventOverlaps(cfg, feed, i, j);
      GoesIsRun(cfg, Init(feed), steps, s);
      assert !Exclusive(s.flight);
    }
  }
}
