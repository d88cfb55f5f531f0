// Exactly which events can still be pushed, and go through the stages, again.
module Rerun {
  import opened Prelude
  import Fifo
  import opened Protocol
  import opened Runs
  import H = History
  import opened Invariant
  import opened Cursors
  import opened Drive
  import opened Replay
  import S = Safety
  import C = CursorSafety

  // ---- behind the stored cursor: never again

  // Behind the reading position, and behind the stored cursor, from which the next run goes
  // on.  In memory no run follows.
  predicate WellBehind(cfg: Config, s: State, q: nat) {
    var at := Reading(cfg, s.phase);
    (at.Some? ==> q < at.value) &&
    match cfg.backend
    case Sqlite => s.saved.Some? && q < Resume(cfg, s)
    case Memory => !s.phase.Down? && !s.phase.Unlocking?
  }

  lemma StaysBehind(cfg: Config, s: State, step: Step, q: nat)
    requires Enabled(cfg, s, step) && Slice(s) && WellBehind(cfg, s, q) && !step.BeginUnread?
    requires q < |s.feed| && DistinctFeed(s.feed)
    ensures WellBehind(cfg, Apply(cfg, s, step), q)
    ensures step.PushNext? ==> s.phase.batch[0].uid != s.feed[q].uid
  {
    StepMoves(cfg, s, step);
    if cfg.backend.Memory? {
      MemoryRunsOn(cfg, s, step);
    }
    MovesBehind(cfg, s, step, Apply(cfg, s, step), q);
    if step.PushNext? {
      NextIsAt(cfg, s);
    }
  }

  lemma NextIsAt(cfg: Config, s: State)
    requires Slice(s) && s.phase.Pushing? && s.phase.batch != []
    ensures var at := Reading(cfg, s.phase);
            at.Some? && at.value < |s.feed| && s.phase.batch[0] == s.feed[at.value]
  {
  }

  ghost predicate GoesOnInMemory(cfg: Config, p: State, s: State) {
    cfg.backend.Memory? ==> (s.phase.Down? ==> p.phase.Down?) && (s.phase.Unlocking? ==> p.phase.Down? || p.phase.Unlocking?)
  }

  lemma MovesBehind(cfg: Config, p: State, step: Step, s: State, q: nat)
    requires WellBehind(cfg, p, q) && !step.BeginUnread? && GoesOnInMemory(cfg, p, s)
    requires Pushes(cfg, p, s) || Saves(cfg, p, s) || Stays(cfg, p, step, s)
    ensures WellBehind(cfg, s, q)
  {
  }

  // In whatever way the run goes on, an event behind the stored cursor is not pushed again.
  lemma {:induction false} NeverAgain(cfg: Config, s: State, more: seq<Step>, r: State, q: nat)
    requires Slice(s) && WellBehind(cfg, s, q) && q < |s.feed|
    requires CursorRead(more) && Exec(cfg, s, more) == Some(r) && DistinctFeed(r.feed)
    ensures Slice(r) && WellBehind(cfg, r, q) && s.feed <= r.feed && s.log <= r.log
    ensures forall j :: |s.log| <= j < |r.log| ==> r.log[j] != Pushed(s.feed[q].uid)
    decreases |more|
  {
    if more != [] {
      var prior, step := more[..|more| - 1], more[|more| - 1];
      var p := Exec(cfg, s, prior).value;
      StepGrows(cfg, p, step);
      assert DistinctFeed(p.feed);
      NeverAgain(cfg, s, prior, p, q);
      NoPush(cfg, p, step, q);
    }
  }

  lemma NoPush(cfg: Config, s: State, step: Step, q: nat)
    requires Enabled(cfg, s, step) && Slice(s) && WellBehind(cfg, s, q) && !step.BeginUnread?
    requires q < |s.feed| && DistinctFeed(s.feed)
    ensures var r := Apply(cfg, s, step);
            Slice(r) && WellBehind(cfg, r, q) && s.feed <= r.feed && s.log <= r.log &&
            forall j :: |s.log| <= j < |r.log| ==> r.log[j] != Pushed(s.feed[q].uid)
  {
    StepGrows(cfg, s, step);
    StepMoves(cfg, s, step);
    StaysBehind(cfg, s, step, q);
  }

  // In memory every event is behind the reading position once it is pushed.
  lemma {:induction false} MemoryBehind(cfg: Config, feed: seq<Event>, steps: seq<Step>, s: State, q: nat)
    requires cfg.backend.Memory? && Exec(cfg, Init(feed), steps) == Some(s) && DistinctFeed(s.feed) && PushedAt(s, q)
    ensures WellBehind(cfg, s, q)
    decreases |steps|
  {
    var prior, step := steps[..|steps| - 1], steps[|steps| - 1];
    var p := Exec(cfg, Init(feed), prior).value;
    SliceRun(cfg, feed, prior, p);
    StepGrows(cfg, p, step);
    StepMoves(cfg, p, step);
    MemoryRunsOn(cfg, p, step);
    if H.EverPushed(p.log, s.feed[q].uid) {
      RunInv2(cfg, feed, prior, p);
      WasPushedAt(cfg, feed, prior, p, s, q);
      MemoryBehind(cfg, feed, prior, p, q);
    }
    MemoryBehindStep(cfg, p, step, s, q);
  }

  lemma MemoryBehindStep(cfg: Config, p: State, step: Step, s: State, q: nat)
    requires cfg.backend.Memory? && DistinctFeed(s.feed) && PushedAt(s, q)
    requires Pushes(cfg, p, s) || Saves(cfg, p, s) || Stays(cfg, p, step, s)
    requires !p.phase.Down? && !p.phase.Unlocking? ==> !s.phase.Down? && !s.phase.Unlocking?
    requires H.EverPushed(p.log, s.feed[q].uid) ==> WellBehind(cfg, p, q)
    ensures WellBehind(cfg, s, q)
  {
  }

  // A pushed event is behind the reading position, or not behind the stored cursor.
  ghost predicate NotAhead(cfg: Config, s: State) {
    var at := Reading(cfg, s.phase);
    forall q: nat :: PushedAt(s, q) ==> (at.Some? ==> q < at.value || Resume(cfg, s) <= q)
  }

  lemma NotAheadStep(cfg: Config, feed: seq<Event>, prior: seq<Step>, p: State, step: Step, s: State)
    requires Inv2(cfg, feed, prior, p) && NotAhead(cfg, p) && DistinctFeed(s.feed) && !step.BeginUnread?
    requires Pushes(cfg, p, s) || Saves(cfg, p, s) || Stays(cfg, p, step, s)
    ensures NotAhead(cfg, s)
  {
    var at := Reading(cfg, s.phase);
    forall q: nat | PushedAt(s, q) && at.Some? ensures q < at.value || Resume(cfg, s) <= q {
      if H.EverPushed(p.log, s.feed[q].uid) {
        WasPushedAt(cfg, feed, prior, p, s, q);
      }
    }
  }

  lemma {:induction false} RunNotAhead(cfg: Config, feed: seq<Event>, steps: seq<Step>, s: State)
    requires Exec(cfg, Init(feed), steps) == Some(s) && DistinctFeed(s.feed) && CursorRead(steps)
    ensures NotAhead(cfg, s)
    decreases |steps|
  {
    if steps != [] {
      var prior, step := steps[..|steps| - 1], steps[|steps| - 1];
      var p := Exec(cfg, Init(feed), prior).value;
      StepGrows(cfg, p, step);
      assert DistinctFeed(p.feed);
      RunInv2(cfg, feed, prior, p);
      RunNotAhead(cfg, feed, prior, p);
      StepMoves(cfg, p, step);
      NotAheadStep(cfg, feed, prior, p, step, s);
    }
  }

  // ---- not behind it: a run that begins anew can get there

  ghost predicate AllCallable(cfg: Config, q: Store) {
    forall e :: e in q ==> Callable(cfg, e.context)
  }

  // From s to r nothing happens to feed and stored cursor, nothing is in flight, and the log goes on.
  ghost predicate Frame(s: State, r: State) {
    r.feed == s.feed && r.saved == s.saved && s.log <= r.log && r.flight == map[]
  }

  lemma RestUnique(q: Store)
    requires Fifo.UniqueIds(q) && q != []
    ensures Fifo.UniqueIds(q[1..]) && Fifo.Has(q, q[0].id)
  {
    assert q == [q[0]] + q[1..];
    Fifo.UniqueRest(q[0], q[1..]);
  }

  // The listing is the front of the queue; one event after another is removed.
  lemma {:induction false} RemoveTodo(cfg: Config, s: State) returns (more: seq<Step>, r: State)
    requires s.phase.Injecting? && |s.phase.todo| <= |s.store| && s.phase.todo == s.store[..|s.phase.todo|]
    requires s.flight == map[] && Fifo.UniqueIds(s.store) && AllCallable(cfg, s.store)
    ensures Goes(cfg, s, more, r) && Frame(s, r)
    ensures r.store == s.store[|s.phase.todo|..] && r.phase == Injecting(s.phase.cursor, [])
    decreases |s.phase.todo|
  {
    if s.phase.todo == [] {
      Stay(cfg, s);
      more, r := [], s;
    } else {
      RestUnique(s.store);
      Fifo.DeleteFirst(s.store);
      var a, m := RemoveHead(cfg, s);
      assert m.phase.todo == m.store[..|m.phase.todo|];
      var b;
      b, r := RemoveTodo(cfg, m);
      more := Join(cfg, s, a, m, b, r);
      assert s.store[1..][|m.phase.todo|..] == s.store[|s.phase.todo|..];
    }
  }

  // Load, and remove what was loaded.
  lemma ClearSome(cfg: Config, s: State) returns (more: seq<Step>, r: State)
    requires s.phase.Looping? && Fifo.Select(s.store, false) == s.store && s.flight == map[]
    requires Fifo.UniqueIds(s.store) && AllCallable(cfg, s.store)
    ensures Goes(cfg, s, more, r) && Frame(s, r)
    ensures r.store == s.store[|Fifo.First(s.store, 100)|..] && r.phase == Injecting(s.phase.cursor, [])
  {
    One(cfg, s, Load);
    var l := Apply(cfg, s, Load);
    assert l.phase.todo == s.store[..|l.phase.todo|];
    var a;
    a, r := RemoveTodo(cfg, l);
    more := Join(cfg, s, [Load], l, a, r);
  }

  // Turn after turn, everything stored is removed.
  lemma {:induction false} ClearStore(cfg: Config, s: State) returns (more: seq<Step>, r: State)
    requires s.phase.Looping? && Fifo.Select(s.store, false) == s.store && s.flight == map[]
    requires Fifo.UniqueIds(s.store) && AllCallable(cfg, s.store)
    ensures Goes(cfg, s, more, r) && Frame(s, r)
    ensures r.store == [] && r.phase == s.phase
    decreases |s.store|
  {
    var n := |Fifo.First(s.store, 100)|;
    var a, m := ClearSome(cfg, s);
    var b, t := IdleRun(cfg, m);
    more := Join(cfg, s, a, m, b, t);
    r := t;
    if t.store != [] {
      SelectTail(s.store, n);
      TailUnique(s.store, n);
      b, r := ClearStore(cfg, t);
      more := Join(cfg, s, more, t, b, r);
    }
  }

  lemma TailUnique(q: Store, n: nat)
    requires Fifo.UniqueIds(q) && n <= |q|
    ensures Fifo.UniqueIds(q[n..])
  {
  }

  lemma {:induction false} SelectTail(q: Store, n: nat)
    requires Fifo.Select(q, false) == q && n <= |q|
    ensures Fifo.Select(q[n..], false) == q[n..]
  {
    if n > 0 {
      assert q == [q[0]] + q[1..];
      Fifo.SelectCons(q[0], q[1..], false);
      assert q[0] in Fifo.Select(q, false);
      assert Fifo.Select(q[1..], false) == q[1..];
      SelectTail(q[1..], n - 1);
      assert q[1..][n - 1..] == q[n..];
    }
  }

  // ---- beginning anew

  lemma {:induction false} UnlockEvery(cfg: Config, s: State) returns (more: seq<Step>, r: State)
    requires s.phase.Unlocking? && Fifo.UniqueIds(s.store) && AllCallable(cfg, s.store)
    ensures Goes(cfg, s, more, r)
    ensures r == s.(store := r.store) && Fifo.Select(r.store, true) == []
    ensures Fifo.UniqueIds(r.store) && AllCallable(cfg, r.store)
    decreases |Fifo.Select(s.store, true)|
  {
    if Fifo.Select(s.store, true) == [] {
      more, r := [], s;
      Stay(cfg, s);
    } else {
      var e := Fifo.Select(s.store, true)[0];
      assert e in Fifo.Select(s.store, true);
      var i :| 0 <= i < |s.store| && s.store[i] == e;
      Fifo.UniqueFind(s.store, i);
      Fifo.UnlockShrinks(s.store, e.id);
      Fifo.UniqueSetLock(s.store, e.id, false);
      One(cfg, s, UnlockOne(e.id));
      var m := Apply(cfg, s, UnlockOne(e.id));
      UnlockKeepsCallable(cfg, s.store, e.id);
      var rest;
      rest, r := UnlockEvery(cfg, m);
      more := Join(cfg, s, [UnlockOne(e.id)], m, rest, r);
    }
  }

  lemma UnlockKeepsCallable(cfg: Config, q: Store, id: string)
    requires AllCallable(cfg, q)
    ensures AllCallable(cfg, Fifo.SetLock(q, id, false))
  {
    forall e | e in Fifo.SetLock(q, id, false) ensures Callable(cfg, e.context) {
      var i :| 0 <= i < |q| && Fifo.SetLock(q, id, false)[i] == e;
      Fifo.SetLockAt(q, id, false, i);
      assert q[i] in q;
    }
  }

  // The process ends, and the next run begins at the stored cursor.
  lemma BeginAnew(cfg: Config, s: State) returns (more: seq<Step>, r: State)
    requires cfg.backend.Sqlite? && s.saved.Some? && Fifo.UniqueIds(s.store) && AllCallable(cfg, s.store) && (s.phase.Down? ==> s.flight == map[])
    ensures Goes(cfg, s, more, r)
    ensures r.phase == Looping(s.saved.value) && Frame(s, r) && AllCallable(cfg, r.store)
    ensures Fifo.Select(r.store, false) == r.store && Fifo.UniqueIds(r.store)
  {
    var a, down := GoDown(cfg, s);
    One(cfg, down, Start);
    var m := Apply(cfg, down, Start);
    var b, m2 := UnlockEvery(cfg, m);
    Fifo.AllOff(m2.store);
    One(cfg, m2, BeginLoop);
    r := Apply(cfg, m2, BeginLoop);
    var x := Join(cfg, s, a, down, [Start], m);
    var y := Join(cfg, s, x, m, b, m2);
    more := Join(cfg, s, y, m2, [BeginLoop], r);
  }

  lemma GoDown(cfg: Config, s: State) returns (more: seq<Step>, r: State)
    requires cfg.backend.Sqlite? && (s.phase.Down? ==> s.flight == map[])
    ensures Goes(cfg, s, more, r) && r == s.(phase := Down, flight := map[])
  {
    if s.phase.Down? {
      more, r := [], s;
      Stay(cfg, s);
    } else {
      more, r := [EndRun], Apply(cfg, s, EndRun);
      One(cfg, s, EndRun);
    }
  }

  // ---- reading on

  // From s to r the producer has read the feed up to k, pushing the event before k last, and
  // every earlier event it pushed is gone.
  ghost predicate HasRead(s: State, r: State, k: nat)
    requires 0 < k <= |s.feed|
  {
    r.phase == Looping(At(k)) && r.feed == s.feed && r.store == [Arrival(s.feed[k - 1])] && r.flight == map[] &&
    EndsInPush(s.log, r.log, s.feed[k - 1].uid)
  }

  ghost predicate EndsInPush(log: H.Log, log': H.Log, u: string) {
    |log| < |log'| && log <= log' && log'[|log'| - 1] == Pushed(u)
  }

  // With nothing else stored, the event at the reading position is pushed.
  lemma ReadOne(cfg: Config, s: State, p: nat) returns (more: seq<Step>, r: State)
    requires s.phase.Injecting? && s.phase.todo == [] && p == Position(cfg, s.phase.cursor) < |s.feed|
    requires s.store == [] && s.flight == map[]
    ensures Goes(cfg, s, more, r) && HasRead(s, r, p + 1)
  {
    more, r := FetchRun(cfg, s, p);
  }

  lemma EmptyLoad(cfg: Config, s: State) returns (r: State)
    requires s.phase.Looping? && s.store == []
    ensures Goes(cfg, s, [Load], r) && r == s.(phase := Injecting(s.phase.cursor, []))
  {
    One(cfg, s, Load);
    r := Apply(cfg, s, Load);
  }

  lemma ArrivalStands(s: State, e: Event)
    requires s.store == [Arrival(e)]
    ensures Fifo.Select(s.store, false) == s.store && Fifo.UniqueIds(s.store)
    ensures s.store[|Fifo.First(s.store, 100)|..] == []
  {
    Fifo.SelectCons(Arrival(e), [], false);
    assert [Arrival(e)] + [] == s.store;
  }

  // The event pushed last is removed, and the next one pushed.
  lemma ReadNext(cfg: Config, s: State, m: State, k: nat) returns (more: seq<Step>, r: State)
    requires 1 < k <= |s.feed| && HasRead(s, m, k - 1) && |cfg.names| >= 1
    ensures Goes(cfg, m, more, r) && HasRead(s, r, k)
  {
    ArrivalStands(m, s.feed[k - 2]);
    assert Callable(cfg, NO_CONTEXT) by {
      assert !Flagged(cfg, NO_CONTEXT, 0);
    }
    var a, c := ClearSome(cfg, m);
    var b;
    b, r := ReadOne(cfg, c, k - 1);
    more := Join(cfg, m, a, c, b, r);
  }

  // The producer reads on to position k, beyond where it begins.
  lemma {:induction false} ReadOn(cfg: Config, s: State, p: nat, k: nat) returns (more: seq<Step>, r: State)
    requires s.phase.Looping? && p == Position(cfg, s.phase.cursor) && s.store == [] && s.flight == map[]
    requires p < k <= |s.feed| && |cfg.names| >= 1
    ensures Goes(cfg, s, more, r) && HasRead(s, r, k)
    decreases k
  {
    if k == p + 1 {
      var l := EmptyLoad(cfg, s);
      var a;
      a, r := ReadOne(cfg, l, p);
      more := Join(cfg, s, [Load], l, a, r);
    } else {
      var a, m := ReadOn(cfg, s, p, k - 1);
      var b;
      b, r := ReadNext(cfg, s, m, k);
      more := Join(cfg, s, a, m, b, r);
    }
  }

  // The event pushed last is put, and the first stage is called for it.
  lemma CallFirst(cfg: Config, s: State, e: Event, a: Answer) returns (more: seq<Step>, r: State, t: nat)
    requires s.phase.Looping? && s.store == [Arrival(e)] && s.flight == map[] && |cfg.names| >= 1
    ensures Goes(cfg, s, more, r) && r.feed == s.feed && r.saved == s.saved && r.log == s.log + [Called(e.uid, 0, EMPTY_MAP)]
    ensures t in r.flight && r.flight[t] == ItemOf(cfg, Arrival(e)).(at := Answered(a)) && Fifo.Has(r.store, e.uid)
  {
    LoadOne(cfg, s, Arrival(e));
    var l := s.(phase := Injecting(s.phase.cursor, [Arrival(e)]));
    var b, m := TakeHead(cfg, l);
    more := Join(cfg, s, [Load], l, b, m);
    t := s.next;
    assert !Flagged(cfg, NO_CONTEXT, 0);
    more, r := Then(cfg, s, more, m, Call(t, a));
  }

  // ---- the exact condition

  // Some time after s the event is pushed, and then called for by the first stage as if new.
  ghost predicate GoesAgain(cfg: Config, s: State, more: seq<Step>, r: State, u: string) {
    Exec(cfg, s, more) == Some(r) && CursorRead(more) && r.feed == s.feed &&
    exists j, k :: |s.log| <= j < k < |r.log| && r.log[j] == Pushed(u) && r.log[k] == Called(u, 0, EMPTY_MAP)
  }

  // A run that begins anew, and removes all that is stored.
  lemma CleanStart(cfg: Config, feed: seq<Event>, steps: seq<Step>, s: State) returns (more: seq<Step>, r: State)
    requires Proper(cfg) && cfg.backend.Sqlite? && Reached(cfg, feed, steps, s) && s.saved.Some?
    ensures Goes(cfg, s, more, r) && Frame(s, r)
    ensures r.store == [] && r.phase == Looping(s.saved.value)
  {
    StoredIsCallable(cfg, feed, steps, s);
    var a, m := BeginAnew(cfg, s);
    var b;
    b, r := ClearStore(cfg, m);
    more := Join(cfg, s, a, m, b, r);
  }

  // The next runs push the event again and call the first stage for it, without ever having
  // more than one item in flight.
  lemma GoAgain(cfg: Config, feed: seq<Event>, steps: seq<Step>, s: State, q: nat) returns (more: seq<Step>, r: State)
    requires Proper(cfg) && cfg.backend.Sqlite? && Reached(cfg, feed, steps, s)
    requires s.saved.Some? && Resume(cfg, s) <= q < |s.feed|
    ensures Goes(cfg, s, more, r) && GoesAgain(cfg, s, more, r, s.feed[q].uid)
  {
    var a, m := CleanStart(cfg, feed, steps, s);
    var b, m2 := ReadOn(cfg, m, Resume(cfg, s), q + 1);
    var c, t;
    c, r, t := CallFirst(cfg, m2, s.feed[q], REMOVE);
    more := JoinThree(cfg, s, a, m, b, m2, c, r);
    GoesIsRun(cfg, s, more, r);
    PushedThenCalled(s.log, m2.log, r.log, s.feed[q].uid);
  }

  lemma JoinThree(cfg: Config, s: State, a: seq<Step>, m: State, b: seq<Step>, m2: State, c: seq<Step>, r: State)
    returns (more: seq<Step>)
    requires Goes(cfg, s, a, m) && Goes(cfg, m, b, m2) && Goes(cfg, m2, c, r)
    ensures Goes(cfg, s, more, r)
  {
    var bc := Join(cfg, m, b, m2, c, r);
    more := Join(cfg, s, a, m, bc, r);
  }

  lemma PushedThenCalled(log: H.Log, log1: H.Log, log2: H.Log, u: string)
    requires EndsInPush(log, log1, u) && log2 == log1 + [Called(u, 0, EMPTY_MAP)]
    ensures exists j, k :: |log| <= j < k < |log2| && log2[j] == Pushed(u) && log2[k] == Called(u, 0, EMPTY_MAP)
  {
    var j := |log1| - 1;
    assert log2[j] == Pushed(u) && log2[j + 1] == Called(u, 0, EMPTY_MAP);
  }

  lemma StoredIsCallable(cfg: Config, feed: seq<Event>, steps: seq<Step>, s: State)
    requires Proper(cfg) && Reached(cfg, feed, steps, s)
    ensures Fifo.UniqueIds(s.store) && AllCallable(cfg, s.store) && (s.phase.Down? ==> s.flight == map[])
  {
    ReachedInv(cfg, feed, steps, s);
    forall e | e in s.store ensures Callable(cfg, e.context) {
      var i :| 0 <= i < |s.store| && s.store[i] == e;
      Fifo.UniqueFind(s.store, i);
      S.FlagsAreAPrefix(cfg, feed, steps, s, e.id);
    }
  }

  // In every reachable state, an event that was pushed can be pushed again, and be taken
  // through the stages from the first one, if and only if the back end outlives the process
  // and the event is not behind the stored cursor.  This is so while its batch is being
  // pushed and after that batch was interrupted, and ends when a cursor beyond it is stored.
  lemma ReplayExactly(cfg: Config, feed: seq<Event>, steps: seq<Step>, s: State, q: nat)
    requires Proper(cfg) && Reached(cfg, feed, steps, s) && CursorRead(steps) && DistinctFeed(s.feed) && PushedAt(s, q)
    ensures (exists more, r :: GoesAgain(cfg, s, more, r, s.feed[q].uid)) <==> cfg.backend.Sqlite? && Resume(cfg, s) <= q
  {
    RunInv2(cfg, feed, steps, s);
    if cfg.backend.Sqlite? && Resume(cfg, s) <= q {
      var more, r := GoAgain(cfg, feed, steps, s, q);
    } else {
      if cfg.backend.Sqlite? {
        RunNotAhead(cfg, feed, steps, s);
      } else {
        MemoryBehind(cfg, feed, steps, s, q);
      }
      forall more, r | GoesAgain(cfg, s, more, r, s.feed[q].uid) ensures false {
        NeverAgain(cfg, s, more, r, q);
      }
    }
  }

  // ---- an input

  const DONE := Answer(None, None, false, true)

  // A run that is stopped after the first push of a batch of two.
  lemma FirstPushGoes(cfg: Config, feed: seq<Event>) returns (p: State)
    requires cfg.continuation == Origin && cfg.since + 2 <= |feed|
    ensures Goes(cfg, Init(feed), C.FIRST_PUSH, p) && Exec(cfg, Init(feed), C.FIRST_PUSH) == Some(p)
  {
    C.FirstPushRun(cfg, feed);
    p := Exec(cfg, Init(feed), C.FIRST_PUSH).value;
    GoesWithoutPut(cfg, Init(feed), C.FIRST_PUSH, p);
  }

  // The next run has begun.
  lemma CrashRun(cfg: Config, feed: seq<Event>) returns (steps: seq<Step>, s: State)
    requires cfg.backend.Sqlite? && cfg.continuation == Origin && cfg.since + 2 <= |feed|
    ensures Goes(cfg, Init(feed), steps, s)
    ensures var e := feed[cfg.since];
            s == Init(feed).(store := [Arrival(e)], saved := Some(Origin), phase := Looping(Origin), log := [Pushed(e.uid)])
  {
    var p := FirstPushGoes(cfg, feed);
    C.FirstPushRun(cfg, feed);
    steps, s := Then(cfg, Init(feed), C.FIRST_PUSH, p, EndRun);
    steps, s := Then(cfg, Init(feed), steps, s, Start);
    ArrivalStands(s, feed[cfg.since]);
    Fifo.SelectCons(Arrival(feed[cfg.since]), [], true);
    steps, s := Then(cfg, Init(feed), steps, s, BeginLoop);
  }

  // The first stage completes the event that is stored.
  lemma CompleteFirst(cfg: Config, s: State, e: Event) returns (more: seq<Step>, r: State)
    requires s.phase.Looping? && s.store == [Arrival(e)] && s.flight == map[] && |cfg.names| >= 2
    ensures Goes(cfg, s, more, r) && r.saved == s.saved && r.feed == s.feed
    ensures |r.log| == |s.log| + 2 && s.log <= r.log
    ensures var a := r.log[|s.log| + 1]; a.Stored? && a.uid == e.uid && a.stage == 0 && a.processed
  {
    var t;
    more, r, t := CallFirst(cfg, s, e, DONE);
    more, r := Then(cfg, s, more, r, Commit(t));
  }

  // A process that dies after the first push of a batch of two makes the next runs take the
  // event through the stages twice: the first stage completes it and is called again.
  lemma InterruptedBatchRunsAgain(cfg: Config, feed: seq<Event>) returns (steps: seq<Step>, s: State, i: nat, j: nat)
    requires Proper(cfg) && cfg.backend.Sqlite? && |cfg.names| >= 2
    requires cfg.continuation == Origin && cfg.since + 2 <= |feed|
    ensures Reached(cfg, feed, steps, s) && Goes(cfg, Init(feed), steps, s) && i < j < |s.log|
    ensures s.log[i].Stored? && s.log[i].uid == feed[cfg.since].uid && s.log[i].stage == 0 && s.log[i].processed
    ensures s.log[j] == Called(feed[cfg.since].uid, 0, EMPTY_MAP)
  {
    var e := feed[cfg.since];
    var a, m := CrashRun(cfg, feed);
    var b, p := CompleteFirst(cfg, m, e);
    var ab := Join(cfg, Init(feed), a, m, b, p);
    GoesIsRun(cfg, Init(feed), ab, p);
    var more;
    more, s := GoAgain(cfg, feed, ab, p, cfg.since);
    steps := Join(cfg, Init(feed), ab, p, more, s);
    GoesIsRun(cfg, Init(feed), steps, s);
    GoesIsRun(cfg, p, more, s);
    S.LogGrows(cfg, p, more);
    i := |m.log| + 1;
    var k: int;
    k, j :| |p.log| <= k < j < |s.log| && s.log[k] == Pushed(e.uid) && s.log[j] == Called(e.uid, 0, EMPTY_MAP);
  }
}
