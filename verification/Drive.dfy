// Runs that can always be made, with no more items in flight than a stage with one worker
// and a buffer of one can take.
module Drive {
  import opened Prelude
  import Fifo
  import opened Protocol
  import opened Runs

  // No attempt to read the stored cursor fails.
  predicate CursorRead(steps: seq<Step>) {
    forall i :: 0 <= i < |steps| ==> !steps[i].BeginUnread?
  }

  // How many items a stage takes before `put` blocks, unless the options say otherwise.
  const ROOM := 2

  predicate Gentle(s: State, step: Step) {
    !step.BeginUnread? && (step.PutHead? ==> |s.flight| < ROOM)
  }

  ghost predicate GentleTrace(cfg: Config, s: State, steps: seq<Step>, r: State, trace: seq<State>) {
    IsTrace(cfg, s, steps, r, trace) && forall i :: 0 <= i < |steps| ==> Gentle(trace[i], steps[i])
  }

  // The steps take s to r; each run reads its cursor, and no `put` blocks.
  ghost predicate Goes(cfg: Config, s: State, steps: seq<Step>, r: State) {
    exists trace :: GentleTrace(cfg, s, steps, r, trace)
  }

  lemma Stay(cfg: Config, s: State)
    ensures Goes(cfg, s, [], s)
  {
    assert GentleTrace(cfg, s, [], s, [s]);
  }

  lemma One(cfg: Config, s: State, step: Step)
    requires Enabled(cfg, s, step) && Gentle(s, step)
    ensures Goes(cfg, s, [step], Apply(cfg, s, step))
  {
    var trace := [s, Apply(cfg, s, step)];
    assert StepOK(cfg, trace, [step], 0);
    assert GentleTrace(cfg, s, [step], Apply(cfg, s, step), trace);
  }

  lemma Join(cfg: Config, s: State, a: seq<Step>, m: State, b: seq<Step>, r: State) returns (more: seq<Step>)
    requires Goes(cfg, s, a, m) && Goes(cfg, m, b, r)
    ensures more == a + b && Goes(cfg, s, more, r)
  {
    more := a + b;
    var x :| GentleTrace(cfg, s, a, m, x);
    var y :| GentleTrace(cfg, m, b, r, y);
    JoinTraces(cfg, s, a, m, b, r, x, y);
    forall i | 0 <= i < |a + b| ensures Gentle((x + y[1..])[i], (a + b)[i]) {
      JoinGentle(cfg, s, a, m, b, r, x, y, i);
    }
    assert GentleTrace(cfg, s, a + b, r, x + y[1..]);
  }

  lemma JoinGentle(cfg: Config, s: State, a: seq<Step>, m: State, b: seq<Step>, r: State, x: seq<State>, y: seq<State>, i: nat)
    requires GentleTrace(cfg, s, a, m, x) && GentleTrace(cfg, m, b, r, y) && i < |a + b|
    ensures i < |x + y[1..]| && Gentle((x + y[1..])[i], (a + b)[i])
  {
    if i < |a| {
      assert Gentle(x[i], a[i]);
    } else {
      assert Gentle(y[i - |a|], b[i - |a|]);
    }
  }

  // One step more.
  lemma Then(cfg: Config, s: State, a: seq<Step>, m: State, step: Step) returns (more: seq<Step>, r: State)
    requires Goes(cfg, s, a, m) && Enabled(cfg, m, step) && Gentle(m, step)
    ensures Goes(cfg, s, more, r) && r == Apply(cfg, m, step)
  {
    One(cfg, m, step);
    r := Apply(cfg, m, step);
    more := Join(cfg, s, a, m, [step], r);
  }

  lemma GoesIsRun(cfg: Config, s: State, steps: seq<Step>, r: State)
    requires Goes(cfg, s, steps, r)
    ensures Exec(cfg, s, steps) == Some(r) && CursorRead(steps)
  {
    var trace :| GentleTrace(cfg, s, steps, r, trace);
    assert forall i :: 0 <= i < |steps| ==> Gentle(trace[i], steps[i]);
    LeadsExec(cfg, s, steps, r);
  }

  // A run that puts nothing.
  lemma GoesWithoutPut(cfg: Config, s: State, steps: seq<Step>, r: State)
    requires Exec(cfg, s, steps) == Some(r) && forall i :: 0 <= i < |steps| ==> !steps[i].PutHead? && !steps[i].BeginUnread?
    ensures Goes(cfg, s, steps, r)
  {
    LeadsExec(cfg, s, steps, r);
    var trace :| IsTrace(cfg, s, steps, r, trace);
    assert GentleTrace(cfg, s, steps, r, trace);
  }

  // ---- one event at a time

  function ItemOf(cfg: Config, e: Record): Item {
    Item(e.id, cfg.recodeBody(e.data), Reload(cfg, e.context), 0, Waiting)
  }

  // The first event of the listing is locked and put.
  lemma TakeHead(cfg: Config, s: State) returns (more: seq<Step>, r: State)
    requires s.phase.Injecting? && s.phase.todo != [] && Fifo.Has(s.store, s.phase.todo[0].id) && |s.flight| < ROOM
    ensures Goes(cfg, s, more, r)
    ensures var h := s.phase.todo[0];
            r == s.(store := Fifo.SetLock(s.store, h.id, true), flight := s.flight[s.next := ItemOf(cfg, h)],
                    next := s.next + 1, phase := Injecting(s.phase.cursor, s.phase.todo[1..]))
  {
    One(cfg, s, LockHead);
    more, r := Then(cfg, s, [LockHead], Apply(cfg, s, LockHead), PutHead);
  }

  // The only item passes through the remaining stages.
  lemma {:induction false} PassOut(cfg: Config, s: State, t: nat) returns (more: seq<Step>, r: State)
    requires t in s.flight ==> s.flight[t].at.Passing? && s.flight[t].stage < |cfg.names|
    requires s.flight.Keys <= {t}
    ensures Goes(cfg, s, more, r) && r == s.(flight := map[])
    decreases if t in s.flight then |cfg.names| - s.flight[t].stage else 0
  {
    if t !in s.flight {
      Stay(cfg, s);
      more, r := [], s;
      assert s.flight == map[];
    } else {
      One(cfg, s, Pass(t));
      var m := Apply(cfg, s, Pass(t));
      var rest;
      rest, r := PassOut(cfg, m, t);
      more := Join(cfg, s, [Pass(t)], m, rest, r);
    }
  }

  // The item passes the stages that have completed its event.
  lemma {:induction false} SkipTo(cfg: Config, s: State, t: nat, k: nat) returns (more: seq<Step>, r: State)
    requires t in s.flight && s.flight[t].at.Waiting? && s.flight[t].stage <= k < |cfg.names|
    requires !Flagged(cfg, s.flight[t].context, k)
    ensures Goes(cfg, s, more, r)
    ensures t in r.flight && r == s.(flight := s.flight[t := s.flight[t].(stage := r.flight[t].stage)])
    ensures r.flight[t].stage < |cfg.names| && !Flagged(cfg, s.flight[t].context, r.flight[t].stage)
    decreases k - s.flight[t].stage
  {
    var item := s.flight[t];
    if !Flagged(cfg, item.context, item.stage) {
      more, r := [], s;
      Stay(cfg, s);
      assert s.flight == s.flight[t := item];
    } else {
      One(cfg, s, Skip(t));
      var m := Apply(cfg, s, Skip(t));
      var rest;
      rest, r := SkipTo(cfg, m, t, k);
      more := Join(cfg, s, [Skip(t)], m, rest, r);
    }
  }

  // Some stage has not completed the event yet.
  ghost predicate Callable(cfg: Config, c: Context) {
    exists k: nat :: k < |cfg.names| && !Flagged(cfg, c, k)
  }

  const REMOVE := Answer(None, None, true, false)

  // The next stage is called and asks for the event to be removed.
  lemma RemoveRun(cfg: Config, s: State, t: nat) returns (more: seq<Step>, r: State)
    requires t in s.flight && s.flight[t].at.Waiting? && s.flight[t].stage < |cfg.names| && s.flight.Keys == {t}
    requires !Flagged(cfg, s.flight[t].context, s.flight[t].stage)
    ensures Goes(cfg, s, more, r) && s.log <= r.log
    ensures r == s.(store := Fifo.Delete(s.store, s.flight[t].uid), flight := map[], log := r.log)
  {
    One(cfg, s, Call(t, REMOVE));
    var a, m := Then(cfg, s, [Call(t, REMOVE)], Apply(cfg, s, Call(t, REMOVE)), Delete(t));
    var b;
    b, r := PassOut(cfg, m, t);
    more := Join(cfg, s, a, m, b, r);
  }

  // The first event of the listing is put, and removed.
  lemma RemoveHead(cfg: Config, s: State) returns (more: seq<Step>, r: State)
    requires s.phase.Injecting? && s.phase.todo != [] && Fifo.Has(s.store, s.phase.todo[0].id) && s.flight == map[]
    requires Callable(cfg, s.phase.todo[0].context)
    ensures Goes(cfg, s, more, r) && s.log <= r.log
    ensures var h := s.phase.todo[0];
            r == s.(store := Fifo.Delete(Fifo.SetLock(s.store, h.id, true), h.id), next := s.next + 1,
                    phase := Injecting(s.phase.cursor, s.phase.todo[1..]), log := r.log)
  {
    var k: nat :| k < |cfg.names| && !Flagged(cfg, s.phase.todo[0].context, k);
    var a, m := TakeHead(cfg, s);
    var b, m2 := SkipTo(cfg, m, s.next, k);
    var c;
    c, r := RemoveRun(cfg, m2, s.next);
    var ab := Join(cfg, s, a, m, b, m2);
    more := Join(cfg, s, ab, m2, c, r);
  }

  // The first stage is yet to complete the event.
  predicate Untried(cfg: Config, c: Context) {
    |cfg.names| >= 1 && !Flagged(cfg, c, 0)
  }

  const LATER := Answer(None, None, false, false)

  // The first stage answers that it is not done, and the event is stored and unlocked again.
  lemma LaterRun(cfg: Config, s: State, t: nat) returns (more: seq<Step>, r: State, body: Blob, context: Context)
    requires t in s.flight && s.flight[t].at.Waiting? && s.flight[t].stage == 0 && s.flight.Keys == {t}
    requires Fifo.Has(s.store, s.flight[t].uid) && Untried(cfg, s.flight[t].context)
    ensures Goes(cfg, s, more, r) && s.log <= r.log && Untried(cfg, context)
    ensures var u := s.flight[t].uid;
            r == s.(store := Fifo.SetLock(Fifo.Update(s.store, u, body, context), u, false), flight := map[], log := r.log)
  {
    One(cfg, s, Call(t, LATER));
    var m := Apply(cfg, s, Call(t, LATER));
    var b;
    b, r, body, context := SettleLater(cfg, m, t);
    more := Join(cfg, s, [Call(t, LATER)], m, b, r);
  }

  lemma SettleLater(cfg: Config, s: State, t: nat) returns (more: seq<Step>, r: State, body: Blob, context: Context)
    requires t in s.flight && s.flight[t].at == Answered(LATER) && s.flight[t].stage == 0 && s.flight.Keys == {t}
    requires Fifo.Has(s.store, s.flight[t].uid) && |cfg.names| >= 1
    ensures Goes(cfg, s, more, r) && s.log <= r.log && Untried(cfg, context)
    ensures var u := s.flight[t].uid;
            r == s.(store := Fifo.SetLock(Fifo.Update(s.store, u, body, context), u, false), flight := map[], log := r.log)
  {
    var done := Absorb(cfg, s.flight[t], LATER);
    body, context := done.body, done.context;
    One(cfg, s, Commit(t));
    var m := Apply(cfg, s, Commit(t));
    var b;
    b, r := UnlockRun(cfg, m, t);
    more := Join(cfg, s, [Commit(t)], m, b, r);
  }

  lemma UnlockRun(cfg: Config, s: State, t: nat) returns (more: seq<Step>, r: State)
    requires t in s.flight && s.flight[t].at.Committed? && s.flight[t].stage < |cfg.names| && s.flight.Keys == {t}
    requires Fifo.Has(s.store, s.flight[t].uid)
    ensures Goes(cfg, s, more, r) && r == s.(store := Fifo.SetLock(s.store, s.flight[t].uid, false), flight := map[])
  {
    One(cfg, s, Unlock(t));
    var m := Apply(cfg, s, Unlock(t));
    var b;
    b, r := PassOut(cfg, m, t);
    more := Join(cfg, s, [Unlock(t)], m, b, r);
  }

  // The first event of the listing is put, and postponed.
  lemma PostponeHead(cfg: Config, s: State) returns (more: seq<Step>, r: State, body: Blob, context: Context)
    requires s.phase.Injecting? && s.phase.todo != [] && Fifo.Has(s.store, s.phase.todo[0].id) && s.flight == map[]
    requires Untried(cfg, s.phase.todo[0].context)
    ensures Goes(cfg, s, more, r) && s.log <= r.log && Untried(cfg, context)
    ensures var h := s.phase.todo[0];
            r == s.(store := Fifo.SetLock(Fifo.Update(Fifo.SetLock(s.store, h.id, true), h.id, body, context), h.id, false),
                    next := s.next + 1, phase := Injecting(s.phase.cursor, s.phase.todo[1..]), log := r.log)
  {
    var a, m := TakeHead(cfg, s);
    var b;
    b, r, body, context := LaterRun(cfg, m, s.next);
    more := Join(cfg, s, a, m, b, r);
  }

  // ---- fetching

  function Arrival(e: Event): Record {
    Fifo.Entry(e.uid, e.body, NO_CONTEXT, false)
  }

  function WithArrival(q: Store, e: Event): Store {
    Fifo.Push(Fifo.Delete(q, e.uid), e.uid, e.body, NO_CONTEXT)
  }

  // Nothing is left to inject: fetch one event and push it.
  lemma FetchRun(cfg: Config, s: State, p: nat) returns (more: seq<Step>, r: State)
    requires s.phase.Injecting? && s.phase.todo == [] && p == Position(cfg, s.phase.cursor) < |s.feed|
    requires !(Fifo.Has(s.store, s.feed[p].uid) && cfg.backend.Sqlite?)
    ensures Goes(cfg, s, more, r)
    ensures r == s.(store := WithArrival(s.store, s.feed[p]), saved := Some(At(p + 1)), lost := s.lost - {s.feed[p].uid},
                    log := s.log + [Pushed(s.feed[p].uid)], phase := Looping(At(p + 1)))
  {
    assert s.feed[p..p + 1] == [s.feed[p]] && [s.feed[p]][1..] == [];
    One(cfg, s, EndInject);
    more, r := Then(cfg, s, [EndInject], Apply(cfg, s, EndInject), Fetch(1));
    more, r := Then(cfg, s, more, r, PushNext);
    more, r := Then(cfg, s, more, r, SaveCursor);
  }

  // Nothing is left to inject, and the service has nothing new.
  lemma IdleRun(cfg: Config, s: State) returns (more: seq<Step>, r: State)
    requires s.phase.Injecting? && s.phase.todo == []
    ensures Goes(cfg, s, more, r) && r == s.(phase := Looping(s.phase.cursor))
  {
    One(cfg, s, EndInject);
    more, r := Then(cfg, s, [EndInject], Apply(cfg, s, EndInject), FetchTimeout);
  }

  // With one event stored, unlocked and nothing in flight, it is loaded.
  lemma LoadOne(cfg: Config, s: State, e: Record)
    requires s.phase.Looping? && s.store == [e] && !e.locked
    ensures Goes(cfg, s, [Load], s.(phase := Injecting(s.phase.cursor, [e]))) && Fifo.Has(s.store, e.id)
  {
    Fifo.SelectCons(e, [], false);
    assert [e] + [] == [e];
    One(cfg, s, Load);
  }
}
