// The stage closure that EventSource.Push builds, as the imperative code it is, and its
// place in the protocol: one undisturbed run of the closure is a run of worker steps.
module StageClosure {
  import opened Prelude
  import Fifo
  import opened Protocol
  import opened Runs
  import Text

  datatype PipelineItem = PipelineItem(uid: string, body: Blob, context: Context, passthrough: bool)

  // What the closure meets from outside: cancellation, the stage's answer (None when
  // Process fails), a context that cannot be encoded, and storage calls that fail.
  datatype World = World(
    cancelled: bool, answer: Option<Answer>, normalizeFails: bool,
    deleteFails: bool, updateFails: bool, unlockFails: bool)

  const NO_ANSWER := Answer(None, None, false, false)

  // The item as the protocol sees it in front of stage `index`.
  function AsItem(p: PipelineItem, index: nat): Item {
    Item(p.uid, p.body, p.context, index, if p.passthrough then Passing else Waiting)
  }

  // The worker steps that follow the stage's answer.
  function AfterAnswer(cfg: Config, store: Store, item: Item, t: nat, a: Answer, w: World): seq<Step>
    requires item.stage < |cfg.names|
  {
    if Finishes(cfg, item, a) then [if w.deleteFails then DeleteFails(t) else Delete(t)]
    else if w.normalizeFails || w.updateFails then [Fail(t)]
    else if !Fifo.Has(store, item.uid) || (a.processed && !IsLast(cfg, item.stage)) then [Commit(t)]
    else [Commit(t), if w.unlockFails then Fail(t) else Unlock(t)]
  }

  // The worker steps that one call of the closure amounts to.
  function Script(cfg: Config, store: Store, item: Item, t: nat, w: World): seq<Step>
    requires item.stage < |cfg.names|
  {
    if w.cancelled then [Fail(t)]
    else if item.at.Passing? then [Pass(t)]
    else if Flagged(cfg, item.context, item.stage) then [Skip(t)]
    else if w.answer.None? then [Call(t, NO_ANSWER), Fail(t)]
    else [Call(t, w.answer.value)] + AfterAnswer(cfg, store, item, t, w.answer.value, w)
  }

  // State s has the item in front of its stage, over this store.
  ghost predicate Meets(s: State, t: nat, store: Store, item: Item) {
    s.store == store && t in s.flight && s.flight[t] == item
  }

  // State s' shows the closure's outcome: the store it left, and the item handed on to the
  // next stage, gone past the last one, or gone with an error, which loses its event if the
  // item was not only passing.
  ghost predicate Shows(cfg: Config, s': State, t: nat, input: PipelineItem, store: Store, out: PipelineItem, index: nat, status: Status) {
    && s'.store == store
    && match status
       case Ok => if index + 1 < |cfg.names| then t in s'.flight && s'.flight[t] == AsItem(out, index + 1)
                  else t !in s'.flight
       case Err => t !in s'.flight && s'.failed && (!input.passthrough ==> input.uid in s'.lost)
  }

  // The steps take s to a state that shows the outcome.
  ghost predicate Reaches(cfg: Config, s: State, steps: seq<Step>, t: nat, input: PipelineItem, store: Store,
                          out: PipelineItem, index: nat, status: Status) {
    exists r :: Leads(cfg, s, steps, r) && Shows(cfg, r, t, input, store, out, index, status)
  }

  lemma ReachesOne(cfg: Config, s: State, a: Step, t: nat, input: PipelineItem, store: Store, out: PipelineItem, index: nat, status: Status)
    requires Enabled(cfg, s, a) && Shows(cfg, Apply(cfg, s, a), t, input, store, out, index, status)
    ensures Reaches(cfg, s, [a], t, input, store, out, index, status)
  {
    LeadsOne(cfg, s, a);
  }

  lemma ReachesLater(cfg: Config, s: State, a: seq<Step>, m: State, b: Step, t: nat, input: PipelineItem, store: Store,
                     out: PipelineItem, index: nat, status: Status)
    requires Leads(cfg, s, a, m) && Enabled(cfg, m, b) && Shows(cfg, Apply(cfg, m, b), t, input, store, out, index, status)
    ensures Reaches(cfg, s, a + [b], t, input, store, out, index, status)
  {
    LeadsOne(cfg, m, b);
    LeadsJoin(cfg, s, a, m, [b], Apply(cfg, m, b));
  }

  // What the closure hands on when it has deleted the event.
  function Gone(input: PipelineItem, a: Answer): PipelineItem {
    PipelineItem(input.uid, match a.body case None => input.body case Some(b) => b, NO_CONTEXT, true)
  }

  function CommittedItem(done: Item): PipelineItem {
    PipelineItem(done.uid, done.body, done.context, true)
  }

  // The state after the call.
  lemma AfterCall(cfg: Config, s: State, t: nat, index: nat, input: PipelineItem, a: Answer) returns (m: State)
    requires index < |cfg.names| && Meets(s, t, s.store, AsItem(input, index)) && !input.passthrough
    requires !Flagged(cfg, input.context, index)
    ensures Leads(cfg, s, [Call(t, a)], m) && Meets(m, t, s.store, AsItem(input, index).(at := Answered(a)))
  {
    LeadsOne(cfg, s, Call(t, a));
    m := Apply(cfg, s, Call(t, a));
  }

  lemma DeleteRun(cfg: Config, s: State, t: nat, index: nat, input: PipelineItem, a: Answer, fails: bool)
    requires index < |cfg.names| && Meets(s, t, s.store, AsItem(input, index)) && !input.passthrough
    requires !Flagged(cfg, input.context, index) && Finishes(cfg, AsItem(input, index), a)
    ensures Reaches(cfg, s, [Call(t, a)] + [if fails then DeleteFails(t) else Delete(t)], t, input,
                    if fails then s.store else Fifo.Delete(s.store, input.uid), Gone(input, a), index, Ok)
  {
    var m := AfterCall(cfg, s, t, index, input, a);
    ReachesLater(cfg, s, [Call(t, a)], m, if fails then DeleteFails(t) else Delete(t), t, input,
                 if fails then s.store else Fifo.Delete(s.store, input.uid), Gone(input, a), index, Ok);
  }

  // Calling and committing, when the event is not stored, or the item goes on.
  lemma CommitRun(cfg: Config, s: State, t: nat, index: nat, input: PipelineItem, a: Answer)
    requires index < |cfg.names| && Meets(s, t, s.store, AsItem(input, index)) && !input.passthrough
    requires !Flagged(cfg, input.context, index) && !Finishes(cfg, AsItem(input, index), a)
    requires !Fifo.Has(s.store, input.uid) || (a.processed && !IsLast(cfg, index))
    ensures var done := Absorb(cfg, AsItem(input, index), a);
            var run := [Call(t, a)] + [Commit(t)];
            if !Fifo.Has(s.store, input.uid)
            then forall out :: Reaches(cfg, s, run, t, input, s.store, out, index, Err)
            else Reaches(cfg, s, run, t, input, Fifo.Update(s.store, input.uid, done.body, done.context),
                         CommittedItem(done).(passthrough := false), index, Ok)
  {
    var m := AfterCall(cfg, s, t, index, input, a);
    var done := Absorb(cfg, AsItem(input, index), a);
    if !Fifo.Has(s.store, input.uid) {
      forall out ensures Reaches(cfg, s, [Call(t, a)] + [Commit(t)], t, input, s.store, out, index, Err) {
        ReachesLater(cfg, s, [Call(t, a)], m, Commit(t), t, input, s.store, out, index, Err);
      }
    } else {
      ReachesLater(cfg, s, [Call(t, a)], m, Commit(t), t, input, Fifo.Update(s.store, input.uid, done.body, done.context),
                   CommittedItem(done).(passthrough := false), index, Ok);
    }
  }

  // The state after calling and committing, when the event is to be unlocked.
  lemma AfterCommit(cfg: Config, s: State, t: nat, index: nat, input: PipelineItem, a: Answer) returns (m: State)
    requires index < |cfg.names| && Meets(s, t, s.store, AsItem(input, index)) && !input.passthrough
    requires !Flagged(cfg, input.context, index) && !Finishes(cfg, AsItem(input, index), a)
    requires Fifo.Has(s.store, input.uid) && (IsLast(cfg, index) || !a.processed)
    ensures var done := Absorb(cfg, AsItem(input, index), a);
            Leads(cfg, s, [Call(t, a)] + [Commit(t)], m) &&
            Meets(m, t, Fifo.Update(s.store, input.uid, done.body, done.context), done.(at := Committed))
  {
    var c := AfterCall(cfg, s, t, index, input, a);
    LeadsOne(cfg, c, Commit(t));
    m := Apply(cfg, c, Commit(t));
    LeadsJoin(cfg, s, [Call(t, a)], c, [Commit(t)], m);
  }

  // Calling, committing, and then the unlock or its failure.
  lemma CommitUnlockRun(cfg: Config, s: State, t: nat, index: nat, input: PipelineItem, a: Answer, fails: bool)
    requires index < |cfg.names| && Meets(s, t, s.store, AsItem(input, index)) && !input.passthrough
    requires !Flagged(cfg, input.context, index) && !Finishes(cfg, AsItem(input, index), a)
    requires Fifo.Has(s.store, input.uid) && (IsLast(cfg, index) || !a.processed)
    ensures var done := Absorb(cfg, AsItem(input, index), a);
            var stored := Fifo.Update(s.store, input.uid, done.body, done.context);
            Reaches(cfg, s, [Call(t, a)] + [Commit(t), if fails then Fail(t) else Unlock(t)], t, input,
                    if fails then stored else Fifo.SetLock(stored, input.uid, false), CommittedItem(done), index,
                    if fails then Err else Ok)
  {
    var done := Absorb(cfg, AsItem(input, index), a);
    var stored := Fifo.Update(s.store, input.uid, done.body, done.context);
    var last := if fails then Fail(t) else Unlock(t);
    var m := AfterCommit(cfg, s, t, index, input, a);
    ReachesLater(cfg, s, [Call(t, a)] + [Commit(t)], m, last, t, input,
                 if fails then stored else Fifo.SetLock(stored, input.uid, false), CommittedItem(done), index,
                 if fails then Err else Ok);
    assert [Call(t, a)] + [Commit(t)] + [last] == [Call(t, a)] + [Commit(t), last];
  }

  // A failure right after the call.
  lemma CallFailRun(cfg: Config, s: State, t: nat, index: nat, input: PipelineItem, a: Answer, out: PipelineItem)
    requires index < |cfg.names| && Meets(s, t, s.store, AsItem(input, index)) && !input.passthrough
    requires !Flagged(cfg, input.context, index)
    ensures Reaches(cfg, s, [Call(t, a)] + [Fail(t)], t, input, s.store, out, index, Err)
  {
    var m := AfterCall(cfg, s, t, index, input, a);
    ReachesLater(cfg, s, [Call(t, a)], m, Fail(t), t, input, s.store, out, index, Err);
  }

  // ---- what the closure does, told by the answer of the stage

  // The other events are as they were.
  ghost predicate OnlyChanges(was: Store, now: Store, uid: string) {
    forall v :: v != uid ==> Fifo.Find(now, v) == Fifo.Find(was, v)
  }

  // The stored event after the answer: the body the stage gave or else the one it got, the
  // context it gave or else an empty one, and whether it has completed the event.
  ghost predicate Keeps(cfg: Config, index: nat, input: PipelineItem, a: Answer, e: Record)
    requires index < |cfg.names|
  {
    && (a.body.Some? ==> e.data == a.body.value) && (a.body.None? ==> e.data == input.body)
    && (a.pipeline.Some? ==> e.context.pipeline == Some(cfg.recodeContext(a.pipeline.value)))
    && (a.pipeline.None? ==> e.context.pipeline == Some(cfg.recodeContext(EMPTY_MAP)))
    && e.context.flags == input.context.flags[cfg.names[index] := a.processed]
  }

  // The event leaves, is stored with the answer, or stays as it was if something fails.  A
  // stored event is unlocked unless it goes on to the next stage.
  ghost predicate DoneWith(cfg: Config, index: nat, input: PipelineItem, a: Answer, w: World, was: Store,
                           now: Store, out: PipelineItem, status: Status)
    requires index < |cfg.names|
  {
    var last := index == |cfg.names| - 1;
    if a.remove || (a.processed && last) then
      && status == Ok && out.passthrough && out.uid == input.uid
      && if w.deleteFails then now == was else !Fifo.Has(now, input.uid) && OnlyChanges(was, now, input.uid)
    else if w.normalizeFails || w.updateFails || !Fifo.Has(was, input.uid) then status == Err && now == was
    else
      && Fifo.Has(now, input.uid) && OnlyChanges(was, now, input.uid)
      && var e := Fifo.Find(now, input.uid).value;
      && Keeps(cfg, index, input, a, e)
      && (status == Ok <==> (a.processed && !last) || !w.unlockFails)
      && (status == Ok ==> out == PipelineItem(input.uid, e.data, e.context, !a.processed || last))
      && e.locked == if status == Ok && (!a.processed || last) then false else Fifo.Find(was, input.uid).value.locked
  }

  lemma DoneDeleted(cfg: Config, index: nat, input: PipelineItem, a: Answer, w: World, was: Store, now: Store, out: PipelineItem)
    requires index < |cfg.names| && (a.remove || (a.processed && index == |cfg.names| - 1))
    requires now == if w.deleteFails then was else Fifo.Delete(was, input.uid)
    requires out.passthrough && out.uid == input.uid
    ensures DoneWith(cfg, index, input, a, w, was, now, out, Ok)
  {
  }

  // The stored event with this body and context, unlocked or not.
  lemma DoneStored(cfg: Config, index: nat, input: PipelineItem, a: Answer, w: World, was: Store, now: Store,
                   out: PipelineItem, status: Status, free: bool)
    requires index < |cfg.names| && !a.remove && !(a.processed && index == |cfg.names| - 1)
    requires !w.normalizeFails && !w.updateFails && Fifo.Has(was, input.uid)
    requires Keeps(cfg, index, input, a, Fifo.Entry(input.uid, out.body, out.context, false))
    requires var stored := Fifo.Update(was, input.uid, out.body, out.context);
             now == if free then Fifo.SetLock(stored, input.uid, false) else stored
    requires var over := !a.processed || index == |cfg.names| - 1;
             && (status == Ok <==> !over || !w.unlockFails) && (free <==> over && status == Ok)
             && (status == Ok ==> out.uid == input.uid && out.passthrough == over)
    ensures DoneWith(cfg, index, input, a, w, was, now, out, status)
  {
  }

  ghost predicate Did(cfg: Config, index: nat, input: PipelineItem, w: World, was: Store,
                      now: Store, out: PipelineItem, status: Status)
    requires index < |cfg.names|
  {
    if w.cancelled then now == was && status == Err
    else if input.passthrough || Flagged(cfg, input.context, index) then now == was && status == Ok && out == input
    else if w.answer.None? then now == was && status == Err
    else DoneWith(cfg, index, input, w.answer.value, w, was, now, out, status)
  }

  // fmt.Sprintf("__s%d", n)
  function GeneratedName(n: nat): string {
    "__s" + Text.PrintNat(n)
  }

  // The name of a stage without one: its position after two underscores and an s.
  lemma GeneratedNameIs(n: nat)
    ensures GeneratedName(n) == "__s" + Text.PrintInt(n) && GeneratedName(0) == "__s0"
  {
  }

  // Stages without a name never clash with each other, only with a stage given such a name.
  lemma GeneratedNamesDiffer(m: nat, n: nat)
    requires GeneratedName(m) == GeneratedName(n)
    ensures m == n
  {
    assert GeneratedName(m)[3..] == Text.PrintNat(m) && GeneratedName(n)[3..] == Text.PrintNat(n);
    Text.ParsePrintNat(m);
    Text.ParsePrintNat(n);
  }

  class EventSource {
    var names: seq<string>  // of the stages pushed so far
    var store: Store        // the events of this source

    ghost predicate Valid()
      reads this
    {
      forall i, j :: 0 <= i < j < |names| ==> names[i] != names[j]
    }

    constructor ()
      ensures Valid() && names == [] && store == []
    {
      names, store := [], [];
    }

    // Adds a stage under the given name, or one made from its position; a name in use is an error.
    method Push(name: string) returns (status: Status)
      requires Valid()
      modifies this
      ensures Valid() && store == old(store)
      ensures var chosen := if name == "" then GeneratedName(|old(names)|) else name;
              && (status == Ok <==> chosen !in old(names))
              && names == if status == Ok then old(names) + [chosen] else old(names)
    {
      var chosen := if name == "" then GeneratedName(|names|) else name;
      if chosen in names {
        return Err;
      }
      names := names + [chosen];
      return Ok;
    }

    method UpdateEvent(uid: string, body: Blob, context: Context, fails: bool) returns (status: Status)
      modifies this`store
      ensures status == (if fails || !Fifo.Has(old(store), uid) then Err else Ok)
      ensures store == if status == Ok then Fifo.Update(old(store), uid, body, context) else old(store)
    {
      if fails || !Fifo.Has(store, uid) {
        return Err;
      }
      store := Fifo.Update(store, uid, body, context);
      return Ok;
    }

    // A missing event is an error only in the memory back end.
    method UnlockEvent(uid: string, backend: Backend, fails: bool) returns (status: Status)
      modifies this`store
      ensures status == (if fails || (backend.Memory? && !Fifo.Has(old(store), uid)) then Err else Ok)
      ensures store == if status == Ok then Fifo.SetLock(old(store), uid, false) else old(store)
    {
      if fails || (backend.Memory? && !Fifo.Has(store, uid)) {
        return Err;
      }
      store := Fifo.SetLock(store, uid, false);
      return Ok;
    }

    method DeleteEvent(uid: string, fails: bool)
      modifies this`store
      ensures store == if fails then old(store) else Fifo.Delete(old(store), uid)
    {
      if !fails {
        store := Fifo.Delete(store, uid);
      }
    }

    // The part of the closure that follows the stage's answer.
    method Settle(cfg: Config, index: nat, input: PipelineItem, a: Answer, w: World, ghost s: State, ghost t: nat)
      returns (out: PipelineItem, status: Status)
      requires index < |names| && cfg.names == names && !input.passthrough && !Flagged(cfg, input.context, index)
      requires Meets(s, t, store, AsItem(input, index))
      modifies this`store
      ensures Reaches(cfg, s, [Call(t, a)] + AfterAnswer(cfg, old(store), AsItem(input, index), t, a, w),
                      t, input, store, out, index, status)
      ensures DoneWith(cfg, index, input, a, w, old(store), store, out, status)
    {
      var isLastStage := index == |names| - 1;
      out := PipelineItem(input.uid, if a.body.Some? then a.body.value else input.body, NO_CONTEXT, false);
      if a.remove || (a.processed && isLastStage) {
        DeleteEvent(input.uid, w.deleteFails);
        out := out.(passthrough := true);
        DeleteRun(cfg, s, t, index, input, a, w.deleteFails);
        DoneDeleted(cfg, index, input, a, w, old(store), store, out);
        return out, Ok;
      }
      var pipeline := if a.pipeline.None? then EMPTY_MAP else a.pipeline.value;
      var eventContext := input.context.(flags := input.context.flags[names[index] := a.processed]);
      if w.normalizeFails {
        CallFailRun(cfg, s, t, index, input, a, out);
        return out, Err;
      }
      out := out.(context := eventContext.(pipeline := Some(cfg.recodeContext(pipeline))));
      status := UpdateEvent(out.uid, out.body, out.context, w.updateFails);
      if w.updateFails {
        CallFailRun(cfg, s, t, index, input, a, out);
        return;
      }
      if status == Err {
        CommitRun(cfg, s, t, index, input, a);
        return;
      }
      if isLastStage || !a.processed {
        status := UnlockEvent(out.uid, cfg.backend, w.unlockFails);
        CommitUnlockRun(cfg, s, t, index, input, a, w.unlockFails);
        if status == Err {
          DoneStored(cfg, index, input, a, w, old(store), store, out, status, false);
          return;
        }
        out := out.(passthrough := true);
        DoneStored(cfg, index, input, a, w, old(store), store, out, Ok, true);
        return out, Ok;
      }
      CommitRun(cfg, s, t, index, input, a);
      DoneStored(cfg, index, input, a, w, old(store), store, out, Ok, false);
      return out, Ok;
    }

    // The closure of the stage with this index.  `s` is any protocol state in which the
    // item waits in front of the stage as token t; the scripted worker steps lead from it to a
    // state that shows what the closure did.
    method RunStage(cfg: Config, index: nat, input: PipelineItem, w: World, ghost s: State, ghost t: nat)
      returns (out: PipelineItem, status: Status)
      requires index < |names| && cfg.names == names
      requires Meets(s, t, store, AsItem(input, index))
      modifies this`store
      ensures Reaches(cfg, s, Script(cfg, old(store), AsItem(input, index), t, w), t, input, store, out, index, status)
      ensures Did(cfg, index, input, w, old(store), store, out, status)
    {
      if w.cancelled {
        ReachesOne(cfg, s, Fail(t), t, input, store, input, index, Err);
        return input, Err;
      }
      if input.passthrough {
        ReachesOne(cfg, s, Pass(t), t, input, store, input, index, Ok);
        return input, Ok;
      }
      if names[index] in input.context.flags && input.context.flags[names[index]] {
        ReachesOne(cfg, s, Skip(t), t, input, store, input, index, Ok);
        return input, Ok;
      }
      if w.answer.None? {
        out := PipelineItem("", EMPTY_MAP, NO_CONTEXT, false);
        CallFailRun(cfg, s, t, index, input, NO_ANSWER, out);
        assert [Call(t, NO_ANSWER)] + [Fail(t)] == [Call(t, NO_ANSWER), Fail(t)];
        return out, Err;
      }
      out, status := Settle(cfg, index, input, w.answer.value, w, s, t);
    }
  }
}
