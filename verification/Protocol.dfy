// The event pipeline of one source as a state machine: the producer loop, the stage
// workers and the durable queue, interleaved step by step, with stops and restarts at
// any point.  A step label fixes every choice the environment makes, so `Apply` is a
// function; a run is a sequence of labels.
module Protocol {
  import opened Prelude
  import Fifo

  // An encoded value the pipeline carries but never looks into.
  type Blob = string

  const EMPTY_MAP: Blob := ""

  datatype Event = Event(uid: string, body: Blob)

  // The event context: the "processedStages" flags and the "pipelineContext" value.
  datatype Context = Context(flags: map<string, bool>, pipeline: Option<Blob>)

  const NO_CONTEXT := Context(map[], None)

  type Store = Fifo.Queue<Blob, Context>
  type Record = Fifo.Entry<Blob, Context>

  // A continuation id as a position in the feed; Origin is the empty id, for which the
  // service starts at the configured time.
  datatype Cursor = Origin | At(pos: nat)

  datatype Backend = Memory | Sqlite

  datatype Config = Config(
    names: seq<string>,           // stage names, in pipeline order
    continuation: Cursor,         // EventSourceParams.ContinuationID
    since: nat,                   // the first feed position at or after EventSourceParams.Since
    backend: Backend,
    recodeBody: Blob -> Blob,     // an event body after one trip through its storage encoding
    recodeContext: Blob -> Blob)  // a pipeline context after one trip through msgpack

  datatype Answer = Answer(body: Option<Blob>, pipeline: Option<Blob>, remove: bool, processed: bool)

  // Where a worker stands in the stage closure for this item.
  datatype Progress =
    | Waiting                  // before the stage runs
    | Answered(answer: Answer) // Process has returned
    | Committed                // context stored, unlock still to come
    | Passing                  // passthrough

  datatype Item = Item(uid: string, body: Blob, context: Context, stage: nat, at: Progress)

  datatype Phase =
    | Down
    | Unlocking
    | Looping(cursor: Cursor)
    | Injecting(cursor: Cursor, todo: Store)
    | Holding(cursor: Cursor, head: Record, todo: Store)
    | Fetching(cursor: Cursor)
    | Pushing(cursor: Cursor, batch: seq<Event>)
    | Stopped

  // What happened so far; only used to state properties of whole runs.
  datatype Action =
    | Pushed(uid: string)
    | Called(uid: string, stage: nat, input: Blob)
    | Stored(uid: string, stage: nat, processed: bool, pipeline: Blob)
    | Deleted(uid: string, stage: nat, removed: bool)

  datatype State = State(
    store: Store,
    saved: Option<Cursor>,
    feed: seq<Event>,
    phase: Phase,
    flight: map<nat, Item>,
    next: nat,
    lost: set<string>,  // events this run has left locked without an item
    failed: bool,       // some worker has returned an error in this run
    log: seq<Action>)

  datatype Step =
    // the service
    | Grow(event: Event)
    // the producer
    | Start | UnlockOne(uid: string) | BeginLoop | BeginUnread | Load | LockHead | PutHead | DropHead | EndInject
    | Fetch(count: nat) | FetchTimeout | PushNext | SaveCursor | Stop
    // a stage worker holding item `token`
    | Skip(token: nat) | Call(token: nat, answer: Answer) | Delete(token: nat) | DeleteFails(token: nat)
    | Commit(token: nat) | Unlock(token: nat) | Pass(token: nat) | Fail(token: nat)
    // the run ends, or the process dies, at any point
    | EndRun

  predicate OfWorker(step: Step) {
    match step
    case Skip(_) => true
    case Call(_, _) => true
    case Delete(_) => true
    case DeleteFails(_) => true
    case Commit(_) => true
    case Unlock(_) => true
    case Pass(_) => true
    case Fail(_) => true
    case _ => false
  }

  function Position(cfg: Config, c: Cursor): nat {
    match c
    case Origin => cfg.since
    case At(pos) => pos
  }

  function StartPosition(cfg: Config): nat {
    Position(cfg, cfg.continuation)
  }

  function Reload(cfg: Config, c: Context): Context {
    match c.pipeline
    case None => c
    case Some(p) => c.(pipeline := Some(cfg.recodeContext(p)))
  }

  predicate Flagged(cfg: Config, c: Context, stage: nat)
    requires stage < |cfg.names|
  {
    cfg.names[stage] in c.flags && c.flags[cfg.names[stage]]
  }

  predicate IsLast(cfg: Config, stage: nat) {
    stage + 1 == |cfg.names|
  }

  function StageInput(c: Context): Blob {
    match c.pipeline
    case None => EMPTY_MAP
    case Some(p) => p
  }

  // The stage is finished with the event for good.
  predicate Finishes(cfg: Config, item: Item, a: Answer) {
    a.remove || (a.processed && IsLast(cfg, item.stage))
  }

  function AnswerPipeline(cfg: Config, a: Answer): Blob {
    cfg.recodeContext(match a.pipeline case None => EMPTY_MAP case Some(p) => p)
  }

  // The item and its context after the answer of its stage is written down.
  function Absorb(cfg: Config, item: Item, a: Answer): Item
    requires item.stage < |cfg.names|
  {
    item.(body := match a.body case None => item.body case Some(b) => b,
          context := Context(item.context.flags[cfg.names[item.stage] := a.processed], Some(AnswerPipeline(cfg, a))))
  }

  // A finished item only passes through the remaining stages; its context is dropped.
  function Discard(item: Item, a: Answer): Item {
    item.(body := match a.body case None => item.body case Some(b) => b, context := NO_CONTEXT, at := Passing)
  }

  predicate HasToken(s: State, t: nat) {
    t in s.flight
  }

  // The closure returns `item`; past the last stage it leaves the pipeline.
  function Forward(cfg: Config, s: State, t: nat, item: Item): State {
    if item.stage + 1 < |cfg.names| then s.(flight := s.flight[t := item.(stage := item.stage + 1)])
    else Drop(s, t)
  }

  function Drop(s: State, t: nat): State {
    s.(flight := map k | k in s.flight && k != t :: s.flight[k])
  }

  // A worker returns an error: its item is gone, and with it the work on its event, unless it
  // was only passing.  The producer notices later, if at all.
  function Abort(s: State, t: nat): State
    requires HasToken(s, t)
  {
    Drop(s, t).(lost := if Active(s.flight[t]) then s.lost + {s.flight[t].uid} else s.lost, failed := true)
  }

  // A worker or the pipeline still means to act on the stored event.
  predicate Active(item: Item) {
    !item.at.Passing?
  }

  predicate Enabled(cfg: Config, s: State, step: Step) {
    match step
    case Grow(_) => true
    case Start => s.phase.Down?
    case UnlockOne(u) => s.phase.Unlocking? && Fifo.Has(s.store, u) && Fifo.Find(s.store, u).value.locked
    case BeginLoop => s.phase.Unlocking? && Fifo.Select(s.store, true) == []
    case BeginUnread => s.phase.Unlocking? && Fifo.Select(s.store, true) == []
    case Load => s.phase.Looping?
    case LockHead => s.phase.Injecting? && s.phase.todo != []
    case PutHead => s.phase.Holding?
    case DropHead => s.phase.Holding? && s.failed
    case EndInject => s.phase.Injecting? && s.phase.todo == []
    case Fetch(count) => s.phase.Fetching? && count <= 100 &&
                         (count == 0 || Position(cfg, s.phase.cursor) + count <= |s.feed|)
    case FetchTimeout => s.phase.Fetching?
    case PushNext => s.phase.Pushing? && s.phase.batch != []
    case SaveCursor => s.phase.Pushing? && s.phase.batch == []
    case Stop => !s.phase.Down?
    case Skip(t) => HasToken(s, t) && s.flight[t].at.Waiting? && s.flight[t].stage < |cfg.names| &&
                    Flagged(cfg, s.flight[t].context, s.flight[t].stage)
    case Call(t, _) => HasToken(s, t) && s.flight[t].at.Waiting? && s.flight[t].stage < |cfg.names| &&
                       !Flagged(cfg, s.flight[t].context, s.flight[t].stage)
    case Delete(t) => HasToken(s, t) && s.flight[t].at.Answered? && Finishes(cfg, s.flight[t], s.flight[t].at.answer)
    case DeleteFails(t) => HasToken(s, t) && s.flight[t].at.Answered? && Finishes(cfg, s.flight[t], s.flight[t].at.answer)
    case Commit(t) => HasToken(s, t) && s.flight[t].at.Answered? && s.flight[t].stage < |cfg.names| &&
                      !Finishes(cfg, s.flight[t], s.flight[t].at.answer)
    case Unlock(t) => HasToken(s, t) && s.flight[t].at.Committed?
    case Pass(t) => HasToken(s, t) && s.flight[t].at.Passing?
    case Fail(t) => HasToken(s, t)
    case EndRun => !s.phase.Down?
  }

  function Apply(cfg: Config, s: State, step: Step): State
    requires Enabled(cfg, s, step)
  {
    match step
    case Grow(e) => s.(feed := s.feed + [e])
    case Start => s.(phase := Unlocking, lost := {}, failed := false)
    case UnlockOne(u) => s.(store := Fifo.SetLock(s.store, u, false))
    case BeginLoop => s.(phase := Looping(match s.saved case None => cfg.continuation case Some(c) => c))
    // reading the cursor fails
    case BeginUnread => s.(phase := Looping(cfg.continuation))
    case Load => s.(phase := Injecting(s.phase.cursor, Fifo.First(Fifo.Select(s.store, false), 100)))
    case LockHead => ApplyLockHead(cfg, s)
    case PutHead =>
      var h := s.phase.head;
      s.(flight := s.flight[s.next := Item(h.id, cfg.recodeBody(h.data), Reload(cfg, h.context), 0, Waiting)],
         next := s.next + 1, phase := Injecting(s.phase.cursor, s.phase.todo))
    // after an error the pipeline takes no more items
    case DropHead => s.(lost := s.lost + {s.phase.head.id}, phase := Injecting(s.phase.cursor, s.phase.todo))
    case EndInject => s.(phase := Fetching(s.phase.cursor))
    case Fetch(count) => ApplyFetch(cfg, s, count)
    case FetchTimeout => s.(phase := Looping(s.phase.cursor))
    case PushNext => ApplyPush(cfg, s)
    case SaveCursor => s.(saved := Some(s.phase.cursor), phase := Looping(s.phase.cursor))
    case Stop => s.(phase := Stopped)
    case Skip(t) => Forward(cfg, s, t, s.flight[t])
    case Call(t, a) =>
      var item := s.flight[t];
      s.(flight := s.flight[t := item.(at := Answered(a))],
         log := s.log + [Called(item.uid, item.stage, StageInput(item.context))])
    case Delete(t) =>
      var item := s.flight[t];
      Forward(cfg, s.(store := Fifo.Delete(s.store, item.uid),
                      log := s.log + [Deleted(item.uid, item.stage, item.at.answer.remove)]), t, Discard(item, item.at.answer))
    case DeleteFails(t) =>
      var item := s.flight[t];
      Forward(cfg, s.(lost := s.lost + {item.uid}), t, Discard(item, item.at.answer))
    case Commit(t) => ApplyCommit(cfg, s, t)
    case Unlock(t) => ApplyUnlock(cfg, s, t)
    case Pass(t) => Forward(cfg, s, t, s.flight[t])
    case Fail(t) => Abort(s, t)
    // the memory back end goes with its manager, so that no run follows
    case EndRun => s.(phase := if cfg.backend.Memory? then Stopped else Down, flight := map[])
  }

  // Locking an event the store does not hold is an error only in the memory back end.
  function ApplyLockHead(cfg: Config, s: State): State
    requires Enabled(cfg, s, LockHead)
  {
    var h := s.phase.todo[0];
    if !Fifo.Has(s.store, h.id) && cfg.backend.Memory? then s.(phase := Stopped)
    else s.(store := Fifo.SetLock(s.store, h.id, true), phase := Holding(s.phase.cursor, h, s.phase.todo[1..]))
  }

  // An empty answer moves the local cursor but is not pushed or saved.
  function ApplyFetch(cfg: Config, s: State, count: nat): State
    requires Enabled(cfg, s, Fetch(count))
  {
    var p := Position(cfg, s.phase.cursor);
    if count == 0 then s.(phase := Looping(At(p)))
    else s.(phase := Pushing(At(p + count), s.feed[p..p + count]))
  }

  // The first push of a source also creates its cursor row, with an empty cursor.  An event
  // that is still stored fails on the primary key in SQLite and is replaced in memory.
  function ApplyPush(cfg: Config, s: State): State
    requires Enabled(cfg, s, PushNext)
  {
    var e := s.phase.batch[0];
    if Fifo.Has(s.store, e.uid) && cfg.backend.Sqlite? then s.(phase := Stopped)
    else s.(store := Fifo.Push(Fifo.Delete(s.store, e.uid), e.uid, e.body, NO_CONTEXT),
            lost := s.lost - {e.uid},
            saved := Some(if s.saved.None? then Origin else s.saved.value),
            phase := Pushing(s.phase.cursor, s.phase.batch[1..]),
            log := s.log + [Pushed(e.uid)])
  }

  function ApplyCommit(cfg: Config, s: State, t: nat): State
    requires Enabled(cfg, s, Commit(t))
  {
    var item := s.flight[t];
    var a := item.at.answer;
    var done := Absorb(cfg, item, a);
    if !Fifo.Has(s.store, item.uid) then Abort(s, t)
    else
      var s' := s.(store := Fifo.Update(s.store, item.uid, done.body, done.context),
                   log := s.log + [Stored(item.uid, item.stage, a.processed, AnswerPipeline(cfg, a))]);
      if IsLast(cfg, item.stage) || !a.processed then s'.(flight := s'.flight[t := done.(at := Committed)])
      else Forward(cfg, s', t, done.(at := Waiting))
  }

  function ApplyUnlock(cfg: Config, s: State, t: nat): State
    requires Enabled(cfg, s, Unlock(t))
  {
    var item := s.flight[t];
    if !Fifo.Has(s.store, item.uid) && cfg.backend.Memory? then Abort(s, t)
    else Forward(cfg, s.(store := Fifo.SetLock(s.store, item.uid, false)), t, item.(at := Passing))
  }

  function Init(feed: seq<Event>): State {
    State([], None, feed, Down, map[], 0, {}, false, [])
  }

  // The state after all steps, if each was enabled in turn.
  function Exec(cfg: Config, s: State, steps: seq<Step>): Option<State> {
    if steps == [] then Some(s)
    else
      var r := Exec(cfg, s, steps[..|steps| - 1]);
      var last := steps[|steps| - 1];
      if r.Some? && Enabled(cfg, r.value, last) then Some(Apply(cfg, r.value, last)) else None
  }

  // What is assumed of a configuration: distinct stage names (EventSource.Push refuses a
  // repeated one), at least one stage, and a context encoding that is stable once decoded.
  ghost predicate Proper(cfg: Config) {
    && |cfg.names| >= 1
    && (forall i, j :: 0 <= i < j < |cfg.names| ==> cfg.names[i] != cfg.names[j])
    && (forall p :: cfg.recodeContext(cfg.recodeContext(p)) == cfg.recodeContext(p))
  }

  // A push that meets no active item of the same event.
  predicate Calm(s: State, step: Step) {
    step.PushNext? && s.phase.Pushing? && s.phase.batch != [] ==>
      forall t | t in s.flight :: Active(s.flight[t]) ==> s.flight[t].uid != s.phase.batch[0].uid
  }

  // Every push of the run is calm.  SQLite needs no such assumption.
  predicate CalmRun(cfg: Config, s: State, steps: seq<Step>) {
    steps == [] ||
    (CalmRun(cfg, s, steps[..|steps| - 1]) &&
     var r := Exec(cfg, s, steps[..|steps| - 1]);
     r.Some? ==> Calm(r.value, steps[|steps| - 1]))
  }

  // A state the pipeline can reach: any steps from an empty store, over any feed.
  ghost predicate Reached(cfg: Config, feed: seq<Event>, steps: seq<Step>, s: State) {
    Exec(cfg, Init(feed), steps) == Some(s) && (cfg.backend.Memory? ==> CalmRun(cfg, Init(feed), steps))
  }
}
