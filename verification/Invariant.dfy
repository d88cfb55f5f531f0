// The inductive invariant of the pipeline protocol, and the proof that every step keeps it.
module Invariant {
  import opened Prelude
  import Fifo
  import opened Protocol
  import H = History

  type Flight = map<nat, Item>

  predicate ActiveAt(flight: Flight, t: nat, u: string) {
    t in flight && Active(flight[t]) && flight[t].uid == u
  }

  ghost predicate InHand(flight: Flight, u: string) {
    exists t :: ActiveAt(flight, t, u)
  }

  predicate Locked(store: Store, u: string) {
    Fifo.Has(store, u) && Fifo.Find(store, u).value.locked
  }

  // A stored context is one the log explains: its flags are the completed stages, an
  // initial segment that excludes the last stage, and its pipeline context is the last
  // one stored.
  ghost predicate Explained(cfg: Config, log: H.Log, u: string, c: Context) {
    && c.pipeline == H.Memo(log, u)
    && Reload(cfg, c) == c
    && H.Level(log, u) < |cfg.names|
    && forall i: nat :: i < |cfg.names| ==> (Flagged(cfg, c, i) <==> i < H.Level(log, u))
  }

  ghost predicate StoreInv(cfg: Config, store: Store, log: H.Log) {
    && Fifo.UniqueIds(store)
    && (forall u :: Fifo.Has(store, u) <==> H.Alive(log, u))
    && (forall u :: Fifo.Has(store, u) ==> Explained(cfg, log, u, Fifo.Find(store, u).value.context))
  }

  // An active item is backed by a locked stored event with exactly the item's context.
  ghost predicate Backed(cfg: Config, store: Store, log: H.Log, item: Item) {
    && Locked(store, item.uid)
    && var e := Fifo.Find(store, item.uid).value;
    && e.context == item.context
    && (item.body == e.data || item.body == cfg.recodeBody(e.data))
    && (match item.at
        case Waiting => item.stage <= H.Level(log, item.uid)
        case Answered(a) => item.stage == H.Level(log, item.uid) && H.InCall(log, item.uid, item.stage)
        case _ => true)
  }

  ghost predicate FlightInv(cfg: Config, store: Store, log: H.Log, flight: Flight, next: nat) {
    forall t :: t in flight ==> t < next && flight[t].stage < |cfg.names| &&
                                (Active(flight[t]) ==> Backed(cfg, store, log, flight[t]))
  }

  // At most one active item per event.
  ghost predicate Exclusive(flight: Flight) {
    forall t1, t2, u :: ActiveAt(flight, t1, u) && ActiveAt(flight, t2, u) ==> t1 == t2
  }

  // The rest of a snapshot still shows what is stored, unlocked.
  ghost predicate Current(store: Store, todo: Store) {
    && Fifo.UniqueIds(todo)
    && forall i :: 0 <= i < |todo| ==> Fifo.Find(store, todo[i].id) == Some(todo[i]) && !todo[i].locked
  }

  ghost predicate PhaseInv(store: Store, flight: Flight, phase: Phase) {
    match phase
    case Down => flight == map[]
    case Unlocking => flight == map[]
    case Injecting(_, todo) => Current(store, todo)
    case Holding(_, head, todo) =>
      && Current(store, todo)
      && !head.locked
      && Fifo.Find(store, head.id) == Some(head.(locked := true))
      && !InHand(flight, head.id)
    case _ => true
  }

  predicate Serving(p: Phase) {
    p.Looping? || p.Injecting? || p.Holding? || p.Fetching? || p.Pushing?
  }

  // The event is locked, nothing acts on it, and the producer is not about to put it.
  ghost predicate Abandoned(store: Store, flight: Flight, phase: Phase, u: string) {
    Locked(store, u) && !InHand(flight, u) && !(phase.Holding? && phase.head.id == u)
  }

  // While the producer runs, the abandoned events are exactly those the run has lost.
  ghost predicate WorkInv(store: Store, flight: Flight, phase: Phase, lost: set<string>) {
    && (Serving(phase) ==> forall u :: u in lost <==> Abandoned(store, flight, phase, u))
    && (phase.Unlocking? ==> lost == {})
  }

  ghost predicate Inv(cfg: Config, s: State) {
    && H.Legal(|cfg.names|, s.log)
    && StoreInv(cfg, s.store, s.log)
    && FlightInv(cfg, s.store, s.log, s.flight, s.next)
    && Exclusive(s.flight)
    && PhaseInv(s.store, s.flight, s.phase)
    && WorkInv(s.store, s.flight, s.phase, s.lost)
  }

  lemma InitInv(cfg: Config, feed: seq<Event>)
    ensures Inv(cfg, Init(feed))
  {
  }

  // ---- one more log entry

  lemma LogStep(n: nat, log: H.Log, a: Action)
    ensures forall u :: u != a.uid ==>
              H.Alive(log + [a], u) == H.Alive(log, u) && H.Level(log + [a], u) == H.Level(log, u) &&
              H.Memo(log + [a], u) == H.Memo(log, u)
    ensures forall u, k :: u != a.uid ==> H.InCall(log + [a], u, k) == H.InCall(log, u, k)
    ensures H.Alive(log + [a], a.uid) == !a.Deleted?
    ensures a.Called? ==> H.Level(log + [a], a.uid) == H.Level(log, a.uid) && H.Memo(log + [a], a.uid) == H.Memo(log, a.uid) &&
                          H.InCall(log + [a], a.uid, a.stage)
    ensures a.Stored? ==> H.Level(log + [a], a.uid) == (if a.processed then a.stage + 1 else H.Level(log, a.uid)) &&
                          H.Memo(log + [a], a.uid) == Some(a.pipeline)
    ensures a.Pushed? ==> H.Level(log + [a], a.uid) == 0 && H.Memo(log + [a], a.uid) == None
    ensures H.Legal(n, log) && H.MayFollow(n, log, a) ==> H.Legal(n, log + [a])
  {
    H.Snoc(log, a);
  }

  // ---- steps of the producer

  lemma UnlockOneInv(cfg: Config, s: State, u: string)
    requires Inv(cfg, s) && Enabled(cfg, s, UnlockOne(u))
    ensures Inv(cfg, Apply(cfg, s, UnlockOne(u)))
  {
    SetLockStoreInv(cfg, s.store, s.log, u, false);
  }

  lemma BeginLoopInv(cfg: Config, s: State)
    requires Inv(cfg, s) && Enabled(cfg, s, BeginLoop)
    ensures Inv(cfg, Apply(cfg, s, BeginLoop)) && Inv(cfg, Apply(cfg, s, BeginUnread))
  {
    forall u ensures !Locked(s.store, u) {
      if Fifo.Has(s.store, u) {
        assert Fifo.Find(s.store, u).value !in Fifo.Select(s.store, true);
      }
    }
  }

  lemma LoadInv(cfg: Config, s: State)
    requires Inv(cfg, s) && Enabled(cfg, s, Load)
    ensures Inv(cfg, Apply(cfg, s, Load))
  {
    var all := Fifo.Select(s.store, false);
    var todo := Fifo.First(all, 100);
    Fifo.UniqueSelect(s.store, false);
    forall i | 0 <= i < |todo| ensures Fifo.Find(s.store, todo[i].id) == Some(todo[i]) && !todo[i].locked {
      assert todo[i] in all;
      var j :| 0 <= j < |s.store| && s.store[j] == todo[i];
      Fifo.UniqueFind(s.store, j);
    }
  }

  // Changing a lock bit keeps what is stored; setting it keeps every item backed.
  lemma SetLockStoreInv(cfg: Config, store: Store, log: H.Log, u: string, b: bool)
    requires StoreInv(cfg, store, log)
    ensures StoreInv(cfg, Fifo.SetLock(store, u, b), log)
  {
    var store' := Fifo.SetLock(store, u, b);
    Fifo.UniqueSetLock(store, u, b);
    forall v | Fifo.Has(store', v) ensures Explained(cfg, log, v, Fifo.Find(store', v).value.context) {
      assert Fifo.Has(store, v);
    }
  }

  lemma SetLockFlightInv(cfg: Config, store: Store, log: H.Log, flight: Flight, next: nat, u: string, b: bool)
    requires FlightInv(cfg, store, log, flight, next)
    requires b || !InHand(flight, u)
    ensures FlightInv(cfg, Fifo.SetLock(store, u, b), log, flight, next)
  {
    var store' := Fifo.SetLock(store, u, b);
    forall t | t in flight && Active(flight[t]) ensures Backed(cfg, store', log, flight[t]) {
      assert Backed(cfg, store, log, flight[t]);
      assert ActiveAt(flight, t, flight[t].uid);
    }
  }

  lemma LockHeadInv(cfg: Config, s: State)
    requires Inv(cfg, s) && Enabled(cfg, s, LockHead)
    ensures Inv(cfg, Apply(cfg, s, LockHead))
    ensures Apply(cfg, s, LockHead).phase.Holding?
  {
    var h := s.phase.todo[0];
    var rest := s.phase.todo[1..];
    var store := Fifo.SetLock(s.store, h.id, true);
    assert Fifo.Find(s.store, h.id) == Some(h);
    SetLockStoreInv(cfg, s.store, s.log, h.id, true);
    SetLockFlightInv(cfg, s.store, s.log, s.flight, s.next, h.id, true);
    assert Current(store, rest) by {
      forall i | 0 <= i < |rest| ensures Fifo.Find(store, rest[i].id) == Some(rest[i]) && !rest[i].locked {
        assert rest[i] == s.phase.todo[i + 1];
      }
    }
    forall t ensures !ActiveAt(s.flight, t, h.id) {
    }
  }

  lemma PutHeadInv(cfg: Config, s: State)
    requires Proper(cfg) && Inv(cfg, s) && Enabled(cfg, s, PutHead)
    ensures Inv(cfg, Apply(cfg, s, PutHead))
  {
    PutInv(cfg, s, Apply(cfg, s, PutHead));
  }

  lemma PutInv(cfg: Config, s: State, s': State)
    requires Proper(cfg) && Inv(cfg, s) && s.phase.Holding?
    requires s' == s.(phase := Injecting(s.phase.cursor, s.phase.todo), next := s.next + 1,
                      flight := s.flight[s.next := Item(s.phase.head.id, cfg.recodeBody(s.phase.head.data),
                                                        Reload(cfg, s.phase.head.context), 0, Waiting)])
    ensures Inv(cfg, s')
  {
    var h := s.phase.head;
    assert Backed(cfg, s'.store, s'.log, s'.flight[s.next]);
    assert ActiveAt(s'.flight, s.next, h.id);
    forall t, u | t != s.next ensures ActiveAt(s'.flight, t, u) <==> ActiveAt(s.flight, t, u) {
    }
    assert forall t :: !ActiveAt(s.flight, t, h.id);
  }

  lemma PushNextInv(cfg: Config, s: State)
    requires Proper(cfg) && Inv(cfg, s) && Enabled(cfg, s, PushNext)
    requires cfg.backend.Sqlite? || Calm(s, PushNext)
    ensures Inv(cfg, Apply(cfg, s, PushNext))
  {
    var e := s.phase.batch[0];
    if !(Fifo.Has(s.store, e.uid) && cfg.backend.Sqlite?) {
      PushedInv(cfg, s, Apply(cfg, s, PushNext), e);
    }
  }

  lemma PushedInv(cfg: Config, s: State, s': State, e: Event)
    requires Proper(cfg) && Inv(cfg, s) && s.phase.Pushing? && s'.phase.Pushing?
    requires s' == s.(store := WithPush(s.store, e), lost := s.lost - {e.uid}, log := s.log + [Pushed(e.uid)],
                      saved := s'.saved, phase := s'.phase)
    requires forall t :: t in s.flight && Active(s.flight[t]) ==> s.flight[t].uid != e.uid || !Fifo.Has(s.store, e.uid)
    ensures Inv(cfg, s')
  {
    PushStoreInv(cfg, s.store, s.log, e);
    PushFlightInv(cfg, s, e);
  }

  function WithPush(store: Store, e: Event): Store {
    Fifo.Push(Fifo.Delete(store, e.uid), e.uid, e.body, NO_CONTEXT)
  }

  lemma PushStoreInv(cfg: Config, store: Store, log: H.Log, e: Event)
    requires StoreInv(cfg, store, log) && Proper(cfg)
    ensures StoreInv(cfg, WithPush(store, e), log + [Pushed(e.uid)])
    ensures H.Legal(|cfg.names|, log) ==> H.Legal(|cfg.names|, log + [Pushed(e.uid)])
  {
    LogStep(|cfg.names|, log, Pushed(e.uid));
    Fifo.UniqueDelete(store, e.uid);
    Fifo.UniquePush(Fifo.Delete(store, e.uid), e.uid, e.body, NO_CONTEXT);
    forall u | Fifo.Has(WithPush(store, e), u)
      ensures Explained(cfg, log + [Pushed(e.uid)], u, Fifo.Find(WithPush(store, e), u).value.context)
    {
      if u != e.uid {
        assert Fifo.Has(store, u);
      }
    }
  }

  lemma PushFlightInv(cfg: Config, s: State, e: Event)
    requires FlightInv(cfg, s.store, s.log, s.flight, s.next)
    requires forall t :: t in s.flight && Active(s.flight[t]) ==> s.flight[t].uid != e.uid || !Fifo.Has(s.store, e.uid)
    ensures FlightInv(cfg, WithPush(s.store, e), s.log + [Pushed(e.uid)], s.flight, s.next)
    ensures forall u :: Locked(WithPush(s.store, e), u) ==> Locked(s.store, u)
  {
    LogStep(|cfg.names|, s.log, Pushed(e.uid));
    forall t | t in s.flight && Active(s.flight[t]) ensures Backed(cfg, WithPush(s.store, e), s.log + [Pushed(e.uid)], s.flight[t]) {
      assert Backed(cfg, s.store, s.log, s.flight[t]) && s.flight[t].uid != e.uid;
    }
  }

  // ---- steps of a worker

  // Taking item t to `item` one stage on, or out of the pipeline.
  lemma ForwardFlight(cfg: Config, s: State, t: nat, item: Item)
    requires t in s.flight && item.uid == s.flight[t].uid
    ensures var f := Forward(cfg, s, t, item).flight;
            && (forall k :: k != t ==> (k in f <==> k in s.flight) && (k in f ==> f[k] == s.flight[k]))
            && (t in f ==> f[t] == item.(stage := item.stage + 1) && f[t].stage < |cfg.names|)
            && (t in f <==> item.stage + 1 < |cfg.names|)
            && Forward(cfg, s, t, item) == s.(flight := f)
  {
  }

  lemma SkipInv(cfg: Config, s: State, t: nat)
    requires Inv(cfg, s) && Enabled(cfg, s, Skip(t))
    ensures Inv(cfg, Apply(cfg, s, Skip(t)))
  {
    var item := s.flight[t];
    var s' := Apply(cfg, s, Skip(t));
    ForwardFlight(cfg, s, t, item);
    assert Backed(cfg, s.store, s.log, item);
    assert item.stage < H.Level(s.log, item.uid);
    forall k, u ensures ActiveAt(s'.flight, k, u) <==> ActiveAt(s.flight, k, u) {
    }
  }

  lemma CallInv(cfg: Config, s: State, t: nat, a: Answer)
    requires Inv(cfg, s) && Enabled(cfg, s, Call(t, a))
    ensures Inv(cfg, Apply(cfg, s, Call(t, a)))
  {
    assert Backed(cfg, s.store, s.log, s.flight[t]);
    CalledInv(cfg, s, Apply(cfg, s, Call(t, a)), t, a);
  }

  lemma CalledInv(cfg: Config, s: State, s': State, t: nat, a: Answer)
    requires Inv(cfg, s) && t in s.flight && s.flight[t].at.Waiting? && s.flight[t].stage == H.Level(s.log, s.flight[t].uid)
    requires var item := s.flight[t];
             s' == s.(flight := s.flight[t := item.(at := Answered(a))],
                      log := s.log + [Called(item.uid, item.stage, StageInput(item.context))])
    ensures Inv(cfg, s')
  {
    var item := s.flight[t];
    var act := Called(item.uid, item.stage, StageInput(item.context));
    assert Backed(cfg, s.store, s.log, item);
    LogStep(|cfg.names|, s.log, act);
    CallStoreInv(cfg, s.store, s.log, act);
    forall k, u ensures ActiveAt(s'.flight, k, u) <==> ActiveAt(s.flight, k, u) {
    }
    assert Backed(cfg, s'.store, s'.log, s'.flight[t]);
    OthersBacked(cfg, s, s', t, item.uid);
  }

  lemma CallStoreInv(cfg: Config, store: Store, log: H.Log, act: Action)
    requires StoreInv(cfg, store, log) && act.Called? && H.Alive(log, act.uid)
    ensures StoreInv(cfg, store, log + [act])
  {
    LogStep(|cfg.names|, log, act);
    forall u | Fifo.Has(store, u) ensures Explained(cfg, log + [act], u, Fifo.Find(store, u).value.context) {
      assert Explained(cfg, log, u, Fifo.Find(store, u).value.context);
    }
  }

  lemma DeleteInv(cfg: Config, s: State, t: nat)
    requires Inv(cfg, s) && Enabled(cfg, s, Delete(t))
    ensures Inv(cfg, Apply(cfg, s, Delete(t)))
  {
    var item := s.flight[t];
    var a := Deleted(item.uid, item.stage, item.at.answer.remove);
    var s' := Apply(cfg, s, Delete(t));
    assert Backed(cfg, s.store, s.log, item) && ActiveAt(s.flight, t, item.uid);
    LogStep(|cfg.names|, s.log, a);
    Fifo.UniqueDelete(s.store, item.uid);
    ForwardFlight(cfg, s.(store := s'.store, log := s'.log), t, Discard(item, item.at.answer));
    forall u | Fifo.Has(s'.store, u) ensures Explained(cfg, s'.log, u, Fifo.Find(s'.store, u).value.context) {
      assert Fifo.Has(s.store, u) && u != item.uid;
    }
    LeaveInv(cfg, s, s', t, item.uid);
  }

  // The active item t leaves, and its event is no longer locked, or is given up.
  lemma LeaveInv(cfg: Config, s: State, s': State, t: nat, u: string)
    requires Inv(cfg, s) && ActiveAt(s.flight, t, u) && s'.phase == s.phase && s'.next == s.next
    requires StoreInv(cfg, s'.store, s'.log) && H.Legal(|cfg.names|, s'.log)
    requires forall k :: k != t ==> (k in s'.flight <==> k in s.flight) && (k in s'.flight ==> s'.flight[k] == s.flight[k])
    requires t in s'.flight ==> s'.flight[t].stage < |cfg.names| && !Active(s'.flight[t])
    requires forall v :: v != u ==> Fifo.Find(s'.store, v) == Fifo.Find(s.store, v) && H.Level(s'.log, v) == H.Level(s.log, v)
    requires forall v, k :: v != u ==> H.InCall(s'.log, v, k) == H.InCall(s.log, v, k)
    requires s'.lost == if Locked(s'.store, u) then s.lost + {u} else s.lost
    ensures Inv(cfg, s')
  {
    forall k, v ensures ActiveAt(s'.flight, k, v) <==> ActiveAt(s.flight, k, v) && k != t {
    }
    OthersBacked(cfg, s, s', t, u);
    DropWork(s.store, s.flight, s'.store, s'.flight, s.phase, s.lost, t, u);
    KeepPhase(s.store, s.flight, s'.store, s'.flight, s.phase, u);
  }

  // The active item t leaves: its event is abandoned if it stays locked, the others are as they were.
  lemma DropWork(store: Store, flight: Flight, store': Store, flight': Flight, phase: Phase, lost: set<string>, t: nat, u: string)
    requires WorkInv(store, flight, phase, lost) && PhaseInv(store, flight, phase)
    requires ActiveAt(flight, t, u) && Locked(store, u) && Exclusive(flight)
    requires forall k, v :: ActiveAt(flight', k, v) <==> ActiveAt(flight, k, v) && k != t
    requires forall v :: v != u ==> Fifo.Find(store', v) == Fifo.Find(store, v)
    ensures WorkInv(store', flight', phase, if Locked(store', u) then lost + {u} else lost)
  {
    forall v | v != u ensures InHand(flight', v) <==> InHand(flight, v) {
      StaysInHand(flight, flight', t, u, v);
    }
    assert !InHand(flight', u);
    assert InHand(flight, u);
  }

  lemma StaysInHand(flight: Flight, flight': Flight, t: nat, u: string, v: string)
    requires ActiveAt(flight, t, u) && v != u
    requires forall k, w :: ActiveAt(flight', k, w) <==> ActiveAt(flight, k, w) && k != t
    ensures InHand(flight', v) <==> InHand(flight, v)
  {
    if InHand(flight, v) {
      var k :| ActiveAt(flight, k, v);
      assert ActiveAt(flight', k, v);
    }
    if InHand(flight', v) {
      var k :| ActiveAt(flight', k, v);
      assert ActiveAt(flight, k, v);
    }
  }

  // A worker's change to event u, held by item t, leaves every other item backed.
  lemma OthersBacked(cfg: Config, s: State, s': State, t: nat, u: string)
    requires FlightInv(cfg, s.store, s.log, s.flight, s.next) && Exclusive(s.flight) && ActiveAt(s.flight, t, u)
    requires s'.next == s.next
    requires forall k :: k != t && k in s'.flight ==> k in s.flight && s'.flight[k] == s.flight[k]
    requires forall v :: v != u ==> Fifo.Find(s'.store, v) == Fifo.Find(s.store, v) && H.Level(s'.log, v) == H.Level(s.log, v)
    requires forall v, k :: v != u ==> H.InCall(s'.log, v, k) == H.InCall(s.log, v, k)
    requires t in s'.flight ==> s'.flight[t].stage < |cfg.names| &&
                                (Active(s'.flight[t]) ==> Backed(cfg, s'.store, s'.log, s'.flight[t]))
    ensures FlightInv(cfg, s'.store, s'.log, s'.flight, s'.next)
  {
    forall k | k in s'.flight && k != t && Active(s'.flight[k]) ensures Backed(cfg, s'.store, s'.log, s'.flight[k]) {
      assert ActiveAt(s.flight, k, s.flight[k].uid);
      assert Backed(cfg, s.store, s.log, s.flight[k]);
    }
  }

  // A worker's change to event u does not disturb the producer, whose snapshot and head
  // are other events.
  lemma KeepPhase(store: Store, flight: Flight, store': Store, flight': Flight, phase: Phase, u: string)
    requires PhaseInv(store, flight, phase) && InHand(flight, u) && Locked(store, u)
    requires forall v :: v != u ==> Fifo.Find(store', v) == Fifo.Find(store, v)
    requires forall v :: InHand(flight', v) ==> InHand(flight, v)
    ensures PhaseInv(store', flight', phase)
  {
  }

  lemma DeleteFailsInv(cfg: Config, s: State, t: nat)
    requires Inv(cfg, s) && Enabled(cfg, s, DeleteFails(t))
    ensures Inv(cfg, Apply(cfg, s, DeleteFails(t)))
  {
    var item := s.flight[t];
    var s' := Apply(cfg, s, DeleteFails(t));
    assert Backed(cfg, s.store, s.log, item) && ActiveAt(s.flight, t, item.uid);
    ForwardFlight(cfg, s.(lost := s'.lost), t, Discard(item, item.at.answer));
    LeaveInv(cfg, s, s', t, item.uid);
  }

  lemma UnlockInv(cfg: Config, s: State, t: nat)
    requires Inv(cfg, s) && Enabled(cfg, s, Unlock(t))
    ensures Inv(cfg, Apply(cfg, s, Unlock(t)))
  {
    var item := s.flight[t];
    var s' := Apply(cfg, s, Unlock(t));
    assert Backed(cfg, s.store, s.log, item) && ActiveAt(s.flight, t, item.uid);
    SetLockStoreInv(cfg, s.store, s.log, item.uid, false);
    ForwardFlight(cfg, s.(store := s'.store), t, item.(at := Passing));
    LeaveInv(cfg, s, s', t, item.uid);
  }

  // Storing an answer leaves a context that the longer log explains.
  lemma AbsorbExplained(cfg: Config, log: H.Log, item: Item, a: Answer)
    requires Proper(cfg) && item.stage < |cfg.names| && !Finishes(cfg, item, a)
    requires Explained(cfg, log, item.uid, item.context) && item.stage == H.Level(log, item.uid)
    ensures Explained(cfg, log + [Stored(item.uid, item.stage, a.processed, AnswerPipeline(cfg, a))], item.uid,
                      Absorb(cfg, item, a).context)
  {
    LogStep(|cfg.names|, log, Stored(item.uid, item.stage, a.processed, AnswerPipeline(cfg, a)));
    var c := Absorb(cfg, item, a).context;
    forall i: nat | i < |cfg.names|
      ensures Flagged(cfg, c, i) <==> if i == item.stage then a.processed else Flagged(cfg, item.context, i)
    {
      assert i != item.stage ==> cfg.names[i] != cfg.names[item.stage];
    }
  }

  lemma CommitStoreInv(cfg: Config, s: State, item: Item, a: Answer)
    requires Proper(cfg) && item.stage < |cfg.names| && !Finishes(cfg, item, a)
    requires StoreInv(cfg, s.store, s.log) && Fifo.Has(s.store, item.uid)
    requires Fifo.Find(s.store, item.uid).value.context == item.context && item.stage == H.Level(s.log, item.uid)
    ensures var done := Absorb(cfg, item, a);
            StoreInv(cfg, Fifo.Update(s.store, item.uid, done.body, done.context),
                     s.log + [Stored(item.uid, item.stage, a.processed, AnswerPipeline(cfg, a))])
  {
    var done := Absorb(cfg, item, a);
    var act := Stored(item.uid, item.stage, a.processed, AnswerPipeline(cfg, a));
    var store := Fifo.Update(s.store, item.uid, done.body, done.context);
    LogStep(|cfg.names|, s.log, act);
    AbsorbExplained(cfg, s.log, item, a);
    Fifo.UniqueUpdate(s.store, item.uid, done.body, done.context);
    forall u | Fifo.Has(store, u) ensures Explained(cfg, s.log + [act], u, Fifo.Find(store, u).value.context) {
      assert Fifo.Has(s.store, u);
    }
  }

  // What a commit changes: the stored record, the log, and item t, which stays active.
  ghost predicate Commits(cfg: Config, s: State, s': State, t: nat, item: Item, a: Answer) {
    && item.stage < |cfg.names|
    && s'.store == Fifo.Update(s.store, item.uid, Absorb(cfg, item, a).body, Absorb(cfg, item, a).context)
    && s'.log == s.log + [Stored(item.uid, item.stage, a.processed, AnswerPipeline(cfg, a))]
    && s' == s.(store := s'.store, log := s'.log, flight := s'.flight)
    && t in s'.flight
    && (forall k :: k != t ==> (k in s'.flight <==> k in s.flight) && (k in s'.flight ==> s'.flight[k] == s.flight[k]))
    && var moved := s'.flight[t];
    && moved.uid == item.uid && moved.body == Absorb(cfg, item, a).body && moved.context == Absorb(cfg, item, a).context
    && moved.stage < |cfg.names|
    && (moved.at.Committed? || (moved.at.Waiting? && a.processed && moved.stage == item.stage + 1))
  }

  lemma CommitShape(cfg: Config, s: State, t: nat)
    requires Enabled(cfg, s, Commit(t)) && Fifo.Has(s.store, s.flight[t].uid)
    ensures Commits(cfg, s, Apply(cfg, s, Commit(t)), t, s.flight[t], s.flight[t].at.answer)
  {
    var done := Absorb(cfg, s.flight[t], s.flight[t].at.answer);
    var s' := Apply(cfg, s, Commit(t));
    ForwardFlight(cfg, s.(store := s'.store, log := s'.log), t, done.(at := Waiting));
  }

  lemma CommitInv(cfg: Config, s: State, s': State, t: nat, item: Item, a: Answer)
    requires Proper(cfg) && Inv(cfg, s) && t in s.flight && s.flight[t] == item && item.at == Answered(a)
    requires !Finishes(cfg, item, a) && Commits(cfg, s, s', t, item, a)
    ensures Inv(cfg, s')
  {
    assert Backed(cfg, s.store, s.log, item) && ActiveAt(s.flight, t, item.uid);
    LogStep(|cfg.names|, s.log, Stored(item.uid, item.stage, a.processed, AnswerPipeline(cfg, a)));
    CommitStoreInv(cfg, s, item, a);
    OthersBacked(cfg, s, s', t, item.uid);
    forall k, u ensures ActiveAt(s'.flight, k, u) <==> ActiveAt(s.flight, k, u) {
    }
    KeepPhase(s.store, s.flight, s'.store, s'.flight, s.phase, item.uid);
    forall u | Locked(s'.store, u) && InHand(s.flight, u) ensures InHand(s'.flight, u) {
      var k :| ActiveAt(s.flight, k, u);
      assert ActiveAt(s'.flight, k, u);
    }
  }

  lemma PassInv(cfg: Config, s: State, t: nat)
    requires Inv(cfg, s) && Enabled(cfg, s, Pass(t))
    ensures Inv(cfg, Apply(cfg, s, Pass(t)))
  {
    var s' := Apply(cfg, s, Pass(t));
    ForwardFlight(cfg, s, t, s.flight[t]);
    forall k, u ensures ActiveAt(s'.flight, k, u) <==> ActiveAt(s.flight, k, u) {
    }
  }

  lemma FailInv(cfg: Config, s: State, t: nat)
    requires Inv(cfg, s) && Enabled(cfg, s, Fail(t))
    ensures Inv(cfg, Apply(cfg, s, Fail(t)))
  {
    var s' := Apply(cfg, s, Fail(t));
    var u := s.flight[t].uid;
    if Active(s.flight[t]) {
      assert Backed(cfg, s.store, s.log, s.flight[t]) && ActiveAt(s.flight, t, u);
      LeaveInv(cfg, s, s', t, u);
    } else {
      forall k, v ensures ActiveAt(s'.flight, k, v) <==> ActiveAt(s.flight, k, v) {
      }
      SameHands(s.flight, s'.flight);
    }
  }

  lemma SameHands(flight: Flight, flight': Flight)
    requires forall k, v :: ActiveAt(flight', k, v) <==> ActiveAt(flight, k, v)
    ensures forall v :: InHand(flight', v) <==> InHand(flight, v)
  {
    forall v ensures InHand(flight', v) <==> InHand(flight, v) {
      if InHand(flight, v) {
        var k :| ActiveAt(flight, k, v);
        assert ActiveAt(flight', k, v);
      }
      if InHand(flight', v) {
        var k :| ActiveAt(flight', k, v);
        assert ActiveAt(flight, k, v);
      }
    }
  }

  // ---- every step, every run

  lemma ProducerStepInv(cfg: Config, s: State, step: Step)
    requires Proper(cfg) && Inv(cfg, s) && Enabled(cfg, s, step) && !OfWorker(step)
    requires cfg.backend.Sqlite? || Calm(s, step)
    ensures Inv(cfg, Apply(cfg, s, step))
  {
    if Opening(step) {
      OpeningStepInv(cfg, s, step);
    } else if step.LockHead? {
      LockHeadInv(cfg, s);
    } else if step.PutHead? {
      PutHeadInv(cfg, s);
    } else if step.PushNext? {
      PushNextInv(cfg, s);
    } else {
      QuietStepInv(cfg, s, step);
    }
  }

  predicate Opening(step: Step) {
    step.UnlockOne? || step.BeginLoop? || step.BeginUnread? || step.Load?
  }

  lemma OpeningStepInv(cfg: Config, s: State, step: Step)
    requires Inv(cfg, s) && Enabled(cfg, s, step) && Opening(step)
    ensures Inv(cfg, Apply(cfg, s, step))
  {
    match step
    case UnlockOne(u) => UnlockOneInv(cfg, s, u);
    case Load => LoadInv(cfg, s);
    case _ => BeginLoopInv(cfg, s);
  }

  // The other steps touch neither the queue nor an item.
  lemma QuietStepInv(cfg: Config, s: State, step: Step)
    requires Inv(cfg, s) && Enabled(cfg, s, step)
    requires !OfWorker(step) && !Opening(step) && !step.LockHead? && !step.PutHead? && !step.PushNext?
    ensures Inv(cfg, Apply(cfg, s, step))
  {
    if step.DropHead? || step.EndInject? || step.Fetch? || step.FetchTimeout? || step.SaveCursor? {
      LoopStepInv(cfg, s, step);
    }
  }

  lemma LoopStepInv(cfg: Config, s: State, step: Step)
    requires Inv(cfg, s) && Enabled(cfg, s, step)
    requires step.DropHead? || step.EndInject? || step.Fetch? || step.FetchTimeout? || step.SaveCursor?
    ensures Inv(cfg, Apply(cfg, s, step))
  {
  }

  lemma WorkerStepInv(cfg: Config, s: State, step: Step)
    requires Proper(cfg) && Inv(cfg, s) && Enabled(cfg, s, step) && OfWorker(step)
    ensures Inv(cfg, Apply(cfg, s, step))
  {
    match step
    case Skip(t) => SkipInv(cfg, s, t);
    case Call(t, a) => CallInv(cfg, s, t, a);
    case Delete(t) => DeleteInv(cfg, s, t);
    case DeleteFails(t) => DeleteFailsInv(cfg, s, t);
    case Commit(t) => CommitStepInv(cfg, s, t);
    case Unlock(t) => UnlockInv(cfg, s, t);
    case Pass(t) => PassInv(cfg, s, t);
    case Fail(t) => FailInv(cfg, s, t);
  }

  lemma CommitStepInv(cfg: Config, s: State, t: nat)
    requires Proper(cfg) && Inv(cfg, s) && Enabled(cfg, s, Commit(t))
    ensures Inv(cfg, Apply(cfg, s, Commit(t)))
  {
    assert Backed(cfg, s.store, s.log, s.flight[t]);
    CommitShape(cfg, s, t);
    CommitInv(cfg, s, Apply(cfg, s, Commit(t)), t, s.flight[t], s.flight[t].at.answer);
  }

  lemma StepInv(cfg: Config, s: State, step: Step)
    requires Proper(cfg) && Inv(cfg, s) && Enabled(cfg, s, step)
    requires cfg.backend.Sqlite? || Calm(s, step)
    ensures Inv(cfg, Apply(cfg, s, step))
  {
    if OfWorker(step) {
      WorkerStepInv(cfg, s, step);
    } else {
      ProducerStepInv(cfg, s, step);
    }
  }

  lemma {:induction false} ReachedInv(cfg: Config, feed: seq<Event>, steps: seq<Step>, s: State)
    requires Proper(cfg) && Reached(cfg, feed, steps, s)
    ensures Inv(cfg, s)
  {
    if steps == [] {
      InitInv(cfg, feed);
    } else {
      var prior := steps[..|steps| - 1];
      var p := Exec(cfg, Init(feed), prior).value;
      ReachedInv(cfg, feed, prior, p);
      StepInv(cfg, p, steps[|steps| - 1]);
    }
  }
}
