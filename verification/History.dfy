// What the log of a run says about one event, and which logs are legal.
module History {
  import opened Prelude
  import opened Protocol

  type Log = seq<Action>

  function Prior(log: Log): Log
    requires log != []
  {
    log[..|log| - 1]
  }

  function Last(log: Log): Action
    requires log != []
  {
    log[|log| - 1]
  }

  // Pushed, and not deleted since.
  predicate Alive(log: Log, u: string) {
    log != [] &&
    if Last(log).uid != u then Alive(Prior(log), u)
    else !Last(log).Deleted?
  }

  // The number of stages the event has completed since it was last pushed.
  function Level(log: Log, u: string): nat {
    if log == [] then 0
    else if Last(log).uid != u then Level(Prior(log), u)
    else match Last(log)
      case Pushed(_) => 0
      case Stored(_, k, processed, _) => if processed then k + 1 else Level(Prior(log), u)
      case _ => Level(Prior(log), u)
  }

  // The pipeline context last stored for the event since it was pushed.
  function Memo(log: Log, u: string): Option<Blob> {
    if log == [] then None
    else if Last(log).uid != u then Memo(Prior(log), u)
    else match Last(log)
      case Pushed(_) => None
      case Stored(_, _, _, p) => Some(p)
      case _ => Memo(Prior(log), u)
  }

  // The stage is the last thing that happened to the event: it was called and has not answered yet.
  predicate InCall(log: Log, u: string, stage: nat) {
    log != [] &&
    if Last(log).uid != u then InCall(Prior(log), u, stage)
    else Last(log).Called? && Last(log).stage == stage
  }

  function Given(memo: Option<Blob>): Blob {
    match memo
    case None => EMPTY_MAP
    case Some(p) => p
  }

  // `a` may follow `log` in a pipeline of n stages.
  predicate MayFollow(n: nat, log: Log, a: Action) {
    match a
    case Pushed(_) => true
    case Called(u, k, input) => Alive(log, u) && k == Level(log, u) && k < n && input == Given(Memo(log, u))
    case Stored(u, k, processed, _) => Alive(log, u) && k == Level(log, u) && InCall(log, u, k) && k < n &&
                                       (processed ==> k + 1 < n)
    case Deleted(u, k, removed) => Alive(log, u) && k == Level(log, u) && InCall(log, u, k) && k < n &&
                                   (!removed ==> k + 1 == n)
  }

  predicate Legal(n: nat, log: Log) {
    log == [] || (Legal(n, Prior(log)) && MayFollow(n, Prior(log), Last(log)))
  }

  // An event that was pushed at some time of the run.
  predicate EverPushed(log: Log, u: string) {
    Pushed(u) in log
  }

  lemma Snoc(log: Log, a: Action)
    ensures Prior(log + [a]) == log && Last(log + [a]) == a
  {
  }

  // In a legal log every action is one that may follow what came before it.
  lemma {:induction false} LegalAt(n: nat, log: Log, i: nat)
    requires Legal(n, log) && i < |log|
    ensures Legal(n, log[..i]) && MayFollow(n, log[..i], log[i])
  {
    if i + 1 < |log| {
      LegalAt(n, Prior(log), i);
      assert Prior(log)[..i] == log[..i];
    } else {
      assert log[..i] == Prior(log);
    }
  }

  // Without a push in between, an event never loses a completed stage.
  lemma {:induction false} LevelGrows(n: nat, log: Log, u: string, i: nat)
    requires Legal(n, log) && i <= |log|
    requires forall m :: i <= m < |log| ==> log[m] != Pushed(u)
    ensures Level(log[..i], u) <= Level(log, u)
  {
    if i < |log| {
      assert Prior(log)[..i] == log[..i];
      LevelGrows(n, Prior(log), u, i);
      assert log[|log| - 1] == Last(log);
    } else {
      assert log[..i] == log;
    }
  }

  // Each completed stage was stored as processed after the last push of the event.
  lemma {:induction false} StoredWitness(n: nat, log: Log, u: string, k: nat) returns (i: nat)
    requires Legal(n, log) && k < Level(log, u)
    ensures i < |log| && log[i].Stored? && log[i].uid == u && log[i].stage == k && log[i].processed
    ensures forall m :: i <= m < |log| ==> log[m] != Pushed(u)
  {
    var a := Last(log);
    if a.uid == u && a.Stored? && a.processed && a.stage == k {
      i := |log| - 1;
    } else {
      i := StoredWitness(n, Prior(log), u, k);
    }
  }

  // A stage that was stored as processed is not called again for the event until the
  // event is pushed anew.
  lemma NoRerun(n: nat, log: Log, i: nat, j: nat)
    requires Legal(n, log) && i < j < |log|
    requires log[i].Stored? && log[i].processed
    requires log[j].Called? && log[j].uid == log[i].uid && log[j].stage <= log[i].stage
    ensures exists m :: i < m < j && log[m] == Pushed(log[i].uid)
  {
    var u := log[i].uid;
    var before := log[..j];
    LegalAt(n, log, j);
    if forall m :: i < m < j ==> log[m] != Pushed(u) {
      assert before[..i + 1] == log[..i + 1];
      LevelGrows(n, before, u, i + 1);
    }
  }

  // A stage is called only when every earlier stage was stored as processed since the
  // event was last pushed.
  lemma CalledInOrder(n: nat, log: Log, j: nat, k: nat) returns (i: nat)
    requires Legal(n, log) && j < |log| && log[j].Called? && k < log[j].stage
    ensures i < j && log[i].Stored? && log[i].uid == log[j].uid && log[i].stage == k && log[i].processed
    ensures forall m :: i <= m < j ==> log[m] != Pushed(log[j].uid)
  {
    LegalAt(n, log, j);
    i := StoredWitness(n, log[..j], log[j].uid, k);
    forall m | i <= m < j ensures log[m] != Pushed(log[j].uid) {
      assert log[m] == log[..j][m];
    }
  }

  // The last call before position |log|, with nothing else recorded for the event since.
  lemma {:induction false} CallWitness(log: Log, u: string, k: nat) returns (i: nat)
    requires InCall(log, u, k)
    ensures i < |log| && log[i].Called? && log[i].uid == u && log[i].stage == k
    ensures forall m :: i < m < |log| ==> log[m].uid != u
  {
    if Last(log).uid == u {
      i := |log| - 1;
    } else {
      i := CallWitness(Prior(log), u, k);
    }
  }

  // The memo is the context of the last store since the push.
  lemma {:induction false} MemoWitness(log: Log, u: string) returns (i: nat)
    requires Memo(log, u).Some?
    ensures i < |log| && log[i].Stored? && log[i].uid == u && Memo(log, u) == Some(log[i].pipeline)
    ensures forall m :: i < m < |log| ==> log[m] != Pushed(u) && !(log[m].Stored? && log[m].uid == u)
  {
    if Last(log).uid == u && Last(log).Stored? {
      i := |log| - 1;
    } else {
      i := MemoWitness(Prior(log), u);
    }
  }

  // An event that was pushed and is no longer alive was deleted after its last push.
  lemma {:induction false} DeletedWitness(n: nat, log: Log, u: string) returns (i: nat)
    requires Legal(n, log) && EverPushed(log, u) && !Alive(log, u)
    ensures i < |log| && log[i].Deleted? && log[i].uid == u
    ensures forall m :: i <= m < |log| ==> log[m].uid != u || m == i
  {
    if Last(log).uid == u {
      i := |log| - 1;
    } else {
      var j :| 0 <= j < |log| && log[j] == Pushed(u);
      assert Prior(log)[j] == Pushed(u);
      i := DeletedWitness(n, Prior(log), u);
    }
  }
}
