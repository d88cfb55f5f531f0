// What a queue and a cursor are after a history of operations, told by the positions of the
// operations in the history.
module Histories {
  import opened Prelude
  import Fifo
  import opened Table
  import opened Backends
  import opened Equivalence

  datatype Kind = Pushing | Updating | Deleting | Locking | Unlocking | Moving

  function KindOf(op: Op): Kind {
    match op
    case PushOp(_, _, _, _) => Pushing
    case UpdateOp(_, _, _, _) => Updating
    case DeleteOp(_, _) => Deleting
    case LockOp(_, _) => Locking
    case UnlockOp(_, _) => Unlocking
    case CursorOp(_, _) => Moving
  }

  // The operation is about this item of the source, and of one of these kinds.
  predicate Concerns(op: Op, source: string, id: string, kinds: set<Kind>) {
    !op.CursorOp? && op.source == source && op.id == id && KindOf(op) in kinds
  }

  // Position i holds the last such operation of the history.
  ghost predicate LastOne(ops: History, i: int, source: string, id: string, kinds: set<Kind>) {
    0 <= i < |ops| && Concerns(ops[i], source, id, kinds) &&
    forall j :: i < j < |ops| ==> !Concerns(ops[j], source, id, kinds)
  }

  lemma LastStep(ops: History, source: string, id: string, kinds: set<Kind>)
    requires ops != []
    ensures forall i :: LastOne(ops, i, source, id, kinds) <==>
              if Concerns(Last(ops), source, id, kinds) then i == |ops| - 1 else LastOne(Prior(ops), i, source, id, kinds)
  {
    var n := |ops| - 1;
    assert forall j :: 0 <= j < n ==> Prior(ops)[j] == ops[j];
    forall i ensures LastOne(ops, i, source, id, kinds) <==>
                     if Concerns(Last(ops), source, id, kinds) then i == n else LastOne(Prior(ops), i, source, id, kinds)
    {
      if Concerns(Last(ops), source, id, kinds) && LastOne(ops, i, source, id, kinds) {
        assert !(i < n);
      }
    }
  }

  // The last push or delete of the id is a push.
  ghost predicate There(ops: History, source: string, id: string) {
    exists i :: LastOne(ops, i, source, id, {Pushing, Deleting}) && ops[i].PushOp?
  }

  // Data and context are those of the last push or update.
  ghost predicate Written(ops: History, source: string, id: string, data: Bytes, context: Bytes) {
    exists i :: LastOne(ops, i, source, id, {Pushing, Updating}) && Writes(ops[i], data, context)
  }

  predicate Writes(op: Op, data: Bytes, context: Bytes) {
    (op.PushOp? || op.UpdateOp?) && op.data == data && op.context == context
  }

  // The last push, lock or unlock is a lock.
  ghost predicate Locked(ops: History, source: string, id: string) {
    exists i :: LastOne(ops, i, source, id, {Pushing, Locking, Unlocking}) && ops[i].LockOp?
  }

  lemma ThereStep(ops: History, source: string, id: string)
    requires ops != []
    ensures There(ops, source, id) <==>
            if Concerns(Last(ops), source, id, {Pushing, Deleting}) then Last(ops).PushOp? else There(Prior(ops), source, id)
  {
    var kinds := {Pushing, Deleting};
    LastStep(ops, source, id, kinds);
    if Concerns(Last(ops), source, id, kinds) {
      assert LastOne(ops, |ops| - 1, source, id, kinds);
    } else if There(Prior(ops), source, id) {
      var i :| LastOne(Prior(ops), i, source, id, kinds) && Prior(ops)[i].PushOp?;
      assert LastOne(ops, i, source, id, kinds) && ops[i].PushOp?;
    }
  }

  lemma WrittenStep(ops: History, source: string, id: string, data: Bytes, context: Bytes)
    requires ops != []
    ensures Written(ops, source, id, data, context) <==>
            if Concerns(Last(ops), source, id, {Pushing, Updating}) then Writes(Last(ops), data, context)
            else Written(Prior(ops), source, id, data, context)
  {
    var kinds := {Pushing, Updating};
    LastStep(ops, source, id, kinds);
    if Concerns(Last(ops), source, id, kinds) {
      assert LastOne(ops, |ops| - 1, source, id, kinds);
    } else if Written(Prior(ops), source, id, data, context) {
      var i :| LastOne(Prior(ops), i, source, id, kinds) && Writes(Prior(ops)[i], data, context);
      assert LastOne(ops, i, source, id, kinds) && Writes(ops[i], data, context);
    }
  }

  lemma LockedStep(ops: History, source: string, id: string)
    requires ops != []
    ensures Locked(ops, source, id) <==>
            if Concerns(Last(ops), source, id, {Pushing, Locking, Unlocking}) then Last(ops).LockOp? else Locked(Prior(ops), source, id)
  {
    var kinds := {Pushing, Locking, Unlocking};
    LastStep(ops, source, id, kinds);
    if Concerns(Last(ops), source, id, kinds) {
      assert LastOne(ops, |ops| - 1, source, id, kinds);
    } else if Locked(Prior(ops), source, id) {
      var i :| LastOne(Prior(ops), i, source, id, kinds) && Prior(ops)[i].LockOp?;
      assert LastOne(ops, i, source, id, kinds) && ops[i].LockOp?;
    }
  }

  // The queue shows what the positions of the operations say.
  ghost predicate Shows(q: Queue, ops: History, source: string, id: string) {
    && (Fifo.Has(q, id) <==> There(ops, source, id))
    && (Fifo.Has(q, id) ==>
          var e := Fifo.Find(q, id).value;
          Written(ops, source, id, e.data, e.context) && (e.locked <==> Locked(ops, source, id)))
  }

  // For both back ends: an entry is there if and only if the last push or delete of its id is a
  // push; its data and context are those of the last push or update; and it is locked if and
  // only if the last push, lock or unlock is a lock.
  lemma {:induction false} QueueIs(ops: History, replace: bool, source: string, id: string)
    requires replace || FreshPushes(ops)
    ensures Shows(QueueRun(replace, ops, source), ops, source, id)
  {
    if ops != [] {
      QueueIs(Prior(ops), replace, source, id);
      var q := QueueRun(replace, Prior(ops), source);
      ThereStep(ops, source, id);
      LockedStep(ops, source, id);
      EntryStep(ops, q, replace, source, id);
    }
  }

  lemma EntryStep(ops: History, q: Queue, replace: bool, source: string, id: string)
    requires ops != [] && Shows(q, Prior(ops), source, id)
    requires replace || !Repeats(q, Last(ops)) || Last(ops).source != source
    requires There(ops, source, id) <==>
             if Concerns(Last(ops), source, id, {Pushing, Deleting}) then Last(ops).PushOp? else There(Prior(ops), source, id)
    requires Locked(ops, source, id) <==>
             if Concerns(Last(ops), source, id, {Pushing, Locking, Unlocking}) then Last(ops).LockOp? else Locked(Prior(ops), source, id)
    ensures Shows(QueueApply(q, replace, source, Last(ops)), ops, source, id)
  {
    var op := Last(ops);
    var r := Fifo.Find(QueueApply(q, replace, source, op), id);
    FindStep(q, replace, source, op, id);
    if r.Some? {
      WrittenStep(ops, source, id, r.value.data, r.value.context);
    }
  }

  // What one operation does to the entry of one id.
  lemma FindStep(q: Queue, replace: bool, source: string, op: Op, id: string)
    requires replace || !Repeats(q, op) || op.source != source
    ensures var was, now := Fifo.Find(q, id), Fifo.Find(QueueApply(q, replace, source, op), id);
            if op.CursorOp? || op.source != source || op.id != id then now == was
            else if op.PushOp? then now == Some(Fifo.Entry(id, op.data, op.context, false))
            else if op.DeleteOp? || was.None? then now == None
            else if op.UpdateOp? then now == Some(was.value.(data := op.data, context := op.context))
            else now == Some(was.value.(locked := op.LockOp?))
  {
  }

  // ---- listings

  // GetItems shows the first entries, GetLocked the first locked and GetUnlocked the first
  // unlocked ones: 100 of them, unless the limit is positive.
  lemma ListingsAre(q: Queue, limit: int, i: nat)
    requires Fifo.UniqueIds(q) && i < |q|
    ensures var most := if limit <= 0 then 100 else limit;
            && |Items(q, limit)| == (if |q| < most then |q| else most) && (i < most ==> Items(q, limit)[i] == q[i])
            && |ByLock(q, true, limit)| <= most && |ByLock(q, false, limit)| <= most
            && (q[i] in ByLock(q, true, limit) <==> q[i].locked && Fifo.Rank(q, true, i) < most)
            && (q[i] in ByLock(q, false, limit) <==> !q[i].locked && Fifo.Rank(q, false, i) < most)
            && (q[i] in ByLock(q, q[i].locked, limit) ==>
                  var r := Fifo.Rank(q, q[i].locked, i);
                  r < |ByLock(q, q[i].locked, limit)| && ByLock(q, q[i].locked, limit)[r] == q[i])
  {
    Fifo.ListingExactly(q, true, limit, i);
    Fifo.ListingExactly(q, false, limit, i);
  }

  // ---- order

  // The entries stand in the order of their last pushes.
  lemma {:induction false} OrderIs(ops: History, replace: bool, source: string, a: nat, b: nat, i: int, j: int)
    requires replace || FreshPushes(ops)
    requires var q := QueueRun(replace, ops, source);
             a < b < |q| && LastOne(ops, i, source, q[a].id, {Pushing}) && LastOne(ops, j, source, q[b].id, {Pushing})
    ensures i < j
  {
    var prior, op := Prior(ops), Last(ops);
    var p, q := QueueRun(replace, prior, source), QueueRun(replace, ops, source);
    LastStep(ops, source, q[a].id, {Pushing});
    LastStep(ops, source, q[b].id, {Pushing});
    QueueUniqueRun(prior, replace, source);
    var x, y := CameFrom(p, replace, source, op, a, b);
    if !Concerns(op, source, q[b].id, {Pushing}) {
      OrderIs(prior, replace, source, x, y, i, j);
    }
  }

  lemma {:induction false} QueueUniqueRun(ops: History, replace: bool, source: string)
    requires replace || FreshPushes(ops)
    ensures Fifo.UniqueIds(QueueRun(replace, ops, source))
  {
    if replace {
      MemRunRefines(ops, source);
      QueueUnique(MemCells(MemRun(ops), source));
    } else {
      QueueRunUnique(ops, source);
    }
  }

  // Two entries after an operation, in their order before it, unless the second was pushed by it.
  lemma CameFrom(p: Queue, replace: bool, source: string, op: Op, a: nat, b: nat) returns (x: nat, y: nat)
    requires Fifo.UniqueIds(p) && (replace || !Repeats(p, op) || op.source != source)
    requires a < b < |QueueApply(p, replace, source, op)|
    ensures var q := QueueApply(p, replace, source, op);
            !Concerns(op, source, q[a].id, {Pushing}) &&
            (!Concerns(op, source, q[b].id, {Pushing}) ==> x < y < |p| && p[x].id == q[a].id && p[y].id == q[b].id)
  {
    x, y := a, b;
    if op.source != source || op.CursorOp? {
      return;
    }
    if op.PushOp? && Fifo.Has(p, op.id) {
      x, y := PushedBehind(p, Fifo.Delete(p, op.id), op.id, op.data, op.context, a, b);
    } else if op.PushOp? {
      Fifo.DeleteNone(p, op.id);
      x, y := PushedBehind(p, p, op.id, op.data, op.context, a, b);
    } else if op.DeleteOp? {
      x, y := DeletedFrom(p, op.id, a, b);
    } else if op.UpdateOp? {
      Fifo.UpdateAt(p, op.id, op.data, op.context, a);
      Fifo.UpdateAt(p, op.id, op.data, op.context, b);
    } else {
      Fifo.SetLockAt(p, op.id, op.LockOp?, a);
      Fifo.SetLockAt(p, op.id, op.LockOp?, b);
    }
  }

  lemma PushedBehind(p: Queue, rest: Queue, id: string, data: Bytes, context: Bytes, a: nat, b: nat) returns (x: nat, y: nat)
    requires rest == Fifo.Delete(p, id) && a < b < |rest| + 1
    ensures var q := Fifo.Push(rest, id, data, context);
            |q| == |rest| + 1 && q[a].id != id &&
            (q[b].id != id ==> x < y < |p| && p[x].id == q[a].id && p[y].id == q[b].id)
  {
    assert rest[a] in rest;
    x, y := a, b;
    if b < |rest| {
      x, y := DeletedFrom(p, id, a, b);
    }
  }

  lemma DeletedFrom(p: Queue, id: string, a: nat, b: nat) returns (x: nat, y: nat)
    requires a < b < |Fifo.Delete(p, id)|
    ensures x < y < |p| && p[x] == Fifo.Delete(p, id)[a] && p[y] == Fifo.Delete(p, id)[b]
  {
    x, y := PlaceOf(p, id, a), PlaceOf(p, id, b);
    PlaceIs(p, id, a);
    PlaceIs(p, id, b);
    PlacesAscend(p, id, a, b);
  }

  // Where an entry that a delete leaves was before.
  function PlaceOf(p: Queue, id: string, a: nat): nat {
    if p == [] then 0
    else if p[0].id == id then 1 + PlaceOf(p[1..], id, a)
    else if a == 0 then 0
    else 1 + PlaceOf(p[1..], id, a - 1)
  }

  lemma {:induction false} PlaceIs(p: Queue, id: string, a: nat)
    requires a < |Fifo.Delete(p, id)|
    ensures PlaceOf(p, id, a) < |p| && p[PlaceOf(p, id, a)] == Fifo.Delete(p, id)[a]
  {
    if p[0].id == id {
      PlaceIs(p[1..], id, a);
    } else if a > 0 {
      PlaceIs(p[1..], id, a - 1);
    }
  }

  lemma {:induction false} PlacesAscend(p: Queue, id: string, a: nat, b: nat)
    requires a < b < |Fifo.Delete(p, id)|
    ensures PlaceOf(p, id, a) < PlaceOf(p, id, b)
  {
    if p[0].id == id {
      PlacesAscend(p[1..], id, a, b);
    } else if a > 0 {
      PlacesAscend(p[1..], id, a - 1, b - 1);
    }
  }

  // ---- cursors

  ghost predicate LastCursor(ops: History, i: int, source: string) {
    0 <= i < |ops| && ops[i].CursorOp? && ops[i].source == source &&
    forall j :: i < j < |ops| ==> !(ops[j].CursorOp? && ops[j].source == source)
  }

  // The cursor is the one last stored for the source; without one it is empty if anything was
  // pushed to the source, and missing otherwise.
  ghost predicate IsCursor(ops: History, source: string, c: Option<string>) {
    && (forall i :: LastCursor(ops, i, source) ==> c == Some(ops[i].cursor))
    && ((forall i :: !LastCursor(ops, i, source)) ==>
          c == if exists i :: 0 <= i < |ops| && ops[i].PushOp? && ops[i].source == source then Some("") else None)
  }

  lemma CursorStep(ops: History, source: string, c: Option<string>, c': Option<string>)
    requires ops != [] && IsCursor(Prior(ops), source, c)
    requires c' == if Last(ops).source != source then c
                   else if Last(ops).CursorOp? then Some(Last(ops).cursor)
                   else if Last(ops).PushOp? && c.None? then Some("")
                   else c
    ensures IsCursor(ops, source, c')
  {
    var prior, op, n := Prior(ops), Last(ops), |ops| - 1;
    assert ops[n] == op && forall j :: 0 <= j < n ==> ops[j] == prior[j];
    if op.CursorOp? && op.source == source {
      assert LastCursor(ops, n, source);
    } else {
      forall i ensures LastCursor(ops, i, source) <==> LastCursor(prior, i, source) {
      }
    }
  }

  lemma {:induction false} MemCursorIs(ops: History, source: string)
    ensures IsCursor(ops, source, CursorOf(MemRun(ops).cursors, source))
  {
    if ops != [] {
      MemCursorIs(Prior(ops), source);
      TablesHaveCursors(Prior(ops), source);
      CursorStep(ops, source, CursorOf(MemRun(Prior(ops)).cursors, source), CursorOf(MemRun(ops).cursors, source));
    }
  }

  lemma {:induction false} SqlCursorIs(ops: History, source: string)
    ensures IsCursor(ops, source, CursorOf(SqlRun(ops).sources, source))
  {
    if ops != [] {
      SqlCursorIs(Prior(ops), source);
      SqlRunRefines(Prior(ops), source);
      CursorStep(ops, source, CursorOf(SqlRun(Prior(ops)).sources, source), CursorOf(SqlRun(ops).sources, source));
    }
  }

  // After every history: queue and cursor of the memory back end, and those of SQLite if no
  // push of the history was refused.
  lemma BackendsShow(ops: History, source: string, id: string)
    ensures MemValid(MemRun(ops)) && Shows(MemQueue(MemRun(ops), source), ops, source, id)
    ensures SqlValid(SqlRun(ops)) && (FreshPushes(ops) ==> Shows(SqlQueue(SqlRun(ops), source), ops, source, id))
    ensures IsCursor(ops, source, CursorOf(MemRun(ops).cursors, source))
    ensures IsCursor(ops, source, CursorOf(SqlRun(ops).sources, source))
  {
    MemRunRefines(ops, source);
    QueueIs(ops, true, source, id);
    SqlRunRefines(ops, source);
    if FreshPushes(ops) {
      QueueIs(ops, false, source, id);
    }
    MemCursorIs(ops, source);
    SqlCursorIs(ops, source);
  }
}
