// The two storage back ends as functions on values, the per-source queue both refine, and
// their equivalence over whole histories of operations.
module Backends {
  import opened Prelude
  import Fifo
  import opened Table

  datatype Op =
    | PushOp(source: string, id: string, data: Bytes, context: Bytes)
    | UpdateOp(source: string, id: string, data: Bytes, context: Bytes)
    | DeleteOp(source: string, id: string)
    | LockOp(source: string, id: string)
    | UnlockOp(source: string, id: string)
    | CursorOp(source: string, cursor: string)

  // ---- the queue of one source

  // What an operation does to the queue of `source`.  The back ends differ only in a push
  // of an id that is still queued: one replaces the entry, the other refuses.
  function QueueApply(q: Queue, replace: bool, source: string, op: Op): Queue {
    if op.source != source then q
    else match op
      case PushOp(_, id, data, context) =>
        if !Fifo.Has(q, id) then Fifo.Push(q, id, data, context)
        else if replace then Fifo.Push(Fifo.Delete(q, id), id, data, context)
        else q
      case UpdateOp(_, id, data, context) => Fifo.Update(q, id, data, context)
      case DeleteOp(_, id) => Fifo.Delete(q, id)
      case LockOp(_, id) => Fifo.SetLock(q, id, true)
      case UnlockOp(_, id) => Fifo.SetLock(q, id, false)
      case CursorOp(_, _) => q
  }

  // ---- the items of one source

  // What an operation on a source does to its items; `next` is the order index of a new one.
  function CellsApply(t: Cells, next: nat, replace: bool, op: Op): Cells {
    match op
    case PushOp(_, id, data, context) =>
      if id in t && !replace then t else t[id := Cell(data, context, next, false)]
    case UpdateOp(_, id, data, context) =>
      Updated(t, id, data, context)
    case DeleteOp(_, id) => t - {id}
    case LockOp(_, id) => WithLock(t, id, true)
    case UnlockOp(_, id) => WithLock(t, id, false)
    case CursorOp(_, _) => t
  }

  lemma PushCells(t: Cells, next: nat, replace: bool, op: Op)
    requires op.PushOp? && Distinct(t) && forall j :: j in t ==> t[j].index < next
    ensures var t' := CellsApply(t, next, replace, op);
            Distinct(t') && QueueOf(t') == QueueApply(QueueOf(t), replace, op.source, op)
  {
    var c := Cell(op.data, op.context, next, false);
    QueueFind(t, op.id);
    if op.id !in t {
      InsertIsPush(t, op.id, c);
    } else if replace {
      OverwriteIsDeletePush(t, op.id, c);
    }
  }

  lemma CellsRefine(t: Cells, next: nat, replace: bool, op: Op)
    requires Distinct(t) && forall j :: j in t ==> t[j].index < next
    ensures var t' := CellsApply(t, next, replace, op);
            Distinct(t') && QueueOf(t') == QueueApply(QueueOf(t), replace, op.source, op)
  {
    match op {
      case PushOp(_, _, _, _) => PushCells(t, next, replace, op);
      case UpdateOp(_, id, data, context) => UpdatedQueue(t, id, data, context);
      case DeleteOp(_, id) => RemoveIsDelete(t, id);
      case LockOp(_, id) => WithLockQueue(t, id, true);
      case UnlockOp(_, id) => WithLockQueue(t, id, false);
      case CursorOp(_, _) =>
    }
  }

  lemma CellsDistinct(t: Cells, next: nat, replace: bool, op: Op)
    requires Distinct(t) && forall j :: j in t ==> t[j].index < next
    ensures Distinct(CellsApply(t, next, replace, op))
  {
    CellsRefine(t, next, replace, op);
  }

  lemma CellsBelow(t: Cells, next: nat, replace: bool, op: Op)
    requires Below(t, next) && next > 0
    ensures Below(CellsApply(t, next, replace, op), if op.PushOp? then next + 1 else next)
  {
  }

  // ---- memory

  datatype MemState = MemState(tables: map<string, Cells>, cursors: map<string, string>, nextIndex: map<string, nat>)

  const MEM_EMPTY := MemState(map[], map[], map[])

  // Order indices of a source are distinct, positive and below its next index.
  ghost predicate MemValid(m: MemState) {
    && m.tables.Keys == m.nextIndex.Keys
    && forall s :: s in m.tables ==> m.nextIndex[s] >= 1 && Distinct(m.tables[s]) && Below(m.tables[s], m.nextIndex[s])
  }

  function MemCells(m: MemState, source: string): Cells {
    if source in m.tables then m.tables[source] else map[]
  }

  function MemNext(m: MemState, source: string): nat {
    if source in m.nextIndex then m.nextIndex[source] else 1
  }

  function MemQueue(m: MemState, source: string): Queue
    requires MemValid(m)
  {
    QueueOf(MemCells(m, source))
  }

  function CursorOf(cursors: map<string, string>, source: string): Option<string> {
    if source in cursors then Some(cursors[source]) else None
  }

  // The state with a table for the source; a new source also gets an empty cursor.
  function WithSource(m: MemState, s: string): (r: MemState)
    ensures s in r.tables && (s in m.nextIndex || s !in m.tables ==> s in r.nextIndex)
  {
    if s in m.tables then m
    else MemState(m.tables[s := map[]], if s in m.cursors then m.cursors else m.cursors[s := ""], m.nextIndex[s := 1])
  }

  // A new or replaced item takes the next index and is unlocked.
  function MemAppend(m: MemState, s: string, id: string, data: Bytes, context: Bytes): MemState
    requires s in m.tables
  {
    var next := MemNext(m, s);
    m.(tables := m.tables[s := m.tables[s][id := Cell(data, context, next, false)]], nextIndex := m.nextIndex[s := next + 1])
  }

  function MemApply(m: MemState, op: Op): (MemState, Status) {
    var s := op.source;
    var t := MemCells(m, s);
    match op
    case PushOp(_, id, data, context) =>
      (MemAppend(WithSource(m, s), s, id, data, context), Ok)
    case UpdateOp(_, id, data, context) =>
      if id !in t then (m, Err)
      else (m.(tables := m.tables[s := t[id := t[id].(data := data, context := context)]]), Ok)
    case DeleteOp(_, id) =>
      (if s in m.tables then m.(tables := m.tables[s := t - {id}]) else m, Ok)
    case LockOp(_, id) =>
      if id !in t then (m, Err) else (m.(tables := m.tables[s := t[id := t[id].(locked := true)]]), Ok)
    case UnlockOp(_, id) =>
      if id !in t then (m, Err) else (m.(tables := m.tables[s := t[id := t[id].(locked := false)]]), Ok)
    case CursorOp(_, cursor) =>
      (m.(cursors := m.cursors[s := cursor]), Ok)
  }

  lemma MemOwnSource(m: MemState, op: Op)
    requires m.tables.Keys == m.nextIndex.Keys
    ensures var m' := MemApply(m, op).0;
            && MemCells(m', op.source) == CellsApply(MemCells(m, op.source), MemNext(m, op.source), true, op)
            && MemNext(m', op.source) == MemNext(m, op.source) + (if op.PushOp? then 1 else 0)
  {
    if op.DeleteOp? {
      RemoveRest(MemCells(m, op.source), op.id, op.id);
    }
  }

  lemma MemOthers(m: MemState, op: Op, s: string)
    requires m.tables.Keys == m.nextIndex.Keys && s != op.source
    ensures var m' := MemApply(m, op).0;
            MemCells(m', s) == MemCells(m, s) && MemNext(m', s) == MemNext(m, s) && (s in m'.tables <==> s in m.tables)
  {
  }

  lemma MemKeys(m: MemState, op: Op)
    requires m.tables.Keys == m.nextIndex.Keys
    ensures MemApply(m, op).0.tables.Keys == MemApply(m, op).0.nextIndex.Keys
  {
  }

  lemma MemKeepsValid(m: MemState, op: Op)
    requires MemValid(m)
    ensures MemValid(MemApply(m, op).0)
  {
    var m' := MemApply(m, op).0;
    var t := MemCells(m, op.source);
    MemKeys(m, op);
    MemOwnSource(m, op);
    CellsDistinct(t, MemNext(m, op.source), true, op);
    CellsBelow(t, MemNext(m, op.source), true, op);
    forall s | s in m'.tables
      ensures m'.nextIndex[s] >= 1 && Distinct(m'.tables[s]) && Below(m'.tables[s], m'.nextIndex[s])
    {
      assert m'.tables[s] == MemCells(m', s) && m'.nextIndex[s] == MemNext(m', s);
      if s != op.source {
        MemOthers(m, op, s);
      }
    }
  }

  // Every operation acts on the queue of a source as QueueApply says.
  lemma MemRefines(m: MemState, op: Op, source: string)
    requires MemValid(m)
    ensures MemValid(MemApply(m, op).0)
    ensures MemQueue(MemApply(m, op).0, source) == QueueApply(MemQueue(m, source), true, source, op)
  {
    MemKeepsValid(m, op);
    if source == op.source {
      MemOwnSource(m, op);
      CellsRefine(MemCells(m, op.source), MemNext(m, op.source), true, op);
    } else {
      MemOthers(m, op, source);
    }
  }

  lemma MemStatus(m: MemState, op: Op)
    requires MemValid(m)
    ensures MemApply(m, op).1 ==
            if (op.UpdateOp? || op.LockOp? || op.UnlockOp?) && !Fifo.Has(MemQueue(m, op.source), op.id) then Err else Ok
  {
    if !op.CursorOp? {
      QueueFind(MemCells(m, op.source), op.id);
    }
  }

  // ---- SQLite

  type Key = (string, string)

  datatype SqlState = SqlState(sources: map<string, string>, rows: map<Key, Cell>)

  const SQL_EMPTY := SqlState(map[], map[])

  // The rows of one source.
  function SqlCells(d: SqlState, source: string): (t: Cells)
    ensures forall id :: id in t <==> (source, id) in d.rows
    ensures forall id :: id in t ==> t[id] == d.rows[(source, id)]
  {
    map id | id in SqlIds(d, source) :: d.rows[(source, id)]
  }

  function SqlIds(d: SqlState, source: string): (ids: set<string>)
    ensures forall id :: id in ids <==> (source, id) in d.rows
  {
    var ids := set k | k in d.rows && k.0 == source :: k.1;
    assert forall id :: (source, id) in d.rows ==> (source, id).1 in ids;
    ids
  }

  // Every row belongs to a known source and has a positive order index.
  ghost predicate SqlLinked(d: SqlState) {
    forall k :: k in d.rows ==> k.0 in d.sources && d.rows[k].index > 0
  }

  // Besides, order indices of a source are distinct.
  ghost predicate SqlValid(d: SqlState) {
    SqlLinked(d) && forall s :: Distinct(SqlCells(d, s))
  }

  function SqlQueue(d: SqlState, source: string): Queue
    requires SqlValid(d)
  {
    QueueOf(SqlCells(d, source))
  }

  // COALESCE(MAX(order_index), 0)
  function MaxIndex(t: Cells): nat {
    Greatest(set id | id in t :: t[id].index)
  }

  ghost predicate Tops(s: set<nat>, m: nat) {
    m in s && forall i :: i in s ==> i <= m
  }

  // 0 for the empty set.
  function Greatest(s: set<nat>): nat {
    if s == {} then 0
    else
      GreatestExists(s);
      var m :| m in s && forall i | i in s :: i <= m;
      m
  }

  lemma MaxIndexIs(t: Cells)
    ensures forall id :: id in t ==> t[id].index <= MaxIndex(t)
    ensures if t == map[] then MaxIndex(t) == 0 else exists id :: id in t && t[id].index == MaxIndex(t)
  {
    var s := set id | id in t :: t[id].index;
    forall id | id in t ensures t[id].index in s {
    }
    if t != map[] {
      var x :| x in t;
      assert t[x].index in s;
      assert Greatest(s) in s;
    }
  }

  lemma {:induction false} GreatestExists(s: set<nat>)
    requires s != {}
    ensures exists m :: Tops(s, m)
    decreases |s|
  {
    var x :| x in s;
    if s == {x} {
      assert Tops(s, x);
    } else {
      GreatestExists(s - {x});
      var m :| Tops(s - {x}, m);
      TopsMore(s, x, m);
    }
  }

  lemma TopsMore(s: set<nat>, x: nat, m: nat)
    requires x in s && Tops(s - {x}, m)
    ensures Tops(s, if x < m then m else x)
  {
    assert forall i :: i in s ==> i == x || i in s - {x};
  }

  function SqlApply(d: SqlState, op: Op): (SqlState, Status) {
    var s := op.source;
    match op
    case PushOp(_, id, data, context) =>
      if (s, id) in d.rows then (d, Err)
      else (SqlState(if s in d.sources then d.sources else d.sources[s := ""],
                     d.rows[(s, id) := Cell(data, context, MaxIndex(SqlCells(d, s)) + 1, false)]), Ok)
    case UpdateOp(_, id, data, context) =>
      if (s, id) !in d.rows then (d, Err)
      else (d.(rows := d.rows[(s, id) := d.rows[(s, id)].(data := data, context := context)]), Ok)
    case DeleteOp(_, id) =>
      (d.(rows := d.rows - {(s, id)}), Ok)
    case LockOp(_, id) =>
      (if (s, id) in d.rows then d.(rows := d.rows[(s, id) := d.rows[(s, id)].(locked := true)]) else d, Ok)
    case UnlockOp(_, id) =>
      (if (s, id) in d.rows then d.(rows := d.rows[(s, id) := d.rows[(s, id)].(locked := false)]) else d, Ok)
    case CursorOp(_, cursor) =>
      (d.(sources := d.sources[s := cursor]), Ok)
  }

  lemma SqlOtherSource(d: SqlState, d': SqlState, s: string)
    requires forall k: Key :: k.0 == s ==> (k in d.rows <==> k in d'.rows) && (k in d.rows ==> d.rows[k] == d'.rows[k])
    ensures SqlCells(d, s) == SqlCells(d', s)
  {
    forall id ensures id in SqlCells(d, s) <==> id in SqlCells(d', s) {
      var k: Key := (s, id);
      assert k.0 == s;
    }
  }

  lemma SqlPut(d: SqlState, d': SqlState, s: string, id: string, c: Cell)
    requires d'.rows == d.rows[(s, id) := c]
    ensures SqlCells(d', s) == SqlCells(d, s)[id := c]
  {
  }

  lemma SqlCut(d: SqlState, d': SqlState, s: string, id: string)
    requires d'.rows == d.rows - {(s, id)}
    ensures SqlCells(d', s) == SqlCells(d, s) - {id}
  {
  }

  lemma SqlOwnPush(d: SqlState, op: Op)
    requires op.PushOp?
    ensures var t := SqlCells(d, op.source);
            SqlCells(SqlApply(d, op).0, op.source) == CellsApply(t, MaxIndex(t) + 1, false, op)
  {
    if (op.source, op.id) !in d.rows {
      SqlPut(d, SqlApply(d, op).0, op.source, op.id, Cell(op.data, op.context, MaxIndex(SqlCells(d, op.source)) + 1, false));
    }
  }

  lemma SqlOwnChange(d: SqlState, op: Op)
    requires op.UpdateOp? || op.LockOp? || op.UnlockOp?
    ensures var t := SqlCells(d, op.source);
            SqlCells(SqlApply(d, op).0, op.source) == CellsApply(t, MaxIndex(t) + 1, false, op)
  {
    if (op.source, op.id) in d.rows {
      var d' := SqlApply(d, op).0;
      SqlPut(d, d', op.source, op.id, d'.rows[(op.source, op.id)]);
    }
  }

  // What an operation does to the rows of its own source.
  lemma SqlOwnSource(d: SqlState, op: Op)
    ensures var t := SqlCells(d, op.source);
            SqlCells(SqlApply(d, op).0, op.source) == CellsApply(t, MaxIndex(t) + 1, false, op)
  {
    if op.PushOp? {
      SqlOwnPush(d, op);
    } else if op.DeleteOp? {
      SqlCut(d, SqlApply(d, op).0, op.source, op.id);
    } else if !op.CursorOp? {
      SqlOwnChange(d, op);
    }
  }

  lemma SqlOthers(d: SqlState, op: Op, s: string)
    requires s != op.source
    ensures SqlCells(SqlApply(d, op).0, s) == SqlCells(d, s)
  {
    SqlOtherSource(d, SqlApply(d, op).0, s);
  }

  lemma SqlReferences(d: SqlState, op: Op)
    requires SqlLinked(d)
    ensures SqlLinked(SqlApply(d, op).0)
  {
    var d' := SqlApply(d, op).0;
    forall k | k in d'.rows ensures k.0 in d'.sources && d'.rows[k].index > 0 {
      if k in d.rows {
        assert k.0 in d.sources && d.rows[k].index > 0;
      }
    }
  }

  lemma SqlKeepsValid(d: SqlState, op: Op)
    requires SqlValid(d)
    ensures SqlValid(SqlApply(d, op).0)
  {
    var d' := SqlApply(d, op).0;
    var t := SqlCells(d, op.source);
    SqlReferences(d, op);
    forall s ensures Distinct(SqlCells(d', s)) {
      if s == op.source {
        SqlOwnSource(d, op);
        MaxIndexIs(t);
        CellsDistinct(t, MaxIndex(t) + 1, false, op);
      } else {
        SqlOthers(d, op, s);
      }
    }
  }

  // Every operation acts on the queue of a source as QueueApply says.
  lemma SqlRefines(d: SqlState, op: Op, source: string)
    requires SqlValid(d)
    ensures SqlValid(SqlApply(d, op).0)
    ensures SqlQueue(SqlApply(d, op).0, source) == QueueApply(SqlQueue(d, source), false, source, op)
  {
    SqlKeepsValid(d, op);
    if source == op.source {
      SqlOwnQueue(d, op);
    } else {
      SqlOthers(d, op, source);
    }
  }

  lemma SqlOwnQueue(d: SqlState, op: Op)
    requires SqlValid(d) && SqlValid(SqlApply(d, op).0)
    ensures SqlQueue(SqlApply(d, op).0, op.source) == QueueApply(SqlQueue(d, op.source), false, op.source, op)
  {
    SqlOwnSource(d, op);
    MaxIndexIs(SqlCells(d, op.source));
    SqlQueueOf(d, SqlApply(d, op).0, op, MaxIndex(SqlCells(d, op.source)) + 1);
  }

  lemma SqlQueueOf(d: SqlState, d': SqlState, op: Op, next: nat)
    requires SqlValid(d) && SqlValid(d') && SqlCells(d', op.source) == CellsApply(SqlCells(d, op.source), next, false, op)
    requires forall id :: id in SqlCells(d, op.source) ==> SqlCells(d, op.source)[id].index < next
    ensures SqlQueue(d', op.source) == QueueApply(SqlQueue(d, op.source), false, op.source, op)
  {
    CellsRefine(SqlCells(d, op.source), next, false, op);
  }

  lemma SqlStatus(d: SqlState, op: Op)
    requires SqlValid(d)
    ensures var q := SqlQueue(d, op.source);
            SqlApply(d, op).1 ==
            if (op.PushOp? && Fifo.Has(q, op.id)) || (op.UpdateOp? && !Fifo.Has(q, op.id)) then Err else Ok
  {
    if op.PushOp? || op.UpdateOp? {
      QueueFind(SqlCells(d, op.source), op.id);
    }
  }
}
