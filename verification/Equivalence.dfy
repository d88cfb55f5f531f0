// The two back ends over whole histories: what they list, what they answer, where they part.
module Equivalence {
  import opened Prelude
  import Fifo
  import opened Table
  import opened Backends

  type History = seq<Op>

  function Prior(ops: History): History
    requires ops != []
  {
    ops[..|ops| - 1]
  }

  function Last(ops: History): Op
    requires ops != []
  {
    ops[|ops| - 1]
  }

  function MemRun(ops: History): MemState {
    if ops == [] then MEM_EMPTY else MemApply(MemRun(Prior(ops)), Last(ops)).0
  }

  function SqlRun(ops: History): SqlState {
    if ops == [] then SQL_EMPTY else SqlApply(SqlRun(Prior(ops)), Last(ops)).0
  }

  function QueueRun(replace: bool, ops: History, source: string): Queue {
    if ops == [] then [] else QueueApply(QueueRun(replace, Prior(ops), source), replace, source, Last(ops))
  }

  // After every history the memory back end holds the queue in which a repeated push
  // replaces the old entry.
  lemma {:induction false} MemRunRefines(ops: History, source: string)
    ensures MemValid(MemRun(ops)) && MemQueue(MemRun(ops), source) == QueueRun(true, ops, source)
  {
    if ops != [] {
      MemRunRefines(Prior(ops), source);
      MemRefines(MemRun(Prior(ops)), Last(ops), source);
    }
  }

  // After every history SQLite holds the queue in which a repeated push is refused.
  lemma {:induction false} SqlRunRefines(ops: History, source: string)
    ensures SqlValid(SqlRun(ops)) && SqlQueue(SqlRun(ops), source) == QueueRun(false, ops, source)
  {
    if ops == [] {
      assert SqlCells(SQL_EMPTY, source) == map[];
      forall s ensures Distinct(SqlCells(SQL_EMPTY, s)) {
      }
    } else {
      SqlRunRefines(Prior(ops), source);
      SqlRefines(SqlRun(Prior(ops)), Last(ops), source);
    }
  }

  predicate Repeats(q: Queue, op: Op) {
    op.PushOp? && Fifo.Has(q, op.id)
  }

  // No push of the history repeats an id that is still queued in its source.
  predicate FreshPushes(ops: History) {
    ops == [] ||
    (FreshPushes(Prior(ops)) && !Repeats(QueueRun(false, Prior(ops), Last(ops).source), Last(ops)))
  }

  lemma {:induction false} QueuesMeet(ops: History, source: string)
    requires FreshPushes(ops)
    ensures QueueRun(true, ops, source) == QueueRun(false, ops, source)
  {
    if ops != [] {
      QueuesMeet(Prior(ops), source);
    }
  }

  // GetItems, GetLocked and GetUnlocked of both back ends, as functions of the queue.
  function Items(q: Queue, limit: int): Queue {
    Fifo.First(q, limit)
  }

  function ByLock(q: Queue, locked: bool, limit: int): Queue {
    Fifo.First(Fifo.Select(q, locked), limit)
  }

  // After every history of fresh pushes, whatever else it does, both back ends hold the
  // same queues, give the same listings under every limit, and the same cursors.
  lemma BackendsAgree(ops: History, source: string)
    requires FreshPushes(ops)
    ensures MemValid(MemRun(ops)) && SqlValid(SqlRun(ops))
    ensures MemQueue(MemRun(ops), source) == SqlQueue(SqlRun(ops), source)
    ensures forall limit :: Items(MemQueue(MemRun(ops), source), limit) == Items(SqlQueue(SqlRun(ops), source), limit)
    ensures forall limit, locked ::
              ByLock(MemQueue(MemRun(ops), source), locked, limit) == ByLock(SqlQueue(SqlRun(ops), source), locked, limit)
    ensures CursorOf(MemRun(ops).cursors, source) == CursorOf(SqlRun(ops).sources, source)
  {
    MemRunRefines(ops, source);
    SqlRunRefines(ops, source);
    QueuesMeet(ops, source);
    CursorsAgree(ops, source);
  }

  // A source that has items has a cursor.
  lemma {:induction false} TablesHaveCursors(ops: History, source: string)
    ensures source in MemRun(ops).tables ==> source in MemRun(ops).cursors
  {
    if ops != [] {
      TablesHaveCursors(Prior(ops), source);
    }
  }

  lemma {:induction false} CursorsAgree(ops: History, source: string)
    requires FreshPushes(ops)
    ensures CursorOf(MemRun(ops).cursors, source) == CursorOf(SqlRun(ops).sources, source)
  {
    if ops != [] {
      var prior, op := Prior(ops), Last(ops);
      CursorsAgree(prior, source);
      if op.source == source {
        TablesHaveCursors(prior, source);
        SqlRunRefines(prior, source);
        SqlStatus(SqlRun(prior), op);
      } else {
        OtherCursors(MemRun(prior), SqlRun(prior), op, source);
      }
    }
  }

  lemma OtherCursors(m: MemState, d: SqlState, op: Op, source: string)
    requires op.source != source
    ensures CursorOf(MemApply(m, op).0.cursors, source) == CursorOf(m.cursors, source)
    ensures CursorOf(SqlApply(d, op).0.sources, source) == CursorOf(d.sources, source)
  {
  }

  // Next to a history of fresh pushes, the back ends answer an operation differently
  // exactly when it repeats a push, or locks or unlocks an item that is not there.
  lemma AnswersAgreeExactly(ops: History, op: Op)
    requires FreshPushes(ops)
    ensures var q := QueueRun(false, ops, op.source);
            MemApply(MemRun(ops), op).1 == SqlApply(SqlRun(ops), op).1 <==>
            !Repeats(q, op) && ((op.LockOp? || op.UnlockOp?) ==> Fifo.Has(q, op.id))
  {
    MemRunRefines(ops, op.source);
    SqlRunRefines(ops, op.source);
    QueuesMeet(ops, op.source);
    MemStatus(MemRun(ops), op);
    SqlStatus(SqlRun(ops), op);
  }

  // Next to a history of fresh pushes, a repeated push leaves both back ends with the same
  // queue exactly when the entry it repeats is the last one, unlocked and unchanged.
  lemma RepeatedPushAgreesExactly(ops: History, op: Op)
    requires FreshPushes(ops) && Repeats(QueueRun(false, ops, op.source), op)
    ensures var q := QueueRun(false, ops, op.source);
            QueueRun(true, ops + [op], op.source) == QueueRun(false, ops + [op], op.source) <==>
            q[|q| - 1] == Fifo.Entry(op.id, op.data, op.context, false)
  {
    var q := QueueRun(false, ops, op.source);
    var e := Fifo.Entry(op.id, op.data, op.context, false);
    QueueRunSnoc(true, ops, op, op.source);
    QueueRunSnoc(false, ops, op, op.source);
    QueuesMeet(ops, op.source);
    QueueRunUnique(ops, op.source);
    MovedBack(q, e);
  }

  lemma QueueRunSnoc(replace: bool, ops: History, op: Op, source: string)
    ensures QueueRun(replace, ops + [op], source) == QueueApply(QueueRun(replace, ops, source), replace, source, op)
  {
    assert Prior(ops + [op]) == ops && Last(ops + [op]) == op;
  }

  lemma QueueRunUnique(ops: History, source: string)
    ensures Fifo.UniqueIds(QueueRun(false, ops, source))
  {
    SqlRunRefines(ops, source);
    QueueUnique(SqlCells(SqlRun(ops), source));
  }

  // Taking an entry out and putting it back at the end gives the same queue if it was there.
  lemma MovedBack(q: Queue, e: Fifo.Entry<Bytes, Bytes>)
    requires q != [] && Fifo.UniqueIds(q)
    ensures Fifo.Delete(q, e.id) + [e] == q <==> q[|q| - 1] == e
  {
    var last := q[|q| - 1];
    EndsWith(Fifo.Delete(q, e.id), e, q);
    if last == e {
      DeleteBack(q, q[..|q| - 1], e);
    }
  }

  lemma EndsWith(p: Queue, e: Fifo.Entry<Bytes, Bytes>, q: Queue)
    requires q != []
    ensures p + [e] == q ==> q[|q| - 1] == e
    ensures q[|q| - 1] == e ==> q == q[..|q| - 1] + [e]
  {
    assert (p + [e])[|p + [e]| - 1] == e;
  }

  lemma DeleteBack(q: Queue, p: Queue, e: Fifo.Entry<Bytes, Bytes>)
    requires q == p + [e] && Fifo.UniqueIds(q)
    ensures Fifo.Delete(q, e.id) + [e] == q
  {
    DeleteLast(p, e);
  }

  lemma {:induction false} DeleteLast(q: Queue, e: Fifo.Entry<Bytes, Bytes>)
    requires Fifo.UniqueIds(q + [e])
    ensures Fifo.Delete(q + [e], e.id) == q
  {
    if q == [] {
      assert (q + [e])[1..] == [];
    } else {
      var r := q + [e];
      assert r[1..] == q[1..] + [e];
      assert r[|q|] == e && r[0] == q[0];
      DeleteLast(q[1..], e);
    }
  }

  // ---- order indices

  function PushesTo(ops: History, source: string): nat {
    if ops == [] then 0
    else PushesTo(Prior(ops), source) + if Last(ops).PushOp? && Last(ops).source == source then 1 else 0
  }

  // memoryStorage.GetIndex
  function MemIndex(m: MemState, source: string): nat
    requires MemValid(m)
  {
    if source in m.nextIndex then m.nextIndex[source] - 1 else 0
  }

  // SqliteStorage.GetIndex
  function SqlIndex(d: SqlState, source: string): nat {
    MaxIndex(SqlCells(d, source))
  }

  // In memory the k-th push to a source gets index k, so that no index is ever used twice,
  // and GetIndex is the highest index ever given out.
  lemma {:induction false} MemIndexCounts(ops: History, source: string)
    ensures MemValid(MemRun(ops)) && MemIndex(MemRun(ops), source) == PushesTo(ops, source)
    ensures MemNext(MemRun(ops), source) == PushesTo(ops, source) + 1
  {
    if ops != [] {
      var m := MemRun(Prior(ops));
      MemIndexCounts(Prior(ops), source);
      MemKeepsValid(m, Last(ops));
      if Last(ops).source == source {
        MemOwnSource(m, Last(ops));
      } else {
        MemOthers(m, Last(ops), source);
      }
    }
  }

  // The history deleted the newest entry of the source at some time.
  predicate DeletedNewest(ops: History, source: string) {
    ops != [] &&
    (DeletedNewest(Prior(ops), source) ||
     (Last(ops).DeleteOp? && Last(ops).source == source && Newest(QueueRun(false, Prior(ops), source), Last(ops).id)))
  }

  predicate Newest(q: Queue, id: string) {
    q != [] && q[|q| - 1].id == id
  }

  lemma {:induction false} MaxIsLast(t: Cells)
    requires Distinct(t) && t != map[]
    ensures QueueOf(t) != [] && var id := QueueOf(t)[|QueueOf(t)| - 1].id; id in t && MaxIndex(t) == t[id].index
    decreases |t|
  {
    var x := OldestOf(t);
    var rest := t - {x};
    MaxIndexIs(t);
    if rest == map[] {
      assert forall id :: id in t ==> id == x || id in rest;
    } else {
      MaxIsLast(rest);
      OldestBelowMax(t, x);
    }
  }

  lemma OldestBelowMax(t: Cells, x: string)
    requires Oldest(t, x) && t - {x} != map[]
    ensures MaxIndex(t - {x}) == MaxIndex(t)
  {
    var rest := t - {x};
    MaxIndexIs(t);
    MaxIndexIs(rest);
    var a :| a in rest && rest[a].index == MaxIndex(rest);
    var b :| b in t && t[b].index == MaxIndex(t);
    assert b == x || b in rest;
  }

  // What a step does to the largest remaining order index.
  lemma MaxIndexStep(t: Cells, op: Op)
    requires Distinct(t) && Below(t, MaxIndex(t) + 1) && (op.PushOp? ==> op.id !in t)
    ensures var t' := CellsApply(t, MaxIndex(t) + 1, false, op);
            && MaxIndex(t') <= MaxIndex(t) + (if op.PushOp? then 1 else 0)
            && (MaxIndex(t') == MaxIndex(t) + (if op.PushOp? then 1 else 0) <==>
                !(op.DeleteOp? && Newest(QueueOf(t), op.id)))
  {
    var t' := CellsApply(t, MaxIndex(t) + 1, false, op);
    if op.PushOp? {
      MaxIndexIs(t);
      MaxIndexIs(t');
      assert op.id in t';
    } else if op.DeleteOp? {
      DeleteMax(t, op.id);
    } else {
      assert SameRanks(t, t');
      SameMax(t, t');
    }
  }

  lemma SameMax(t: Cells, t': Cells)
    requires SameRanks(t, t')
    ensures MaxIndex(t') == MaxIndex(t)
  {
    MaxIndexIs(t);
    MaxIndexIs(t');
    assert t == map[] <==> t.Keys == {};
    assert t' == map[] <==> t'.Keys == {};
    if t != map[] {
      var a :| a in t && t[a].index == MaxIndex(t);
      var b :| b in t' && t'[b].index == MaxIndex(t');
      assert a in t'.Keys && b in t.Keys;
    }
  }

  lemma DeleteMax(t: Cells, id: string)
    requires Distinct(t) && Below(t, MaxIndex(t) + 1)
    ensures MaxIndex(t - {id}) <= MaxIndex(t)
    ensures MaxIndex(t - {id}) == MaxIndex(t) <==> !Newest(QueueOf(t), id)
  {
    var t' := t - {id};
    MaxIndexIs(t);
    MaxIndexIs(t');
    if t == map[] {
      assert t' == t;
    } else {
      MaxIsLast(t);
      var top := QueueOf(t)[|QueueOf(t)| - 1].id;
      if id != top {
        assert top in t';
      } else if t' != map[] {
        var b :| b in t' && t'[b].index == MaxIndex(t');
        assert b in t && b != top;
      } else {
        assert 0 < t[top].index;
      }
    }
  }

  lemma SqlIndexStep(d: SqlState, op: Op, source: string)
    requires SqlValid(d) && !Repeats(SqlQueue(d, op.source), op)
    ensures var gain := if op.PushOp? && op.source == source then 1 else 0;
            && SqlIndex(SqlApply(d, op).0, source) <= SqlIndex(d, source) + gain
            && (SqlIndex(SqlApply(d, op).0, source) == SqlIndex(d, source) + gain <==>
                !(op.DeleteOp? && op.source == source && Newest(SqlQueue(d, source), op.id)))
  {
    if op.source == source {
      var t := SqlCells(d, source);
      forall id | id in t ensures 0 < t[id].index {
        assert (source, id) in d.rows;
      }
      if op.PushOp? {
        QueueFind(t, op.id);
      }
      MaxIndexIs(t);
      SqlOwnSource(d, op);
      MaxIndexStep(t, op);
    } else {
      SqlOthers(d, op, source);
    }
  }

  // SQLite gives out the largest remaining index plus one.  Its GetIndex never exceeds that
  // of memory, and after a history of fresh pushes the two are equal exactly when no
  // delete of the history hit the newest entry of the source.
  lemma {:induction false} IndexAgreesExactly(ops: History, source: string)
    requires FreshPushes(ops)
    ensures MemValid(MemRun(ops))
    ensures SqlIndex(SqlRun(ops), source) <= MemIndex(MemRun(ops), source)
    ensures SqlIndex(SqlRun(ops), source) == MemIndex(MemRun(ops), source) <==> !DeletedNewest(ops, source)
  {
    MemIndexCounts(ops, source);
    if ops == [] {
      MaxIndexIs(SqlCells(SQL_EMPTY, source));
      assert SqlCells(SQL_EMPTY, source) == map[];
    } else {
      var prior, op := Prior(ops), Last(ops);
      IndexAgreesExactly(prior, source);
      MemIndexCounts(prior, source);
      SqlRunRefines(prior, source);
      SqlRunRefines(prior, op.source);
      SqlIndexStep(SqlRun(prior), op, source);
    }
  }
}
