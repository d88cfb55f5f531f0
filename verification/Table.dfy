// The items of one source, keyed by id and carrying the order index they were pushed
// with, and the queue they stand for.  Both back ends keep such a table per source.
module Table {
  import opened Prelude
  import Fifo

  type Bytes = seq<bv8>

  datatype Cell = Cell(data: Bytes, context: Bytes, index: nat, locked: bool)

  type Cells = map<string, Cell>

  type Queue = Fifo.Queue<Bytes, Bytes>

  // No two items share an order index.
  ghost predicate Distinct(t: Cells) {
    forall i, j :: i in t && j in t && i != j ==> t[i].index != t[j].index
  }

  ghost predicate Below(t: Cells, bound: nat) {
    forall i :: i in t ==> 0 < t[i].index < bound
  }

  // The item that was pushed before every other one.
  ghost predicate Oldest(t: Cells, id: string) {
    id in t && forall j :: j in t && j != id ==> t[id].index < t[j].index
  }

  lemma {:induction false} OldestExists(t: Cells)
    requires Distinct(t) && t != map[]
    ensures exists id :: Oldest(t, id)
    decreases |t|
  {
    var x :| x in t;
    var rest := t - {x};
    forall j | j in t ensures j == x || j in rest {
    }
    if rest == map[] {
      assert Oldest(t, x);
    } else {
      OldestExists(rest);
      var y :| Oldest(rest, y);
      assert Oldest(t, if t[x].index < t[y].index then x else y);
    }
  }

  function EntryOf(t: Cells, id: string): Fifo.Entry<Bytes, Bytes>
    requires id in t
  {
    Fifo.Entry(id, t[id].data, t[id].context, t[id].locked)
  }

  function OldestOf(t: Cells): (id: string)
    requires Distinct(t) && t != map[]
    ensures Oldest(t, id)
  {
    OldestExists(t);
    var id :| id in t && forall j | j in t :: j == id || t[id].index < t[j].index;
    id
  }

  // The queue a table stands for: its items by increasing order index.
  function QueueOf(t: Cells): Queue
    requires Distinct(t)
    decreases |t|
  {
    if t == map[] then []
    else
      var x := OldestOf(t);
      [EntryOf(t, x)] + QueueOf(t - {x})
  }

  lemma HeadIs(t: Cells, x: string)
    requires Distinct(t) && Oldest(t, x)
    ensures OldestOf(t) == x
  {
  }

  // A queue holds exactly the items of its table.
  lemma {:induction false} QueueFind(t: Cells, id: string)
    requires Distinct(t)
    ensures Fifo.Find(QueueOf(t), id) == if id in t then Some(EntryOf(t, id)) else None
    decreases |t|
  {
    if t != map[] {
      var x := OldestOf(t);
      QueueFind(t - {x}, id);
    }
  }

  lemma {:induction false} QueueUnique(t: Cells)
    requires Distinct(t)
    ensures Fifo.UniqueIds(QueueOf(t))
    decreases |t|
  {
    if t != map[] {
      var x := OldestOf(t);
      QueueFind(t - {x}, x);
      QueueUnique(t - {x});
      Fifo.UniqueCons(EntryOf(t, x), QueueOf(t - {x}));
    }
  }

  // A queue in strictly increasing order index.
  ghost predicate Ascending(t: Cells, q: Queue) {
    && (forall i :: 0 <= i < |q| ==> q[i].id in t)
    && (forall i, j :: 0 <= i < j < |q| ==> t[q[i].id].index < t[q[j].id].index)
  }

  lemma AscendingCons(t: Cells, x: string, q: Queue)
    requires Oldest(t, x) && Ascending(t - {x}, q)
    ensures Ascending(t, [EntryOf(t, x)] + q)
  {
  }

  lemma {:induction false} QueueAscending(t: Cells)
    requires Distinct(t)
    ensures Ascending(t, QueueOf(t))
    decreases |t|
  {
    if t != map[] {
      var x := OldestOf(t);
      QueueAscending(t - {x});
      AscendingCons(t, x, QueueOf(t - {x}));
    }
  }

  lemma QueueHead(t: Cells)
    requires Distinct(t) && t != map[]
    ensures QueueOf(t) == [EntryOf(t, OldestOf(t))] + QueueOf(t - {OldestOf(t)})
  {
  }

  // ---- what changing a table does to its queue

  // The tables have the same items in the same order.
  ghost predicate SameRanks(t: Cells, t': Cells) {
    t.Keys == t'.Keys && forall i :: i in t ==> t'[i].index == t[i].index
  }

  lemma SameRanksHead(t: Cells, t': Cells)
    requires Distinct(t) && SameRanks(t, t')
    ensures Distinct(t')
    ensures t != map[] ==> t' != map[] && OldestOf(t') == OldestOf(t)
  {
    forall i, j | i in t' && j in t' && i != j ensures t'[i].index != t'[j].index {
      assert i in t && j in t;
    }
    if t != map[] {
      var x := OldestOf(t);
      assert x in t.Keys;
      forall j | j in t' && j != x ensures t'[x].index < t'[j].index {
        assert j in t;
      }
      HeadIs(t', x);
    }
  }

  lemma Inserted(t: Cells, id: string, c: Cell)
    requires Distinct(t) && id !in t && (forall j :: j in t ==> t[j].index < c.index)
    ensures Distinct(t[id := c])
    ensures t[id := c] != map[] && OldestOf(t[id := c]) == if t == map[] then id else OldestOf(t)
  {
    var t' := t[id := c];
    forall i, j | i in t' && j in t' && i != j ensures t'[i].index != t'[j].index {
      assert i == id || i in t;
      assert j == id || j in t;
    }
    assert id in t';
    HeadIs(t', if t == map[] then id else OldestOf(t));
  }

  lemma InsertRest(t: Cells, id: string, c: Cell, x: string)
    requires x in t && x != id
    ensures t[id := c] - {x} == (t - {x})[id := c]
  {
  }

  // A new item with the highest index is a push.
  lemma {:induction false} InsertIsPush(t: Cells, id: string, c: Cell)
    requires Distinct(t) && id !in t && !c.locked && (forall j :: j in t ==> t[j].index < c.index)
    ensures Distinct(t[id := c]) && QueueOf(t[id := c]) == Fifo.Push(QueueOf(t), id, c.data, c.context)
    decreases |t|
  {
    Inserted(t, id, c);
    if t == map[] {
      assert t[id := c] - {id} == map[];
    } else {
      var x := OldestOf(t);
      InsertRest(t, id, c, x);
      InsertIsPush(t - {x}, id, c);
    }
  }

  function Updated(t: Cells, id: string, data: Bytes, context: Bytes): Cells {
    if id in t then t[id := t[id].(data := data, context := context)] else t
  }

  lemma UpdatedRest(t: Cells, id: string, data: Bytes, context: Bytes, x: string)
    requires x in t
    ensures Updated(t, id, data, context) - {x} == Updated(t - {x}, id, data, context)
  {
  }

  lemma UpdatedHead(t: Cells, id: string, data: Bytes, context: Bytes)
    requires Distinct(t) && t != map[]
    ensures var e, t' := EntryOf(t, OldestOf(t)), Updated(t, id, data, context);
            Distinct(t') &&
            QueueOf(t') == [if e.id == id then e.(data := data, context := context) else e] +
                           QueueOf(Updated(t - {OldestOf(t)}, id, data, context))
  {
    SameRanksHead(t, Updated(t, id, data, context));
    UpdatedRest(t, id, data, context, OldestOf(t));
    QueueHead(Updated(t, id, data, context));
  }

  lemma {:induction false} UpdatedQueue(t: Cells, id: string, data: Bytes, context: Bytes)
    requires Distinct(t)
    ensures Distinct(Updated(t, id, data, context))
    ensures QueueOf(Updated(t, id, data, context)) == Fifo.Update(QueueOf(t), id, data, context)
    decreases |t|
  {
    if t != map[] {
      var x := OldestOf(t);
      UpdatedHead(t, id, data, context);
      UpdatedQueue(t - {x}, id, data, context);
      QueueHead(t);
      Fifo.UpdateCons(EntryOf(t, x), QueueOf(t - {x}), id, data, context);
    }
  }

  function WithLock(t: Cells, id: string, locked: bool): Cells {
    if id in t then t[id := t[id].(locked := locked)] else t
  }

  lemma WithLockRest(t: Cells, id: string, locked: bool, x: string)
    requires x in t
    ensures WithLock(t, id, locked) - {x} == WithLock(t - {x}, id, locked)
  {
  }

  lemma WithLockHead(t: Cells, id: string, locked: bool)
    requires Distinct(t) && t != map[]
    ensures var e, t' := EntryOf(t, OldestOf(t)), WithLock(t, id, locked);
            Distinct(t') &&
            QueueOf(t') == [if e.id == id then e.(locked := locked) else e] + QueueOf(WithLock(t - {OldestOf(t)}, id, locked))
  {
    SameRanksHead(t, WithLock(t, id, locked));
    WithLockRest(t, id, locked, OldestOf(t));
    QueueHead(WithLock(t, id, locked));
  }

  lemma {:induction false} WithLockQueue(t: Cells, id: string, locked: bool)
    requires Distinct(t)
    ensures Distinct(WithLock(t, id, locked))
    ensures QueueOf(WithLock(t, id, locked)) == Fifo.SetLock(QueueOf(t), id, locked)
    decreases |t|
  {
    if t != map[] {
      var x := OldestOf(t);
      WithLockHead(t, id, locked);
      WithLockQueue(t - {x}, id, locked);
      QueueHead(t);
      Fifo.SetLockCons(EntryOf(t, x), QueueOf(t - {x}), id, locked);
    }
  }

  lemma Removed(t: Cells, id: string)
    requires Distinct(t)
    ensures Distinct(t - {id})
    ensures t != map[] && OldestOf(t) != id ==> t - {id} != map[] && OldestOf(t - {id}) == OldestOf(t)
  {
    if t != map[] && OldestOf(t) != id {
      assert OldestOf(t) in t - {id};
      HeadIs(t - {id}, OldestOf(t));
    }
  }

  lemma RemoveRest(t: Cells, id: string, x: string)
    ensures t - {x} - {id} == t - {id} - {x}
    ensures x == id ==> t - {x} - {id} == t - {id}
    ensures id !in t ==> t - {id} == t
  {
  }

  lemma {:induction false} RemoveIsDelete(t: Cells, id: string)
    requires Distinct(t)
    ensures Distinct(t - {id}) && QueueOf(t - {id}) == Fifo.Delete(QueueOf(t), id)
    decreases |t|
  {
    Removed(t, id);
    if t == map[] {
      RemoveRest(t, id, id);
    } else {
      var x := OldestOf(t);
      RemoveRest(t, id, x);
      RemoveIsDelete(t - {x}, id);
    }
  }

  // A push over a stored item: the old one goes, the new one is last and unlocked.
  lemma OverwriteIsDeletePush(t: Cells, id: string, c: Cell)
    requires Distinct(t) && !c.locked && (forall j :: j in t ==> t[j].index < c.index)
    ensures Distinct(t[id := c]) && QueueOf(t[id := c]) == Fifo.Push(Fifo.Delete(QueueOf(t), id), id, c.data, c.context)
  {
    var rest := t - {id};
    assert rest[id := c] == t[id := c];
    RemoveIsDelete(t, id);
    InsertIsPush(rest, id, c);
  }
}
