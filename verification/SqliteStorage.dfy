// The SQLite back end as a class over its two tables, proved against Backends.
module SqliteStorage {
  import opened Prelude
  import Fifo
  import opened Table
  import opened Backends
  import opened Equivalence
  import M = MemoryStorage

  lemma SameRows(d: SqlState, d': SqlState, source: string)
    requires d.rows == d'.rows
    ensures SqlCells(d, source) == SqlCells(d', source)
  {
  }

  // A successful push in its parts.
  lemma PushRefused(d: SqlState, s: string, id: string, data: Bytes, context: Bytes)
    requires (s, id) in d.rows
    ensures SqlApply(d, PushOp(s, id, data, context)) == (d, Err)
  {
  }

  lemma PushParts(d: SqlState, s: string, id: string, data: Bytes, context: Bytes, index: nat)
    requires index == MaxIndex(SqlCells(d, s)) + 1 && (s, id) !in d.rows
    ensures SqlApply(d, PushOp(s, id, data, context)) ==
            (SqlState(if s in d.sources then d.sources else d.sources[s := ""],
                      d.rows[(s, id) := Cell(data, context, index, false)]), Ok)
  {
  }

  class SqliteStorage {
    var sources: map<string, string>  // table sources: id -> cursor
    var rows: map<Key, Cell>          // table items: (source_id, id) -> the other columns

    ghost function State(): SqlState
      reads this
    {
      SqlState(sources, rows)
    }

    ghost predicate Valid()
      reads this
    {
      SqlValid(State())
    }

    ghost function Queue(source: string): Table.Queue
      requires Valid()
      reads this
    {
      SqlQueue(State(), source)
    }

    constructor ()
      ensures Valid() && State() == SQL_EMPTY
    {
      sources, rows := map[], map[];
      new;
      SqlRunRefines([], "");
    }

    method GetCursor(source: string) returns (cursor: Option<string>)
      ensures cursor == CursorOf(sources, source)
    {
      cursor := if source in sources then Some(sources[source]) else None;
    }

    // UPDATE, and INSERT when no row was affected.
    method UpdateCursor(source: string, cursor: string)
      requires Valid()
      modifies this`sources
      ensures Valid() && State() == SqlApply(old(State()), CursorOp(source, cursor)).0
    {
      SqlKeepsValid(State(), CursorOp(source, cursor));
      sources := sources[source := cursor];
    }

    // SELECT COALESCE(MAX(order_index), 0) + 1
    method NextIndex(source: string) returns (index: nat)
      ensures index == MaxIndex(SqlCells(State(), source)) + 1
    {
      index := MaxIndex(SqlCells(SqlState(sources, rows), source)) + 1;
    }

    // One transaction; the primary key refuses a stored id and everything is rolled back.
    method Push(source: string, id: string, data: Bytes, context: Bytes) returns (status: Status)
      requires Valid()
      modifies this
      ensures Valid() && (State(), status) == SqlApply(old(State()), PushOp(source, id, data, context))
    {
      ghost var was := State();
      var savedSources := sources;
      if source !in sources {
        sources := sources[source := ""];
      }
      var nextIndex := NextIndex(source);
      SameRows(State(), was, source);
      if (source, id) in rows {
        sources := savedSources;
        PushRefused(was, source, id, data, context);
        return Err;
      }
      rows := rows[(source, id) := Cell(data, context, nextIndex, false)];
      PushParts(was, source, id, data, context, nextIndex);
      SqlKeepsValid(was, PushOp(source, id, data, context));
      return Ok;
    }

    method Update(source: string, id: string, data: Bytes, context: Bytes) returns (status: Status)
      requires Valid()
      modifies this`rows
      ensures Valid() && (State(), status) == SqlApply(old(State()), UpdateOp(source, id, data, context))
    {
      SqlKeepsValid(State(), UpdateOp(source, id, data, context));
      if (source, id) !in rows {
        return Err;
      }
      rows := rows[(source, id) := rows[(source, id)].(data := data, context := context)];
      return Ok;
    }

    method Delete(source: string, id: string)
      requires Valid()
      modifies this`rows
      ensures Valid() && State() == SqlApply(old(State()), DeleteOp(source, id)).0
    {
      SqlKeepsValid(State(), DeleteOp(source, id));
      rows := rows - {(source, id)};
    }

    // UPDATE ... SET locked; affecting no row is not an error.
    method Lock(source: string, id: string) returns (status: Status)
      requires Valid()
      modifies this`rows
      ensures Valid() && (State(), status) == SqlApply(old(State()), LockOp(source, id))
    {
      SqlKeepsValid(State(), LockOp(source, id));
      if (source, id) in rows {
        rows := rows[(source, id) := rows[(source, id)].(locked := true)];
      }
      return Ok;
    }

    method Unlock(source: string, id: string) returns (status: Status)
      requires Valid()
      modifies this`rows
      ensures Valid() && (State(), status) == SqlApply(old(State()), UnlockOp(source, id))
    {
      SqlKeepsValid(State(), UnlockOp(source, id));
      if (source, id) in rows {
        rows := rows[(source, id) := rows[(source, id)].(locked := false)];
      }
      return Ok;
    }

    // SELECT ... WHERE source_id = ? [AND locked = ?] ORDER BY order_index LIMIT ?, and the
    // loop that appends the rows.
    method List(source: string, want: Option<bool>, limit: int) returns (r: seq<M.Item>)
      requires Valid()
      ensures r == M.ItemsOf(source, Fifo.First(M.Pick(Queue(source), want), limit))
    {
      var max := if limit <= 0 then 100 else limit;
      var chosen := M.Chosen(SqlCells(SqlState(sources, rows), source), want);
      M.ChosenQueue(SqlCells(State(), source), want);
      var selected := QueueOf(chosen);
      if |selected| > max {
        selected := selected[..max];
      }
      assert selected == Fifo.First(M.Pick(Queue(source), want), limit);
      r := Append(source, selected);
    }

    // The loop over the result set.
    static method Append(source: string, selected: Table.Queue) returns (r: seq<M.Item>)
      ensures r == M.ItemsOf(source, selected)
    {
      r := [];
      var k := 0;
      while k < |selected|
        invariant k <= |selected| && |r| == k
        invariant forall j :: 0 <= j < k ==> r[j] == M.Item(source, selected[j].id, selected[j].data, selected[j].context)
      {
        r := r + [M.Item(source, selected[k].id, selected[k].data, selected[k].context)];
        k := k + 1;
      }
    }

    method GetItems(source: string, limit: int) returns (r: seq<M.Item>)
      requires Valid()
      ensures r == M.ItemsOf(source, Items(Queue(source), limit))
    {
      r := List(source, None, limit);
    }

    method GetLocked(source: string, limit: int) returns (r: seq<M.Item>)
      requires Valid()
      ensures r == M.ItemsOf(source, ByLock(Queue(source), true, limit))
    {
      r := List(source, Some(true), limit);
    }

    method GetUnlocked(source: string, limit: int) returns (r: seq<M.Item>)
      requires Valid()
      ensures r == M.ItemsOf(source, ByLock(Queue(source), false, limit))
    {
      r := List(source, Some(false), limit);
    }

    method GetIndex(source: string) returns (index: nat)
      ensures index == SqlIndex(State(), source)
    {
      index := MaxIndex(SqlCells(SqlState(sources, rows), source));
    }
  }
}
