// The storage interface over both back ends, and UnlockAllEvents, which the producer runs
// before anything else.
module EventsStorage {
  import opened Prelude
  import Fifo
  import opened Table
  import opened Backends
  import opened Equivalence
  import M = MemoryStorage
  import S = SqliteStorage

  // The contents of a storage, as a value.
  datatype Model = OfMemory(m: MemState) | OfSqlite(d: SqlState)

  ghost predicate ModelValid(v: Model) {
    match v
    case OfMemory(m) => MemValid(m)
    case OfSqlite(d) => SqlValid(d)
  }

  ghost function QueueIn(v: Model, source: string): Table.Queue
    requires ModelValid(v)
  {
    match v
    case OfMemory(m) => MemQueue(m, source)
    case OfSqlite(d) => SqlQueue(d, source)
  }

  ghost function ModelApply(v: Model, op: Op): (Model, Status) {
    match v
    case OfMemory(m) => (OfMemory(MemApply(m, op).0), MemApply(m, op).1)
    case OfSqlite(d) => (OfSqlite(SqlApply(d, op).0), SqlApply(d, op).1)
  }

  // Unlocking acts on the queue, whichever back end holds it, and leaves other sources alone.
  lemma UnlockRefines(v: Model, source: string, id: string)
    requires ModelValid(v)
    ensures var op := UnlockOp(source, id);
            && ModelValid(ModelApply(v, op).0)
            && QueueIn(ModelApply(v, op).0, source) == Fifo.SetLock(QueueIn(v, source), id, false)
            && (forall s :: s != source ==> QueueIn(ModelApply(v, op).0, s) == QueueIn(v, s))
            && (Fifo.Has(QueueIn(v, source), id) ==> ModelApply(v, op).1 == Ok)
  {
    var op := UnlockOp(source, id);
    match v
    case OfMemory(m) =>
      MemRefines(m, op, source);
      MemStatus(m, op);
      forall s | s != source ensures MemQueue(MemApply(m, op).0, s) == MemQueue(m, s) {
        MemRefines(m, op, s);
      }
    case OfSqlite(d) =>
      SqlRefines(d, op, source);
      SqlStatus(d, op);
      forall s | s != source ensures SqlQueue(SqlApply(d, op).0, s) == SqlQueue(d, s) {
        SqlRefines(d, op, s);
      }
  }

  lemma QueuesUnique(v: Model, source: string)
    requires ModelValid(v)
    ensures Fifo.UniqueIds(QueueIn(v, source))
  {
    match v
    case OfMemory(m) => QueueUnique(MemCells(m, source));
    case OfSqlite(d) => QueueUnique(SqlCells(d, source));
  }

  // The interface value: one of the two implementations.  A statement of an unreliable
  // database may fail; it changes nothing then.
  datatype Storage = Memory(mem: M.MemoryStorage) | Sqlite(db: S.SqliteStorage, reliable: bool) {

    predicate NeverFails() {
      this.Memory? || reliable
    }

    ghost function Footprint(): set<object>
      reads match this case Memory(m) => {m} case Sqlite(_, _) => {}
    {
      match this
      case Memory(m) => {m} + m.repr
      case Sqlite(d, _) => {d}
    }

    ghost function Contents(): Model
      reads match this case Memory(m) => {m as object} case Sqlite(d, _) => {d}
    {
      match this
      case Memory(m) => OfMemory(m.state)
      case Sqlite(d, _) => OfSqlite(d.State())
    }

    ghost predicate Valid()
      reads Footprint(), match this case Memory(m) => {m} case Sqlite(_, _) => {}
    {
      ModelValid(Contents()) && (this.Memory? ==> mem.Valid())
    }

    method GetLocked(source: string, limit: int) returns (status: Status, r: seq<M.Item>)
      requires Valid()
      ensures status == Ok ==> r == M.ItemsOf(source, ByLock(QueueIn(Contents(), source), true, limit))
      ensures NeverFails() ==> status == Ok
    {
      match this
      case Memory(m) =>
        r := m.GetLocked(source, limit);
        status := Ok;
      case Sqlite(d, works) =>
        r := d.GetLocked(source, limit);
        var fails: bool := *;
        status := if works || !fails then Ok else Err;
    }

    method Unlock(source: string, id: string) returns (status: Status)
      requires Valid()
      modifies Footprint()
      ensures (Contents(), status) == ModelApply(old(Contents()), UnlockOp(source, id)) ||
              (!NeverFails() && status == Err && Contents() == old(Contents()))
      ensures Valid() && Footprint() == old(Footprint())
    {
      UnlockRefines(Contents(), source, id);
      match this
      case Memory(m) => status := m.Unlock(source, id);
      case Sqlite(d, works) =>
        var fails: bool := *;
        if !works && fails {
          return Err;
        }
        status := d.Unlock(source, id);
    }
  }

  // What the loop keeps: ids listed from k on are locked, distinct entries of the queue.
  ghost predicate StillLocked(q: Table.Queue, items: seq<M.Item>, k: nat) {
    && (forall i :: k <= i < |items| ==> Fifo.Has(q, items[i].id) && Fifo.Find(q, items[i].id).value.locked)
    && (forall i, j :: k <= i < j < |items| ==> items[i].id != items[j].id)
  }

  lemma ListedAreLocked(source: string, q: Table.Queue, limit: int)
    requires Fifo.UniqueIds(q)
    ensures StillLocked(q, M.ItemsOf(source, ByLock(q, true, limit)), 0)
  {
    var all := Fifo.Select(q, true);
    Fifo.UniqueSelect(q, true);
    forall i | 0 <= i < |all| ensures Fifo.Find(q, all[i].id) == Some(all[i]) && all[i].locked {
      assert all[i] in all;
      var j :| 0 <= j < |q| && q[j] == all[i];
      Fifo.UniqueFind(q, j);
    }
  }

  // From `was` to `v` only lock bits of the source were taken away, `count` of them.
  ghost predicate Released(was: Model, v: Model, source: string, count: nat)
    requires ModelValid(was) && ModelValid(v)
  {
    && Fifo.AllUnlocked(QueueIn(v, source)) == Fifo.AllUnlocked(QueueIn(was, source))
    && |Fifo.Select(QueueIn(v, source), true)| == |Fifo.Select(QueueIn(was, source), true)| - count
    && forall s :: s != source ==> QueueIn(v, s) == QueueIn(was, s)
  }

  lemma ReleaseOne(was: Model, v: Model, source: string, items: seq<M.Item>, k: nat)
    requires ModelValid(was) && ModelValid(v) && Released(was, v, source, k)
    requires k < |items| && StillLocked(QueueIn(v, source), items, k)
    ensures var r := ModelApply(v, UnlockOp(source, items[k].id));
            && r.1 == Ok && ModelValid(r.0) && Released(was, r.0, source, k + 1)
            && StillLocked(QueueIn(r.0, source), items, k + 1)
  {
    var q, id := QueueIn(v, source), items[k].id;
    QueuesUnique(v, source);
    UnlockRefines(v, source, id);
    ReleaseQueue(q, items, k);
  }

  lemma ReleaseQueue(q: Table.Queue, items: seq<M.Item>, k: nat)
    requires Fifo.UniqueIds(q) && k < |items| && StillLocked(q, items, k)
    ensures var r := Fifo.SetLock(q, items[k].id, false);
            && StillLocked(r, items, k + 1)
            && |Fifo.Select(r, true)| == |Fifo.Select(q, true)| - 1
            && Fifo.AllUnlocked(r) == Fifo.AllUnlocked(q)
  {
    Fifo.UnlockShrinks(q, items[k].id);
    Fifo.UnlockKeepsRest(q, items[k].id);
  }

  // The inner loop: unlocks the items of one listing, up to the first error.
  method UnlockListed(st: Storage, source: string, items: seq<M.Item>) returns (status: Status, ghost count: nat)
    requires st.Valid() && StillLocked(QueueIn(st.Contents(), source), items, 0)
    modifies st.Footprint()
    ensures st.Valid() && st.Footprint() == old(st.Footprint())
    ensures Released(old(st.Contents()), st.Contents(), source, count)
    ensures (status == Ok ==> count == |items|) && (st.NeverFails() ==> status == Ok)
  {
    ghost var was := st.Contents();
    status := Ok;
    var k := 0;
    while k < |items|
      invariant 0 <= k <= |items| && status == Ok
      invariant st.Valid() && st.Footprint() == old(st.Footprint())
      invariant StillLocked(QueueIn(st.Contents(), source), items, k)
      invariant Released(was, st.Contents(), source, k)
    {
      ReleaseOne(was, st.Contents(), source, items, k);
      status := st.Unlock(source, items[k].id);
      if status == Err {
        return status, k;
      }
      k := k + 1;
    }
    return status, k;
  }

  lemma ReleasedMore(a: Model, b: Model, c: Model, source: string, m: nat, n: nat)
    requires ModelValid(a) && ModelValid(b) && ModelValid(c)
    requires Released(a, b, source, m) && Released(b, c, source, n)
    ensures Released(a, c, source, m + n)
  {
    assert forall s :: s != source ==> QueueIn(c, s) == QueueIn(b, s) == QueueIn(a, s);
  }

  lemma Finished(was: Model, v: Model, source: string, count: nat)
    requires ModelValid(was) && ModelValid(v) && Released(was, v, source, count)
    requires M.ItemsOf(source, ByLock(QueueIn(v, source), true, 0)) == []
    ensures QueueIn(v, source) == Fifo.AllUnlocked(QueueIn(was, source)) && Fifo.Select(QueueIn(v, source), true) == []
    ensures forall s :: s != source ==> QueueIn(v, s) == QueueIn(was, s)
  {
    Fifo.AllOff(QueueIn(v, source));
  }

  // One listing, and its items unlocked.
  method UnlockSome(st: Storage, source: string) returns (status: Status, empty: bool, ghost count: nat)
    requires st.Valid()
    modifies st.Footprint()
    ensures st.Valid() && st.Footprint() == old(st.Footprint())
    ensures Released(old(st.Contents()), st.Contents(), source, count)
    ensures (status == Ok ==> (empty <==> count == 0)) && (st.NeverFails() ==> status == Ok)
    ensures status == Ok && empty ==> M.ItemsOf(source, ByLock(QueueIn(st.Contents(), source), true, 0)) == []
  {
    var lockedItems;
    status, lockedItems := st.GetLocked(source, 0);
    empty, count := false, 0;
    if status == Err {
      return;
    }
    QueuesUnique(st.Contents(), source);
    ListedAreLocked(source, QueueIn(st.Contents(), source), 0);
    if |lockedItems| == 0 {
      empty := true;
      return;
    }
    status, count := UnlockListed(st, source, lockedItems);
  }

  // Unlocks every event of the source in listings of at most 100.  It ends; whatever fails,
  // it leaves every entry where and as it was but for lock bits taken away, and other sources
  // untouched; without an error no entry is locked; and there is none if no call fails.
  method UnlockAllEvents(st: Storage, source: string) returns (status: Status)
    requires st.Valid()
    modifies st.Footprint()
    ensures st.Valid() && (st.NeverFails() ==> status == Ok)
    ensures Fifo.AllUnlocked(QueueIn(st.Contents(), source)) == Fifo.AllUnlocked(QueueIn(old(st.Contents()), source))
    ensures status == Ok ==> QueueIn(st.Contents(), source) == Fifo.AllUnlocked(QueueIn(old(st.Contents()), source))
    ensures status == Ok ==> Fifo.Select(QueueIn(st.Contents(), source), true) == []
    ensures forall s :: s != source ==> QueueIn(st.Contents(), s) == QueueIn(old(st.Contents()), s)
  {
    ghost var was, total := st.Contents(), 0;
    var empty := false;
    status := Ok;
    while !empty
      invariant st.Valid() && st.Footprint() == old(st.Footprint()) && status == Ok
      invariant 0 <= total && Released(was, st.Contents(), source, total)
      invariant empty ==> M.ItemsOf(source, ByLock(QueueIn(st.Contents(), source), true, 0)) == []
      decreases |Fifo.Select(QueueIn(was, source), true)| - total + if empty then 0 else 1
    {
      ghost var mid, count := st.Contents(), 0;
      status, empty, count := UnlockSome(st, source);
      ReleasedMore(was, mid, st.Contents(), source, total, count);
      total := total + count;
      if status == Err {
        return;
      }
    }
    Finished(was, st.Contents(), source, total);
  }
}
