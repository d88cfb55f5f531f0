// The in-memory back end as a class over shared item objects, proved against Backends.
module MemoryStorage {
  import opened Prelude
  import Fifo
  import opened Table
  import opened Backends
  import opened Equivalence

  // What a listing hands out: a copy that shares nothing with the store.
  datatype Item = Item(sourceId: string, id: string, data: Bytes, context: Bytes)

  function ItemsOf(source: string, q: Queue): (r: seq<Item>)
    ensures |r| == |q|
  {
    seq(|q|, i requires 0 <= i < |q| => Item(source, q[i].id, q[i].data, q[i].context))
  }

  // Each listed item shows id, data and context of its entry.
  lemma ItemsAre(source: string, q: Queue, i: nat)
    requires i < |q|
    ensures var item := ItemsOf(source, q)[i];
            item.sourceId == source && item.id == q[i].id && item.data == q[i].data && item.context == q[i].context
  {
  }

  class MemoryItem {
    const sourceId: string
    const id: string
    var data: Bytes
    var context: Bytes
    const orderIndex: nat
    var locked: bool

    constructor (sourceId: string, id: string, data: Bytes, context: Bytes, orderIndex: nat)
      ensures this.sourceId == sourceId && this.id == id && this.data == data && this.context == context
      ensures this.orderIndex == orderIndex && !this.locked
    {
      this.sourceId, this.id, this.data, this.context := sourceId, id, data, context;
      this.orderIndex, this.locked := orderIndex, false;
    }

    function AsCell(): Cell
      reads this
    {
      Cell(data, context, orderIndex, locked)
    }
  }

  // ---- listing

  // The items a listing is about: all, or those with one lock bit.
  function Chosen(t: Cells, want: Option<bool>): Cells {
    map id | id in t && (want.None? || t[id].locked == want.value) :: t[id]
  }

  function Pick(q: Queue, want: Option<bool>): Queue {
    if want.None? then q else Fifo.Select(q, want.value)
  }

  lemma ChosenHead(t: Cells, want: Option<bool>)
    requires Distinct(t) && t != map[]
    ensures var x := OldestOf(t);
            && Distinct(Chosen(t, want))
            && Chosen(t - {x}, want) == Chosen(t, want) - {x}
            && (x in Chosen(t, want) ==> OldestOf(Chosen(t, want)) == x)
            && (x !in Chosen(t, want) ==> Chosen(t, want) - {x} == Chosen(t, want))
  {
    var x := OldestOf(t);
    if x in Chosen(t, want) {
      HeadIs(Chosen(t, want), x);
    }
  }

  lemma {:induction false} ChosenQueue(t: Cells, want: Option<bool>)
    requires Distinct(t)
    ensures Distinct(Chosen(t, want)) && QueueOf(Chosen(t, want)) == Pick(QueueOf(t), want)
    decreases |t|
  {
    if t != map[] {
      ChosenHead(t, want);
      ChosenQueue(t - {OldestOf(t)}, want);
    }
  }

  predicate Sorted(s: seq<MemoryItem>) {
    s == [] || ((forall y :: y in s[1..] ==> s[0].orderIndex <= y.orderIndex) && Sorted(s[1..]))
  }

  // No id occurs twice.
  predicate NoRepeat(s: seq<MemoryItem>) {
    s == [] || ((forall y :: y in s[1..] ==> s[0].id != y.id) && NoRepeat(s[1..]))
  }

  function Insert(x: MemoryItem, s: seq<MemoryItem>): (r: seq<MemoryItem>)
    requires Sorted(s)
    ensures Sorted(r)
    ensures x in r && (forall y :: y in s ==> y in r) && (forall y :: y in r ==> y in [x] + s)
    ensures NoRepeat(s) && (forall y :: y in s ==> y.id != x.id) ==> NoRepeat(r)
  {
    if s == [] || x.orderIndex <= s[0].orderIndex then [x] + s
    else [s[0]] + Insert(x, s[1..])
  }

  // sort.Slice by order index
  function SortByIndex(s: seq<MemoryItem>): (r: seq<MemoryItem>)
    ensures Sorted(r)
    ensures (forall y :: y in s ==> y in r) && (forall y :: y in r ==> y in s)
    ensures NoRepeat(s) ==> NoRepeat(r)
  {
    if s == [] then [] else Insert(s[0], SortByIndex(s[1..]))
  }

  predicate Listed(s: seq<MemoryItem>, id: string) {
    exists y :: y in s && y.id == id
  }

  // The list holds each item of the table once.
  ghost predicate Covers(t: Cells, s: seq<MemoryItem>)
    reads s
  {
    && NoRepeat(s)
    && (forall y :: y in s ==> y.id in t && y.AsCell() == t[y.id])
    && (forall id :: id in t ==> Listed(s, id))
  }

  lemma CoversSorted(t: Cells, s: seq<MemoryItem>)
    requires Covers(t, s)
    ensures Covers(t, SortByIndex(s))
  {
    var r := SortByIndex(s);
    forall id | id in t ensures Listed(r, id) {
      assert Listed(s, id);
      var y :| y in s && y.id == id;
      assert y in r;
    }
  }

  lemma CoversTail(t: Cells, s: seq<MemoryItem>)
    requires Distinct(t) && Covers(t, s) && Sorted(s) && s != []
    ensures Oldest(t, s[0].id) && Covers(t - {s[0].id}, s[1..])
  {
    var x := s[0].id;
    forall j | j in t && j != x ensures t[x].index < t[j].index && Listed(s[1..], j) {
      assert Listed(s, j);
      var y :| y in s && y.id == j;
      assert y in s[1..];
    }
  }

  function Views(source: string, s: seq<MemoryItem>): (r: seq<Item>)
    reads s
    ensures |r| == |s|
  {
    if s == [] then [] else [Item(source, s[0].id, s[0].data, s[0].context)] + Views(source, s[1..])
  }

  // A sorted list of the table's items shows the queue.
  lemma {:induction false} SortedShowsQueue(source: string, t: Cells, s: seq<MemoryItem>)
    requires Distinct(t) && Covers(t, s) && Sorted(s)
    ensures Views(source, s) == ItemsOf(source, QueueOf(t))
    decreases |s|
  {
    if s == [] {
      assert forall id :: id in t ==> Listed(s, id);
      assert t == map[];
    } else {
      CoversTail(t, s);
      HeadIs(t, s[0].id);
      SortedShowsQueue(source, t - {s[0].id}, s[1..]);
      ItemsCons(source, EntryOf(t, s[0].id), QueueOf(t - {s[0].id}));
    }
  }

  lemma ItemsCons(source: string, e: Fifo.Entry<Bytes, Bytes>, q: Queue)
    ensures ItemsOf(source, [e] + q) == [Item(source, e.id, e.data, e.context)] + ItemsOf(source, q)
  {
  }

  lemma {:induction false} ViewsTake(source: string, s: seq<MemoryItem>, n: nat)
    requires n <= |s|
    ensures Views(source, s[..n]) == Views(source, s)[..n]
  {
    if n > 0 {
      ViewsTake(source, s[1..], n - 1);
      assert s[..n][1..] == s[1..][..n - 1];
    }
  }

  lemma {:induction false} ViewsSnoc(source: string, s: seq<MemoryItem>, y: MemoryItem)
    ensures Views(source, s + [y]) == Views(source, s) + [Item(source, y.id, y.data, y.context)]
  {
    if s != [] {
      ViewsSnoc(source, s[1..], y);
      assert (s + [y])[1..] == s[1..] + [y];
    } else {
      assert s + [y] == [y];
    }
  }

  lemma ItemsTake(source: string, q: Queue, n: nat)
    requires n <= |q|
    ensures ItemsOf(source, q[..n]) == ItemsOf(source, q)[..n]
  {
  }

  // Collected, sorted and cut, the items show the listing.
  lemma SortedCut(source: string, t: Cells, want: Option<bool>, found: seq<MemoryItem>, limit: int)
    requires Distinct(t) && Covers(Chosen(t, want), found)
    ensures var r, max := SortByIndex(found), Fifo.Limit(limit);
            Views(source, if |r| > max then r[..max] else r) == ItemsOf(source, Fifo.First(Pick(QueueOf(t), want), limit))
  {
    var r, max, q := SortByIndex(found), Fifo.Limit(limit), Pick(QueueOf(t), want);
    ChosenQueue(t, want);
    CoversSorted(Chosen(t, want), found);
    SortedShowsQueue(source, Chosen(t, want), r);
    assert |r| == |q|;
    if |r| > max {
      ViewsTake(source, r, max);
      ItemsTake(source, q, max);
    }
  }

  // The part of a table met so far by a walk over its keys.
  function Met(t: Cells, rest: set<string>): Cells {
    map id | id in t && id !in rest :: t[id]
  }

  lemma MetSame(t: Cells, rest: set<string>, i: string)
    requires i !in t
    ensures Met(t, rest - {i}) == Met(t, rest)
  {
  }

  lemma CoversMore(t: Cells, rest: set<string>, i: string, s: seq<MemoryItem>, y: MemoryItem)
    requires i in rest && i in t && y.id == i && y.AsCell() == t[i]
    requires Covers(Met(t, rest), s)
    ensures Covers(Met(t, rest - {i}), s + [y])
  {
    var t' := Met(t, rest - {i});
    NoRepeatSnoc(s, y);
    forall id | id in t' ensures Listed(s + [y], id) {
      if id == i {
        assert y in s + [y];
      } else {
        assert id in Met(t, rest) && Listed(s, id);
        var z :| z in s && z.id == id;
        assert z in s + [y];
      }
    }
  }

  lemma {:induction false} NoRepeatSnoc(s: seq<MemoryItem>, y: MemoryItem)
    requires NoRepeat(s) && forall z :: z in s ==> z.id != y.id
    ensures NoRepeat(s + [y])
  {
    if s != [] {
      NoRepeatSnoc(s[1..], y);
      assert (s + [y])[1..] == s[1..] + [y];
    }
  }

  // A push in its parts: the source, the index, the item.
  lemma PushParts(m: MemState, s: string, id: string, data: Bytes, context: Bytes)
    requires s in WithSource(m, s).nextIndex
    ensures var w := WithSource(m, s);
            var n := w.nextIndex[s];
            var numbered := w.(nextIndex := w.nextIndex[s := n + 1]);
            MemApply(m, PushOp(s, id, data, context)).0
            == numbered.(tables := numbered.tables[s := numbered.tables[s][id := Cell(data, context, n, false)]])
  {
  }

  function WithCell(m: MemState, s: string, id: string, c: Cell): MemState
    requires s in m.tables
  {
    m.(tables := m.tables[s := m.tables[s][id := c]])
  }

  // The operations on an item that is there, and on one that is not.
  lemma ChangeParts(m: MemState, s: string, id: string, data: Bytes, context: Bytes)
    requires s in m.tables && id in m.tables[s]
    ensures var c := m.tables[s][id];
            MemApply(m, UpdateOp(s, id, data, context)) == (WithCell(m, s, id, c.(data := data, context := context)), Ok) &&
            MemApply(m, LockOp(s, id)) == (WithCell(m, s, id, c.(locked := true)), Ok) &&
            MemApply(m, UnlockOp(s, id)) == (WithCell(m, s, id, c.(locked := false)), Ok)
  {
  }

  lemma NothingThere(m: MemState, s: string, id: string, data: Bytes, context: Bytes)
    requires s !in m.tables || id !in m.tables[s]
    ensures MemApply(m, UpdateOp(s, id, data, context)) == MemApply(m, LockOp(s, id)) == MemApply(m, UnlockOp(s, id)) == (m, Err)
  {
  }

  type ItemMap = map<string, MemoryItem>

  // The objects are the items of source s, and `cells`, what they hold, is its table.
  ghost predicate Mirrors(s: string, objects: ItemMap, t: Cells, cells: map<MemoryItem, Cell>) {
    objects.Keys == t.Keys &&
    forall i :: i in objects ==>
      objects[i] in cells && objects[i].sourceId == s && objects[i].id == i && cells[objects[i]] == t[i]
  }

  ghost predicate AllMirror(items: map<string, ItemMap>, tables: map<string, Cells>, cells: map<MemoryItem, Cell>) {
    items.Keys == tables.Keys && forall s :: s in items ==> Mirrors(s, items[s], tables[s], cells)
  }

  // One item holds something else.
  lemma CellChanged(items: map<string, ItemMap>, tables: map<string, Cells>, cells: map<MemoryItem, Cell>,
                    source: string, id: string, item: MemoryItem, c: Cell)
    requires AllMirror(items, tables, cells) && source in items && id in items[source] && items[source][id] == item
    ensures AllMirror(items, tables[source := tables[source][id := c]], cells[item := c])
  {
    forall s | s in items ensures Mirrors(s, items[s], tables[source := tables[source][id := c]][s], cells[item := c]) {
      assert Mirrors(s, items[s], tables[s], cells);
      assert Mirrors(source, items[source], tables[source], cells);
    }
  }

  // A new item object comes under a key.
  lemma CellAdded(items: map<string, ItemMap>, tables: map<string, Cells>, cells: map<MemoryItem, Cell>, item: MemoryItem, c: Cell)
    requires AllMirror(items, tables, cells) && item.sourceId in items && item !in cells
    ensures var s := item.sourceId;
            AllMirror(items[s := items[s][item.id := item]], tables[s := tables[s][item.id := c]], cells[item := c])
  {
    var source := item.sourceId;
    var items', tables' := items[source := items[source][item.id := item]], tables[source := tables[source][item.id := c]];
    forall s | s in items' ensures Mirrors(s, items'[s], tables'[s], cells[item := c]) {
      assert Mirrors(s, items[s], tables[s], cells);
    }
  }

  lemma CellRemoved(items: map<string, ItemMap>, tables: map<string, Cells>, cells: map<MemoryItem, Cell>, source: string, id: string)
    requires AllMirror(items, tables, cells) && source in items
    ensures AllMirror(items[source := items[source] - {id}], tables[source := tables[source] - {id}], cells)
  {
    var items', tables' := items[source := items[source] - {id}], tables[source := tables[source] - {id}];
    forall s | s in items' ensures Mirrors(s, items'[s], tables'[s], cells) {
      assert Mirrors(s, items[s], tables[s], cells);
    }
  }

  lemma TableAdded(items: map<string, ItemMap>, tables: map<string, Cells>, cells: map<MemoryItem, Cell>, source: string)
    requires AllMirror(items, tables, cells) && source !in items
    ensures AllMirror(items[source := map[]], tables[source := map[]], cells)
  {
    var items', tables' := items[source := map[]], tables[source := map[]];
    forall s | s in items' ensures Mirrors(s, items'[s], tables'[s], cells) {
      assert s != source ==> Mirrors(s, items[s], tables[s], cells);
    }
  }

  class MemoryStorage {
    var items: map<string, ItemMap>
    var cursors: map<string, string>
    var nextIndex: map<string, nat>

    ghost var state: MemState        // what the three maps and the items amount to
    ghost var repr: set<MemoryItem>  // the item objects of this store
    ghost var cells: map<MemoryItem, Cell>  // what they hold

    // `cells` is what the objects hold.
    ghost predicate Linked()
      reads this, repr
    {
      repr == cells.Keys && forall o :: o in repr ==> o.AsCell() == cells[o]
    }

    // The maps amount to the state.
    ghost predicate Shaped()
      reads this
    {
      items.Keys == nextIndex.Keys && cursors == state.cursors && nextIndex == state.nextIndex &&
      AllMirror(items, state.tables, cells)
    }

    ghost predicate Valid()
      reads this, repr
    {
      Linked() && Shaped()
    }

    ghost function Queue(source: string): Table.Queue
      requires MemValid(state)
      reads this
    {
      MemQueue(state, source)
    }

    constructor ()
      ensures state == MEM_EMPTY && repr == {}
      ensures Valid()
    {
      items, cursors, nextIndex := map[], map[], map[];
      state, repr, cells := MEM_EMPTY, {}, map[];
    }

    method Drop()
      modifies this
      ensures state == MEM_EMPTY && repr == {}
      ensures Valid()
    {
      items, cursors, nextIndex := map[], map[], map[];
      state, repr, cells := MEM_EMPTY, {}, map[];
    }

    method GetCursor(source: string) returns (cursor: Option<string>)
      requires Valid()
      ensures cursor == CursorOf(state.cursors, source)
    {
      cursor := if source in cursors then Some(cursors[source]) else None;
    }

    method UpdateCursor(source: string, cursor: string)
      requires Valid()
      modifies this`cursors, this`state
      ensures state == MemApply(old(state), CursorOp(source, cursor)).0
      ensures Valid()
    {
      cursors := cursors[source := cursor];
      state := MemApply(state, CursorOp(source, cursor)).0;
    }

    method EnsureSource(source: string)
      requires Valid()
      modifies this`items, this`nextIndex, this`cursors, this`state
      ensures state == WithSource(old(state), source) && source in items
      ensures Valid()
    {
      if source !in items {
        TableAdded(items, state.tables, cells, source);
        items := items[source := map[]];
        nextIndex := nextIndex[source := 1];
        if source !in cursors {
          cursors := cursors[source := ""];
        }
        Amount(WithSource(state, source));
      }
    }

    // Makes sure the source is there and takes its next order index.
    method Reserve(source: string) returns (orderIndex: nat)
      requires Valid()
      modifies this`items, this`nextIndex, this`cursors, this`state
      ensures source in items
      ensures var w := WithSource(old(state), source);
              && source in w.nextIndex && orderIndex == w.nextIndex[source]
              && state == w.(nextIndex := w.nextIndex[source := orderIndex + 1])
      ensures Valid()
    {
      EnsureSource(source);
      orderIndex := nextIndex[source];
      nextIndex := nextIndex[source := orderIndex + 1];
      Amount(state.(nextIndex := nextIndex));
    }

    // The maps and items now amount to this state.
    method Amount(ghost m: MemState)
      requires Linked() && items.Keys == nextIndex.Keys && cursors == m.cursors && nextIndex == m.nextIndex
      requires AllMirror(items, m.tables, cells)
      modifies this`state
      ensures state == m && Valid()
    {
      state := m;
    }

    // Puts a new item object under its key, over whatever was there.
    method Attach(item: MemoryItem, ghost c: Cell)
      requires Valid() && item.sourceId in items && item !in repr && item.AsCell() == c
      modifies this`items, this`repr, this`cells, this`state
      ensures repr == old(repr) + {item}
      ensures state == old(state).(tables := old(state).tables[item.sourceId :=
                                               old(state).tables[item.sourceId][item.id := c]])
      ensures Valid()
    {
      var s := item.sourceId;
      CellAdded(items, state.tables, cells, item, c);
      items := items[s := items[s][item.id := item]];
      repr := repr + {item};
      cells := cells[item := c];
      Amount(state.(tables := state.tables[s := state.tables[s][item.id := c]]));
    }

    method Push(source: string, id: string, data: Bytes, context: Bytes)
      requires Valid()
      modifies this
      ensures state == MemApply(old(state), PushOp(source, id, data, context)).0
      ensures fresh(repr - old(repr))
      ensures Valid()
    {
      var orderIndex := Reserve(source);
      var item := new MemoryItem(source, id, data, context, orderIndex);
      Attach(item, Cell(data, context, orderIndex, false));
      assert repr - old(repr) <= {item};
      PushParts(old(state), source, id, data, context);
    }

    method SetContents(item: MemoryItem, data: Bytes, context: Bytes)
      requires Linked() && item in repr
      modifies this`cells, item
      ensures Linked() && cells == old(cells)[item := old(cells)[item].(data := data, context := context)]
    {
      item.data := data;
      item.context := context;
      cells := cells[item := item.AsCell()];
    }

    method SetLocked(item: MemoryItem, locked: bool)
      requires Linked() && item in repr
      modifies this`cells, item`locked
      ensures Linked() && cells == old(cells)[item := old(cells)[item].(locked := locked)]
    {
      item.locked := locked;
      cells := cells[item := item.AsCell()];
    }

    method Update(source: string, id: string, data: Bytes, context: Bytes) returns (status: Status)
      requires Valid()
      modifies this`state, this`cells, repr
      ensures (state, status) == MemApply(old(state), UpdateOp(source, id, data, context))
      ensures Valid()
    {
      if source !in items || id !in items[source] {
        NothingThere(state, source, id, data, context);
        return Err;
      }
      var item := items[source][id];
      ghost var c := cells[item].(data := data, context := context);
      ChangeParts(state, source, id, data, context);
      CellChanged(items, state.tables, cells, source, id, item, c);
      SetContents(item, data, context);
      Amount(WithCell(state, source, id, c));
      return Ok;
    }

    method Delete(source: string, id: string)
      requires Valid()
      modifies this`items, this`state
      ensures state == MemApply(old(state), DeleteOp(source, id)).0
      ensures Valid()
    {
      if source in items {
        CellRemoved(items, state.tables, cells, source, id);
        items := items[source := items[source] - {id}];
      }
      Amount(MemApply(state, DeleteOp(source, id)).0);
    }

    method Lock(source: string, id: string) returns (status: Status)
      requires Valid()
      modifies this`state, this`cells, repr`locked
      ensures (state, status) == MemApply(old(state), LockOp(source, id))
      ensures Valid()
    {
      if source !in items || id !in items[source] {
        NothingThere(state, source, id, [], []);
        return Err;
      }
      var item := items[source][id];
      ghost var c := cells[item].(locked := true);
      ChangeParts(state, source, id, [], []);
      CellChanged(items, state.tables, cells, source, id, item, c);
      SetLocked(item, true);
      Amount(WithCell(state, source, id, c));
      return Ok;
    }

    method Unlock(source: string, id: string) returns (status: Status)
      requires Valid()
      modifies this`state, this`cells, repr`locked
      ensures (state, status) == MemApply(old(state), UnlockOp(source, id))
      ensures Valid()
    {
      if source !in items || id !in items[source] {
        NothingThere(state, source, id, [], []);
        return Err;
      }
      var item := items[source][id];
      ghost var c := cells[item].(locked := false);
      ChangeParts(state, source, id, [], []);
      CellChanged(items, state.tables, cells, source, id, item, c);
      SetLocked(item, false);
      Amount(WithCell(state, source, id, c));
      return Ok;
    }

    lemma ItemIs(source: string, i: string)
      requires Valid() && source in items && i in items[source]
      ensures var o, t := items[source][i], state.tables;
              source in t && i in t[source] && o.sourceId == source && o.id == i && o.AsCell() == t[source][i]
    {
      assert Mirrors(source, items[source], state.tables[source], cells);
    }

    // The walk over one source's map, in whatever order it comes; `want` is the filter of
    // GetLocked and GetUnlocked.
    method Collect(source: string, want: Option<bool>) returns (found: seq<MemoryItem>)
      requires Valid() && source in items
      ensures Covers(Chosen(state.tables[source], want), found)
      ensures forall y :: y in found ==> y.sourceId == source
    {
      var rest := items[source].Keys;
      ghost var t := Chosen(state.tables[source], want);
      found := [];
      while rest != {}
        invariant rest <= items[source].Keys
        invariant Covers(Met(t, rest), found)
        invariant forall y :: y in found ==> y.sourceId == source
        decreases rest
      {
        var i :| i in rest;
        var item := items[source][i];
        ItemIs(source, i);
        if want.None? || item.locked == want.value {
          CoversMore(t, rest, i, found, item);
          found := found + [item];
        } else {
          MetSame(t, rest, i);
        }
        rest := rest - {i};
      }
      assert Met(t, rest) == t;
    }

    // Copies for the caller.
    static method Copy(ghost source: string, found: seq<MemoryItem>, ghost views: seq<Item>) returns (r: seq<Item>)
      requires (forall y :: y in found ==> y.sourceId == source) && Views(source, found) == views
      ensures r == views
    {
      r := [];
      var k := 0;
      while k < |found|
        invariant k <= |found|
        invariant r == Views(source, found[..k])
      {
        ViewsSnoc(source, found[..k], found[k]);
        assert found[..k + 1] == found[..k] + [found[k]];
        r := r + [Item(found[k].sourceId, found[k].id, found[k].data, found[k].context)];
        k := k + 1;
      }
      assert found[..k] == found;
    }

    // The listing common to GetItems, GetLocked and GetUnlocked: collect, sort, cut, copy.
    method List(source: string, want: Option<bool>, limit: int) returns (r: seq<Item>)
      requires Valid() && MemValid(state)
      ensures r == ItemsOf(source, Fifo.First(Pick(Queue(source), want), limit))
    {
      var max := if limit <= 0 then 100 else limit;
      ghost var goal := ItemsOf(source, Fifo.First(Pick(Queue(source), want), limit));
      if source !in items {
        return [];
      }
      var found := Collect(source, want);
      SortedCut(source, state.tables[source], want, found, limit);
      found := SortByIndex(found);
      if |found| > max {
        found := found[..max];
      }
      r := Copy(source, found, goal);
    }

    method GetItems(source: string, limit: int) returns (r: seq<Item>)
      requires Valid() && MemValid(state)
      ensures r == ItemsOf(source, Items(Queue(source), limit))
    {
      r := List(source, None, limit);
    }

    method GetLocked(source: string, limit: int) returns (r: seq<Item>)
      requires Valid() && MemValid(state)
      ensures r == ItemsOf(source, ByLock(Queue(source), true, limit))
    {
      r := List(source, Some(true), limit);
    }

    method GetUnlocked(source: string, limit: int) returns (r: seq<Item>)
      requires Valid() && MemValid(state)
      ensures r == ItemsOf(source, ByLock(Queue(source), false, limit))
    {
      r := List(source, Some(false), limit);
    }

    method GetIndex(source: string) returns (index: nat)
      requires Valid() && MemValid(state)
      ensures index == MemIndex(state, source)
    {
      if source in nextIndex && nextIndex[source] > 0 {
        return nextIndex[source] - 1;
      }
      return 0;  // a source without a next index has no items
    }
  }
}
