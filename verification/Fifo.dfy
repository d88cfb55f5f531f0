// The abstract event queue of one source: entries in push order, each with a lock bit.
// Both storage back ends refine it and the pipeline protocol runs on it.
module Fifo {
  import opened Prelude

  datatype Entry<D, C> = Entry(id: string, data: D, context: C, locked: bool)

  type Queue<D, C> = seq<Entry<D, C>>

  ghost predicate UniqueIds<D, C>(q: Queue<D, C>) {
    forall i, j :: 0 <= i < j < |q| ==> q[i].id != q[j].id
  }

  function Find<D, C>(q: Queue<D, C>, id: string): (r: Option<Entry<D, C>>)
    ensures r.Some? ==> r.value in q && r.value.id == id
    ensures r.None? ==> forall e :: e in q ==> e.id != id
  {
    if q == [] then None
    else if q[0].id == id then Some(q[0])
    else Find(q[1..], id)
  }

  predicate Has<D, C>(q: Queue<D, C>, id: string) {
    Find(q, id).Some?
  }

  // A pushed item goes to the end, unlocked.
  function Push<D, C>(q: Queue<D, C>, id: string, data: D, context: C): (r: Queue<D, C>)
    ensures forall k :: Find(r, k) == if Has(q, k) then Find(q, k)
                                      else if k == id then Some(Entry(id, data, context, false)) else None
  {
    FindAppend(q, Entry(id, data, context, false));
    q + [Entry(id, data, context, false)]
  }

  lemma {:induction false} FindAppend<D, C>(q: Queue<D, C>, e: Entry<D, C>)
    ensures forall k :: Find(q + [e], k) == if Has(q, k) then Find(q, k)
                                            else if k == e.id then Some(e) else None
  {
    if q == [] {
    } else {
      FindAppend(q[1..], e);
      assert (q + [e])[1..] == q[1..] + [e];
    }
  }

  // Data and context are replaced; place and lock bit stay.
  function Update<D, C>(q: Queue<D, C>, id: string, data: D, context: C): (r: Queue<D, C>)
    ensures |r| == |q|
    ensures forall k :: Find(r, k) == if k == id && Has(q, k) then Some(Find(q, k).value.(data := data, context := context))
                                      else Find(q, k)
  {
    if q == [] then []
    else [if q[0].id == id then q[0].(data := data, context := context) else q[0]] + Update(q[1..], id, data, context)
  }

  function SetLock<D, C>(q: Queue<D, C>, id: string, locked: bool): (r: Queue<D, C>)
    ensures |r| == |q|
    ensures forall k :: Find(r, k) == if k == id && Has(q, k) then Some(Find(q, k).value.(locked := locked))
                                      else Find(q, k)
  {
    if q == [] then []
    else [if q[0].id == id then q[0].(locked := locked) else q[0]] + SetLock(q[1..], id, locked)
  }

  // Every entry with this id leaves; the others keep their order.
  function Delete<D, C>(q: Queue<D, C>, id: string): (r: Queue<D, C>)
    ensures forall e | e in r :: e in q && e.id != id
    ensures forall e | e in q && e.id != id :: e in r
    ensures forall k :: Find(r, k) == if k == id then None else Find(q, k)
  {
    if q == [] then []
    else if q[0].id == id then Delete(q[1..], id)
    else [q[0]] + Delete(q[1..], id)
  }

  // The entries whose lock bit is `locked`, in push order.
  function Select<D, C>(q: Queue<D, C>, locked: bool): (r: Queue<D, C>)
    ensures forall e | e in r :: e in q && e.locked == locked
    ensures forall e | e in q && e.locked == locked :: e in r
  {
    if q == [] then []
    else (if q[0].locked == locked then [q[0]] else []) + Select(q[1..], locked)
  }

  // A listing returns at most `limit` entries; a limit of zero or less means 100.
  function Limit(limit: int): nat {
    if limit <= 0 then 100 else limit
  }

  function First<T>(q: seq<T>, limit: int): seq<T> {
    if |q| > Limit(limit) then q[..Limit(limit)] else q
  }

  function PositionsBefore<D, C>(q: Queue<D, C>, locked: bool, i: nat): (r: set<int>)
    requires i <= |q|
    ensures forall j :: j in r <==> 0 <= j < i && q[j].locked == locked
  {
    set j | 0 <= j < i && q[j].locked == locked
  }

  // How many entries with this lock bit come before position i.
  function Rank<D, C>(q: Queue<D, C>, locked: bool, i: nat): nat
    requires i <= |q|
  {
    |PositionsBefore(q, locked, i)|
  }

  lemma RankNext<D, C>(q: Queue<D, C>, locked: bool, i: nat, next: nat)
    requires i < |q| && next == i + 1
    ensures Rank(q, locked, next) == Rank(q, locked, i) + if q[i].locked == locked then 1 else 0
  {
    var before, after := PositionsBefore(q, locked, i), PositionsBefore(q, locked, next);
    assert after == if q[i].locked == locked then before + {i} else before;
  }

  lemma SelectNext<D, C>(q: Queue<D, C>, locked: bool, i: nat)
    requires 0 < i <= |q|
    ensures |Select(q[..i], locked)| == |Select(q[..i - 1], locked)| + if q[i - 1].locked == locked then 1 else 0
  {
    OneMore(q, i);
    SelectBack(q[..i - 1], q[i - 1], locked);
  }

  lemma {:induction false} SelectSize<D, C>(q: Queue<D, C>, locked: bool, i: nat)
    requires i <= |q|
    ensures |Select(q[..i], locked)| == Rank(q, locked, i)
  {
    if i > 0 {
      SelectNext(q, locked, i);
      RankNext(q, locked, i - 1, i);
      SelectSize(q, locked, i - 1);
    }
  }

  lemma OneMore<T>(q: seq<T>, i: nat)
    requires 0 < i <= |q|
    ensures q[..i] == q[..i - 1] + [q[i - 1]]
  {
  }

  lemma SelectBack<D, C>(q: Queue<D, C>, e: Entry<D, C>, locked: bool)
    ensures Select(q + [e], locked) == Select(q, locked) + if e.locked == locked then [e] else []
  {
    SelectSplit(q, [e], locked);
    SelectCons(e, [], locked);
    assert [e] + [] == [e];
  }

  lemma SelectAt<D, C>(q: Queue<D, C>, locked: bool, i: nat)
    requires i < |q| && q[i].locked == locked
    ensures Rank(q, locked, i) < |Select(q, locked)| && Select(q, locked)[Rank(q, locked, i)] == q[i]
  {
    SelectSize(q, locked, i);
    SelectSplit(q[..i], q[i..], locked);
    SelectCons(q[i], q[i + 1..], locked);
    assert q[..i] + q[i..] == q && q[i..] == [q[i]] + q[i + 1..];
  }

  lemma {:induction false} SelectSplit<D, C>(a: Queue<D, C>, b: Queue<D, C>, locked: bool)
    ensures Select(a + b, locked) == Select(a, locked) + Select(b, locked)
  {
    if a == [] {
      assert a + b == b;
    } else {
      assert (a + b)[1..] == a[1..] + b;
      SelectSplit(a[1..], b, locked);
    }
  }

  // A listing by lock bit shows the matching entries in their order up to the limit, which is
  // 100 unless it is positive: an entry is in it if and only if it matches and fewer than
  // that many matching ones come before it.
  lemma ListingExactly<D, C>(q: Queue<D, C>, locked: bool, limit: int, i: nat)
    requires UniqueIds(q) && i < |q|
    ensures var r, most := First(Select(q, locked), limit), if limit <= 0 then 100 else limit;
            |r| <= most &&
            (q[i] in r <==> q[i].locked == locked && Rank(q, locked, i) < most) &&
            (q[i] in r ==> Rank(q, locked, i) < |r| && r[Rank(q, locked, i)] == q[i])
  {
    var all := Select(q, locked);
    if q[i].locked == locked {
      SelectAt(q, locked, i);
      UniqueSelect(q, locked);
    }
    if k :| 0 <= k < |First(all, limit)| && First(all, limit)[k] == q[i] {
      assert all[k] == q[i] && all[k] in all;
      assert k == Rank(q, locked, i);
    }
  }

  lemma UniqueFind<D, C>(q: Queue<D, C>, i: nat)
    requires UniqueIds(q) && i < |q|
    ensures Find(q, q[i].id) == Some(q[i])
  {
    var r := Find(q, q[i].id);
    assert q[i] in q;
    var j :| 0 <= j < |q| && q[j] == r.value;
    assert i == j;
  }

  lemma {:induction false} UpdateAt<D, C>(q: Queue<D, C>, id: string, data: D, context: C, i: nat)
    requires i < |q|
    ensures Update(q, id, data, context)[i] == if q[i].id == id then q[i].(data := data, context := context) else q[i]
  {
    if i > 0 {
      UpdateAt(q[1..], id, data, context, i - 1);
    }
  }

  lemma {:induction false} SetLockAt<D, C>(q: Queue<D, C>, id: string, locked: bool, i: nat)
    requires i < |q|
    ensures SetLock(q, id, locked)[i] == if q[i].id == id then q[i].(locked := locked) else q[i]
  {
    if i > 0 {
      SetLockAt(q[1..], id, locked, i - 1);
    }
  }

  lemma UniqueUpdate<D, C>(q: Queue<D, C>, id: string, data: D, context: C)
    requires UniqueIds(q)
    ensures UniqueIds(Update(q, id, data, context))
  {
    forall i | 0 <= i < |q| ensures Update(q, id, data, context)[i].id == q[i].id {
      UpdateAt(q, id, data, context, i);
    }
  }

  lemma UniqueSetLock<D, C>(q: Queue<D, C>, id: string, locked: bool)
    requires UniqueIds(q)
    ensures UniqueIds(SetLock(q, id, locked))
  {
    forall i | 0 <= i < |q| ensures SetLock(q, id, locked)[i].id == q[i].id {
      SetLockAt(q, id, locked, i);
    }
  }

  lemma UniqueCons<D, C>(e: Entry<D, C>, q: Queue<D, C>)
    requires UniqueIds(q) && !Has(q, e.id)
    ensures UniqueIds([e] + q)
  {
    forall i | 0 <= i < |q| ensures q[i].id != e.id {
      assert q[i] in q;
    }
  }

  lemma UniquePush<D, C>(q: Queue<D, C>, id: string, data: D, context: C)
    requires UniqueIds(q) && !Has(q, id)
    ensures UniqueIds(Push(q, id, data, context))
  {
    forall i | 0 <= i < |q| ensures q[i].id != id {
      assert q[i] in q;
    }
  }

  lemma {:induction false} UniqueDelete<D, C>(q: Queue<D, C>, id: string)
    requires UniqueIds(q)
    ensures UniqueIds(Delete(q, id))
  {
    if q == [] {
    } else {
      UniqueDelete(q[1..], id);
      var r := Delete(q[1..], id);
      if q[0].id != id {
        forall i | 0 <= i < |r| ensures r[i].id != q[0].id {
          assert r[i] in r && r[i] in q[1..];
        }
      }
    }
  }

  lemma {:induction false} UniqueSelect<D, C>(q: Queue<D, C>, locked: bool)
    requires UniqueIds(q)
    ensures UniqueIds(Select(q, locked))
  {
    if q == [] {
    } else {
      UniqueSelect(q[1..], locked);
      var r := Select(q[1..], locked);
      forall i | 0 <= i < |r| ensures r[i].id != q[0].id {
        assert r[i] in r && r[i] in q[1..];
      }
    }
  }

  // The queue with every lock bit off.
  function AllUnlocked<D, C>(q: Queue<D, C>): (r: Queue<D, C>)
    ensures |r| == |q| && forall i :: 0 <= i < |q| ==> r[i] == q[i].(locked := false)
  {
    if q == [] then [] else [q[0].(locked := false)] + AllUnlocked(q[1..])
  }

  lemma {:induction false} UnlockKeepsRest<D, C>(q: Queue<D, C>, id: string)
    ensures AllUnlocked(SetLock(q, id, false)) == AllUnlocked(q)
  {
    if q != [] {
      UnlockKeepsRest(q[1..], id);
    }
  }

  lemma {:induction false} AllOff<D, C>(q: Queue<D, C>)
    requires Select(q, true) == []
    ensures AllUnlocked(q) == q && Select(q, false) == q
  {
    if q != [] {
      assert q[0] !in Select(q, true);
      AllOff(q[1..]);
    }
  }

  lemma {:induction false} UnlockedFind<D, C>(q: Queue<D, C>, id: string)
    ensures Find(AllUnlocked(q), id) == if Has(q, id) then Some(Find(q, id).value.(locked := false)) else None
  {
    if q != [] {
      assert AllUnlocked(q)[1..] == AllUnlocked(q[1..]);
      UnlockedFind(q[1..], id);
    }
  }

  // Unlocking a locked entry leaves one locked entry less.
  lemma {:induction false} UnlockShrinks<D, C>(q: Queue<D, C>, id: string)
    requires UniqueIds(q) && Has(q, id) && Find(q, id).value.locked
    ensures |Select(SetLock(q, id, false), true)| == |Select(q, true)| - 1
  {
    if q[0].id == id {
      forall e | e in q[1..] ensures e.id != id {
        var i :| 1 <= i < |q| && q[i] == e;
      }
      SetLockNone(q[1..], id, false);
    } else {
      UnlockShrinks(q[1..], id);
    }
  }

  lemma {:induction false} SetLockNone<D, C>(q: Queue<D, C>, id: string, locked: bool)
    requires !Has(q, id)
    ensures SetLock(q, id, locked) == q
  {
    if q != [] {
      SetLockNone(q[1..], id, locked);
    }
  }

  lemma {:induction false} UpdateNone<D, C>(q: Queue<D, C>, id: string, data: D, context: C)
    requires !Has(q, id)
    ensures Update(q, id, data, context) == q
  {
    if q != [] {
      UpdateNone(q[1..], id, data, context);
    }
  }

  // The two listings by lock bit share the queue out between them.
  lemma {:induction false} SelectPartitions<D, C>(q: Queue<D, C>)
    ensures multiset(Select(q, true)) + multiset(Select(q, false)) == multiset(q)
  {
    if q != [] {
      SelectPartitions(q[1..]);
      assert q == [q[0]] + q[1..];
    }
  }

  lemma UpdateCons<D, C>(e: Entry<D, C>, q: Queue<D, C>, id: string, data: D, context: C)
    ensures Update([e] + q, id, data, context) ==
            [if e.id == id then e.(data := data, context := context) else e] + Update(q, id, data, context)
  {
    assert ([e] + q)[1..] == q;
  }

  lemma SetLockCons<D, C>(e: Entry<D, C>, q: Queue<D, C>, id: string, locked: bool)
    ensures SetLock([e] + q, id, locked) == [if e.id == id then e.(locked := locked) else e] + SetLock(q, id, locked)
  {
    assert ([e] + q)[1..] == q;
  }

  // ---- the unlocked entries, as the producer takes them

  lemma SelectCons<D, C>(e: Entry<D, C>, q: Queue<D, C>, locked: bool)
    ensures Select([e] + q, locked) == (if e.locked == locked then [e] else []) + Select(q, locked)
  {
    assert ([e] + q)[1..] == q;
  }

  lemma UniqueRest<D, C>(e: Entry<D, C>, rest: Queue<D, C>)
    requires UniqueIds([e] + rest)
    ensures UniqueIds(rest) && !Has(rest, e.id)
  {
    var q := [e] + rest;
    assert forall i :: 0 <= i < |rest| ==> rest[i] == q[i + 1];
    forall i | 0 <= i < |rest| ensures rest[i].id != e.id {
      assert q[i + 1] == rest[i] && q[0] == e;
    }
  }

  // Locking the first entry and deleting it leaves the rest.
  lemma DeleteFirst<D, C>(q: Queue<D, C>)
    requires UniqueIds(q) && q != []
    ensures Delete(SetLock(q, q[0].id, true), q[0].id) == q[1..]
  {
    var e, rest := q[0], q[1..];
    assert q == [e] + rest;
    UniqueRest(e, rest);
    SetLockNone(rest, e.id, true);
    DeleteNone(rest, e.id);
    assert SetLock(q, e.id, true) == [e.(locked := true)] + rest;
    assert ([e.(locked := true)] + rest)[1..] == rest;
  }

  lemma {:induction false} DeleteNone<D, C>(q: Queue<D, C>, id: string)
    requires !Has(q, id)
    ensures Delete(q, id) == q
  {
    if q != [] {
      DeleteNone(q[1..], id);
    }
  }
}
