// The decoder's loop over one map: what is left after visiting the keys in some order, given
// what each entry decodes to.
module Visits {
  import opened Prelude
  import opened Text
  import opened Normalize

  // What the entries of a map decode to, None for an error.
  type Results = map<string, Option<Val>>

  // The map on the way; None stands for an entry that is still as it was.
  type Slots = map<string, Option<Val>>

  function AsTheyWere(keys: set<string>): Slots {
    map k | k in keys :: None
  }

  // A visit decodes an entry and moves it to the text before the first ':' of its key, over
  // what is there.  A key that is gone, or was decoded already, changes nothing.
  function VisitOne(e: Results, out: Slots, x: string): Option<Slots> {
    if x !in out || out[x].Some? then Some(out)
    else if x !in e || e[x].None? then None
    else Some((out - {x})[Prefix(x) := e[x]])
  }

  // After visiting these keys in this order; None for an error.
  function InOrder(e: Results, order: seq<string>): Option<Slots>
    decreases |order|
  {
    if order == [] then Some(AsTheyWere(e.Keys))
    else
      var before := InOrder(e, order[..|order| - 1]);
      if before.None? then None else VisitOne(e, before.value, order[|order| - 1])
  }

  function Decoded(out: Slots): map<string, Val> {
    map p | p in out && out[p].Some? :: out[p].value
  }

  // The map at the end.
  function Final(e: Results, order: seq<string>): Option<Val> {
    match InOrder(e, order)
    case None => None
    case Some(out) => Some(Msi(Decoded(out)))
  }

  // An order in which the loop may visit the keys: each key of the map once, and any keys
  // inserted on the way.
  ghost predicate IsOrder(keys: set<string>, order: seq<string>) {
    (forall k :: k in keys ==> multiset(order)[k] == 1) && forall k :: k in order ==> k in keys || ':' !in k
  }

  lemma InOrderSnoc(e: Results, order: seq<string>, key: string)
    ensures var r := InOrder(e, order);
            InOrder(e, order + [key]) == if r.None? then None else VisitOne(e, r.value, key)
  {
    assert (order + [key])[..|order|] == order;
  }

  lemma {:induction false} ErrorsStay(e: Results, order: seq<string>, more: seq<string>)
    requires InOrder(e, order).None?
    ensures InOrder(e, order + more).None?
    decreases |more|
  {
    if more == [] {
      assert order + more == order;
    } else {
      var front := more[..|more| - 1];
      ErrorsStay(e, order, front);
      InOrderSnoc(e, order + front, more[|more| - 1]);
      assert order + front + [more[|more| - 1]] == order + more;
    }
  }

  // The result of an entry does not matter before its key is visited.
  lemma {:induction false} NotYet(e: Results, order: seq<string>, key: string, w: Option<Val>)
    requires key in e && key !in order
    ensures InOrder(e[key := w], order) == InOrder(e, order)
    decreases |order|
  {
    if order == [] {
      assert e[key := w].Keys == e.Keys;
    } else {
      NotYet(e, order[..|order| - 1], key, w);
    }
  }

  // ---- what the map holds after some visits

  predicate Suffixed(keys: set<string>, k: string) {
    k in keys && ':' in k
  }

  // A suffixed key with this text before the ':' has been visited.
  ghost predicate Hit(keys: set<string>, order: seq<string>, p: string) {
    exists j :: j in order && Suffixed(keys, j) && Prefix(j) == p
  }

  ghost predicate Untouched(keys: set<string>, order: seq<string>, k: string) {
    k in keys && k !in order && !Hit(keys, order, k)
  }

  ghost predicate FromSuffixed(e: Results, order: seq<string>, p: string, v: Option<Val>) {
    exists j :: j in order && Suffixed(e.Keys, j) && Prefix(j) == p && e[j] == v
  }

  ghost predicate FromPlain(e: Results, order: seq<string>, p: string, v: Option<Val>) {
    ':' !in p && p in e && p in order && !Hit(e.Keys, order, p) && e[p] == v
  }

  ghost predicate Sourced(e: Results, order: seq<string>, p: string, v: Option<Val>) {
    if v.None? then Untouched(e.Keys, order, p) else FromSuffixed(e, order, p, v) || FromPlain(e, order, p, v)
  }

  // Every entry is an original one, or comes from a visited key.
  ghost predicate Tracks(e: Results, order: seq<string>, out: Slots) {
    && (forall k :: Untouched(e.Keys, order, k) ==> k in out && out[k].None?)
    && (forall p :: p in out ==> Sourced(e, order, p, out[p]))
    && (forall p :: (p in e && ':' !in p) || Hit(e.Keys, order, p) ==> p in out)
    && (forall k :: Suffixed(e.Keys, k) && k in order ==> e[k].Some?)
  }

  lemma HitMore(keys: set<string>, order: seq<string>, x: string, p: string)
    ensures Hit(keys, order + [x], p) <==> Hit(keys, order, p) || (Suffixed(keys, x) && Prefix(x) == p)
  {
    if Hit(keys, order, p) {
      var j :| j in order && Suffixed(keys, j) && Prefix(j) == p;
      assert j in order + [x];
    }
    if Suffixed(keys, x) && Prefix(x) == p {
      assert x in order + [x];
    }
  }

  lemma SuffixedIsNotHit(keys: set<string>, order: seq<string>, k: string)
    requires ':' in k
    ensures !Hit(keys, order, k)
  {
    forall j ensures Prefix(j) != k {
      PrefixIs(j);
    }
  }

  lemma FromSuffixedMore(e: Results, order: seq<string>, x: string, p: string, v: Option<Val>)
    requires FromSuffixed(e, order, p, v)
    ensures FromSuffixed(e, order + [x], p, v)
  {
    var j :| j in order && Suffixed(e.Keys, j) && Prefix(j) == p && e[j] == v;
    assert j in order + [x];
  }

  // A visit to a key that is gone, or decoded already.
  lemma TracksSame(e: Results, order: seq<string>, out: Slots, x: string)
    requires Tracks(e, order, out) && !Untouched(e.Keys, order, x)
    ensures Tracks(e, order + [x], out)
  {
    var next := order + [x];
    if ':' in x {
      SuffixedIsNotHit(e.Keys, order, x);
    }
    forall p ensures Hit(e.Keys, next, p) <==> Hit(e.Keys, order, p) {
      HitMore(e.Keys, order, x, p);
    }
    forall p | p in out ensures Sourced(e, next, p, out[p]) {
      if FromSuffixed(e, order, p, out[p]) {
        FromSuffixedMore(e, order, x, p, out[p]);
      }
    }
  }

  // A visit to a key that is as it was: what it hits, and what it leaves untouched.
  lemma Touches(keys: set<string>, order: seq<string>, x: string)
    requires Untouched(keys, order, x)
    ensures forall p :: Hit(keys, order + [x], p) <==> Hit(keys, order, p) || (':' in x && p == Prefix(x))
    ensures forall k :: Untouched(keys, order + [x], k) <==> Untouched(keys, order, k) && k != x && k != Prefix(x)
  {
    PrefixIs(x);
    forall p ensures Hit(keys, order + [x], p) <==> Hit(keys, order, p) || (':' in x && p == Prefix(x)) {
      HitMore(keys, order, x, p);
    }
  }

  lemma TouchSources(e: Results, order: seq<string>, out: Slots, x: string)
    requires Tracks(e, order, out) && Untouched(e.Keys, order, x) && e[x].Some?
    ensures var out' := (out - {x})[Prefix(x) := e[x]]; forall p :: p in out' ==> Sourced(e, order + [x], p, out'[p])
  {
    var next, out' := order + [x], (out - {x})[Prefix(x) := e[x]];
    Touches(e.Keys, order, x);
    PrefixIs(x);
    assert x in next;
    forall p | p in out' ensures Sourced(e, next, p, out'[p]) {
      if p == Prefix(x) {
        assert ':' !in x ==> FromPlain(e, next, p, e[x]);
        assert ':' in x ==> FromSuffixed(e, next, p, e[x]);
      } else if FromSuffixed(e, order, p, out[p]) {
        FromSuffixedMore(e, order, x, p, out[p]);
      }
    }
  }

  lemma TracksTouch(e: Results, order: seq<string>, out: Slots, x: string)
    requires Tracks(e, order, out) && Untouched(e.Keys, order, x) && e[x].Some?
    ensures Tracks(e, order + [x], (out - {x})[Prefix(x) := e[x]])
  {
    TouchSources(e, order, out, x);
    Touches(e.Keys, order, x);
    PrefixIs(x);
    var next, out' := order + [x], (out - {x})[Prefix(x) := e[x]];
    assert forall k :: Untouched(e.Keys, next, k) ==> k in out' && out'[k].None?;
    assert forall p :: (p in e && ':' !in p) || Hit(e.Keys, next, p) ==> p in out';
    assert forall k :: Suffixed(e.Keys, k) && k in next ==> k in order || k == x;
  }

  lemma TracksStep(e: Results, order: seq<string>, out: Slots, x: string)
    requires Tracks(e, order, out) && VisitOne(e, out, x).Some?
    ensures Tracks(e, order + [x], VisitOne(e, out, x).value)
  {
    if Untouched(e.Keys, order, x) {
      TracksTouch(e, order, out, x);
    } else {
      TracksSame(e, order, out, x);
    }
  }

  lemma {:induction false} InOrderTracks(e: Results, order: seq<string>)
    requires InOrder(e, order).Some?
    ensures Tracks(e, order, InOrder(e, order).value)
    decreases |order|
  {
    if order != [] {
      InOrderTracks(e, order[..|order| - 1]);
      TracksSnoc(e, order);
    } else {
      TracksNothing(e);
    }
  }

  lemma TracksNothing(e: Results)
    ensures Tracks(e, [], AsTheyWere(e.Keys))
  {
  }

  lemma TracksSnoc(e: Results, order: seq<string>)
    requires order != [] && InOrder(e, order).Some?
    requires Tracks(e, order[..|order| - 1], InOrder(e, order[..|order| - 1]).value)
    ensures Tracks(e, order, InOrder(e, order).value)
  {
    var front, x := order[..|order| - 1], order[|order| - 1];
    TracksStep(e, front, InOrder(e, front).value, x);
    assert order == front + [x];
  }

  // ---- who fails, and who does not

  // The first visit that fails, if any.
  lemma {:induction false} FindFailure(e: Results, order: seq<string>) returns (front: seq<string>, x: string)
    requires InOrder(e, order).None?
    ensures front + [x] <= order && Untouched(e.Keys, front, x) && e[x].None?
    decreases |order|
  {
    var prior, last := order[..|order| - 1], order[|order| - 1];
    if InOrder(e, prior).None? {
      front, x := FindFailure(e, prior);
      Earlier(front + [x], order);
    } else {
      InOrderTracks(e, prior);
      front, x := prior, last;
      assert prior + [last] == order;
    }
  }

  lemma Earlier(front: seq<string>, order: seq<string>)
    requires order != [] && front <= order[..|order| - 1]
    ensures front <= order
  {
    assert order == order[..|order| - 1] + [order[|order| - 1]];
  }

  lemma NoFailure(e: Results, order: seq<string>)
    requires forall k :: k in e ==> e[k].Some?
    ensures InOrder(e, order).Some?
  {
    if InOrder(e, order).None? {
      var front, x := FindFailure(e, order);
    }
  }

  // ---- whole orders

  // The key's value, if it is decoded, is not always replaced by that of another key: it has a
  // suffix, or no suffixed key has it as the text before the ':'.
  ghost predicate Decides(keys: set<string>, k: string) {
    k in keys && (':' in k || forall j :: Suffixed(keys, j) ==> Prefix(j) != k)
  }

  lemma DeciderIsNotHit(keys: set<string>, order: seq<string>, k: string)
    requires Decides(keys, k)
    ensures !Hit(keys, order, k)
  {
    if ':' in k {
      SuffixedIsNotHit(keys, order, k);
    }
  }

  lemma DeciderIsNotTracked(e: Results, order: seq<string>, out: Slots, k: string)
    requires Decides(e.Keys, k) && k in order && e[k].None?
    ensures !Tracks(e, order, out)
  {
    DeciderIsNotHit(e.Keys, order, k);
  }

  // An order of all keys fails if a deciding key cannot be decoded.
  lemma DeciderFails(e: Results, order: seq<string>, k: string)
    requires IsOrder(e.Keys, order) && Decides(e.Keys, k) && e[k].None?
    ensures InOrder(e, order).None?
  {
    assert k in order;
    if InOrder(e, order).Some? {
      InOrderTracks(e, order);
      DeciderIsNotTracked(e, order, InOrder(e, order).value, k);
    }
  }

  // The map at the end: each text has the value of a key that decides it.
  lemma FinalIsDecided(e: Results, order: seq<string>)
    requires IsOrder(e.Keys, order) && InOrder(e, order).Some?
    ensures var out := InOrder(e, order).value;
            (forall p :: p in out ==> out[p].Some? && DecidedBy(e, p, out[p])) &&
            (forall k :: Decides(e.Keys, k) ==> Prefix(k) in out)
  {
    var out := InOrder(e, order).value;
    InOrderTracks(e, order);
    assert forall k :: k in e ==> k in order;
    forall p | p in out ensures out[p].Some? && DecidedBy(e, p, out[p]) {
      SourceDecides(e, order, p, out[p]);
    }
    forall k | Decides(e.Keys, k) ensures Prefix(k) in out {
      PrefixIs(k);
      if ':' in k {
        assert Hit(e.Keys, order, Prefix(k));
      }
    }
  }

  ghost predicate DecidedBy(e: Results, p: string, v: Option<Val>) {
    exists k :: Decides(e.Keys, k) && Prefix(k) == p && e[k] == v
  }

  lemma SourceDecides(e: Results, order: seq<string>, p: string, v: Option<Val>)
    requires Sourced(e, order, p, v) && forall k :: k in e ==> k in order
    ensures v.Some? && DecidedBy(e, p, v)
  {
    if FromSuffixed(e, order, p, v) {
      var j :| j in order && Suffixed(e.Keys, j) && Prefix(j) == p && e[j] == v;
      assert Decides(e.Keys, j);
    } else if v.Some? {
      PrefixIs(p);
      assert Decides(e.Keys, p) by {
        forall j | Suffixed(e.Keys, j) ensures Prefix(j) != p {
          assert j in order;
        }
      }
    }
  }

  // The value of the deciding key visited last is the one that stays.
  lemma LastWins(e: Results, order: seq<string>, k: string)
    requires Decides(e.Keys, k) && k !in order && InOrder(e, order).Some? && e[k].Some?
    ensures var r := InOrder(e, order + [k]);
            r.Some? && Prefix(k) in r.value && r.value[Prefix(k)] == e[k]
  {
    InOrderTracks(e, order);
    DeciderIsNotHit(e.Keys, order, k);
    assert Untouched(e.Keys, order, k);
    InOrderSnoc(e, order, k);
  }

  // ---- orders to compare

  lemma {:induction false} Listing(s: set<string>) returns (order: seq<string>)
    ensures forall k :: multiset(order)[k] == if k in s then 1 else 0
    decreases |s|
  {
    if s == {} {
      order := [];
    } else {
      var k :| k in s;
      var rest := Listing(s - {k});
      order := rest + [k];
    }
  }

  lemma IsOrderOf(keys: set<string>, order: seq<string>)
    requires forall k :: multiset(order)[k] == if k in keys then 1 else 0
    ensures IsOrder(keys, order)
  {
    forall k | k in order ensures k in keys {
      assert multiset(order)[k] > 0;
    }
  }

  // An order of all keys that ends with this one.
  lemma EndingWith(keys: set<string>, k: string) returns (front: seq<string>)
    requires k in keys
    ensures IsOrder(keys, front + [k]) && k !in front
  {
    front := Listing(keys - {k});
    IsOrderOf(keys, front + [k]);
    assert multiset(front)[k] == 0;
  }

  // If all deciding keys can be decoded, then so can the map: suffixed keys first.
  lemma SuffixedFirst(e: Results) returns (order: seq<string>)
    requires forall k :: Decides(e.Keys, k) ==> e[k].Some?
    ensures IsOrder(e.Keys, order) && InOrder(e, order).Some?
  {
    var suffixed := set k | k in e && ':' in k;
    var x := Listing(suffixed);
    var y := Listing(e.Keys - suffixed);
    order := x + y;
    IsOrderOf(e.Keys, order);
    if InOrder(e, order).None? {
      var front, f := FindFailure(e, order);
      NotFirst(e.Keys, suffixed, x, y, front, f);
    }
  }

  lemma NotFirst(keys: set<string>, suffixed: set<string>, x: seq<string>, y: seq<string>, front: seq<string>, f: string)
    requires f in keys && !Decides(keys, f) && front + [f] <= x + y
    requires suffixed == (set k | k in keys && ':' in k) && forall k :: multiset(x)[k] == if k in suffixed then 1 else 0
    ensures Hit(keys, front, f)
  {
    var j :| Suffixed(keys, j) && Prefix(j) == f;
    PrefixIs(j);
    assert multiset(x)[j] == 1 && multiset(x)[f] == 0;
    assert j in x && f !in x;
    assert (front + [f])[|front|] == f && (x + y)[|front|] == f;
    assert |x| <= |front|;
    assert front == (front + [f])[..|front|] == (x + y)[..|front|];
    var i :| 0 <= i < |x| && x[i] == j;
    assert front[i] == j;
  }
}
