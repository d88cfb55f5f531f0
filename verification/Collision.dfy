// Exactly when the result of decoding depends on the order of visits, at any depth.
module Collision {
  import opened Prelude
  import opened Text
  import opened Normalize
  import opened Visits
  import opened Outcomes

  // All orders of visits, of the value and of every map in it, give the same result.
  ghost predicate OneOutcome(lib: Lib, v: Val) {
    forall a, b :: Outcome(lib, v, a) && Outcome(lib, v, b) ==> a == b
  }

  // Some deciding key cannot be decoded, whatever the orders inside its value.
  ghost predicate Doomed(lib: Lib, m: map<string, Val>) {
    exists k :: Decides(m.Keys, k) && forall w :: EntryOutcome(lib, k, m[k], w) ==> w.None?
  }

  // All keys can be decoded, whatever the orders inside their values.
  ghost predicate Sure(lib: Lib, m: map<string, Val>) {
    forall k, w :: k in m && EntryOutcome(lib, k, m[k], w) ==> w.Some?
  }

  // The keys that decide one text have one result between them.
  ghost predicate Agree(lib: Lib, m: map<string, Val>) {
    forall j, k :: Decides(m.Keys, j) && Decides(m.Keys, k) && Prefix(j) == Prefix(k) ==>
      forall v, w :: EntryOutcome(lib, j, m[j], v) && EntryOutcome(lib, k, m[k], w) ==> v == w
  }

  // An outcome of a map, from results of its entries and an order.
  ghost predicate Way(lib: Lib, m: map<string, Val>, e: Results, order: seq<string>) {
    ResultsOf(lib, Msi(m), e) && IsOrder(m.Keys, order)
  }

  lemma WayOf(lib: Lib, m: map<string, Val>, r: Option<Val>) returns (e: Results, order: seq<string>)
    requires Outcome(lib, Msi(m), r)
    ensures Way(lib, m, e, order) && r == Final(e, order)
  {
    var v := Msi(m);
    e, order :| IsOrder(v.m.Keys, order) && ResultsOf(lib, v, e) && r == Final(e, order);
  }

  lemma WayIsOutcome(lib: Lib, m: map<string, Val>, e: Results, order: seq<string>)
    requires Way(lib, m, e, order)
    ensures Outcome(lib, Msi(m), Final(e, order)) && e.Keys == m.Keys
    ensures forall k :: k in m ==> EntryOutcome(lib, k, m[k], e[k])
  {
    OutcomeOf(lib, Msi(m), e, order);
    var v := Msi(m);
    assert forall k :: k in m ==> k in v.m && EntryOutcome(lib, k, v.m[k], e[k]);
  }

  // ---- one result

  lemma DoomedFails(lib: Lib, m: map<string, Val>, r: Option<Val>)
    requires Doomed(lib, m) && Outcome(lib, Msi(m), r)
    ensures r.None?
  {
    var e, order := WayOf(lib, m, r);
    WayIsOutcome(lib, m, e, order);
    var k :| Decides(m.Keys, k) && forall w :: EntryOutcome(lib, k, m[k], w) ==> w.None?;
    DeciderFails(e, order, k);
  }

  lemma SureSucceeds(lib: Lib, m: map<string, Val>, e: Results, order: seq<string>)
    requires Sure(lib, m) && Way(lib, m, e, order)
    ensures InOrder(e, order).Some?
  {
    WayIsOutcome(lib, m, e, order);
    NoFailure(e, order);
  }

  lemma SameFinal(lib: Lib, m: map<string, Val>, a: Results, x: seq<string>, b: Results, y: seq<string>)
    requires Sure(lib, m) && Agree(lib, m) && Way(lib, m, a, x) && Way(lib, m, b, y)
    ensures Final(a, x) == Final(b, y)
  {
    SureSucceeds(lib, m, a, x);
    SureSucceeds(lib, m, b, y);
    SameEntries(lib, m, a, x, b, y);
    SameEntries(lib, m, b, y, a, x);
    SameMaps(Decoded(InOrder(a, x).value), Decoded(InOrder(b, y).value));
  }

  lemma SameEntries(lib: Lib, m: map<string, Val>, a: Results, x: seq<string>, b: Results, y: seq<string>)
    requires Agree(lib, m) && Way(lib, m, a, x) && Way(lib, m, b, y) && InOrder(a, x).Some? && InOrder(b, y).Some?
    ensures var s, t := Decoded(InOrder(a, x).value), Decoded(InOrder(b, y).value);
            forall p :: p in s ==> p in t && t[p] == s[p]
  {
    var s, t := InOrder(a, x).value, InOrder(b, y).value;
    WayIsOutcome(lib, m, a, x);
    WayIsOutcome(lib, m, b, y);
    FinalIsDecided(a, x);
    FinalIsDecided(b, y);
    forall p | p in s ensures p in t && t[p] == s[p] {
      var j :| Decides(a.Keys, j) && Prefix(j) == p && a[j] == s[p];
      assert p in t;
      var k :| Decides(b.Keys, k) && Prefix(k) == p && b[k] == t[p];
      assert EntryOutcome(lib, j, m[j], a[j]) && EntryOutcome(lib, k, m[k], b[k]);
    }
  }

  // ---- two results

  // A key that may fail, next to none that must: visited first it is an error, and there is
  // an order without one.
  lemma MayFail(lib: Lib, m: map<string, Val>, k: string)
    requires !Doomed(lib, m) && k in m && EntryOutcome(lib, k, m[k], None)
    ensures Outcome(lib, Msi(m), None) && !OneOutcome(lib, Msi(m))
  {
    var e := BestResults(lib, m);
    FailsFirst(lib, m, e, k);
    forall d | Decides(m.Keys, d) ensures e[d].Some? {
    }
    var order := SuffixedFirst(e);
    WayIsOutcome(lib, m, e, order);
  }

  lemma FailsFirst(lib: Lib, m: map<string, Val>, e: Results, k: string)
    requires ResultsOf(lib, Msi(m), e) && e.Keys == m.Keys && k in m && EntryOutcome(lib, k, m[k], None)
    ensures Outcome(lib, Msi(m), None)
  {
    var e1 := e[k := None];
    OtherResult(lib, m, e, k, None);
    var rest := Listing(m.Keys - {k});
    IsOrderOf(m.Keys, [k] + rest);
    InOrderSnoc(e1, [], k);
    assert [] + [k] == [k];
    ErrorsStay(e1, [k], rest);
    WayIsOutcome(lib, m, e1, [k] + rest);
  }

  // A deciding key can leave any result it can have: it is visited last.
  lemma CanLeave(lib: Lib, m: map<string, Val>, k: string, w: Val) returns (r: map<string, Val>)
    requires Sure(lib, m) && Decides(m.Keys, k) && EntryOutcome(lib, k, m[k], Some(w))
    ensures Outcome(lib, Msi(m), Some(Msi(r))) && Prefix(k) in r && r[Prefix(k)] == w
  {
    var e := BestResults(lib, m);
    OtherResult(lib, m, e, k, Some(w));
    e := e[k := Some(w)];
    var front := EndingWith(m.Keys, k);
    WayIsOutcome(lib, m, e, front + [k]);
    NoFailure(e, front);
    LastWins(e, front, k);
    r := Decoded(InOrder(e, front + [k]).value);
  }

  // Two results of keys that decide one text: either can be the one that stays.
  lemma ResultsDiverge(lib: Lib, m: map<string, Val>, j: string, v: Val, k: string, w: Val)
    requires Sure(lib, m) && Decides(m.Keys, j) && Decides(m.Keys, k) && Prefix(j) == Prefix(k) && v != w
    requires EntryOutcome(lib, j, m[j], Some(v)) && EntryOutcome(lib, k, m[k], Some(w))
    ensures !OneOutcome(lib, Msi(m))
  {
    var a := CanLeave(lib, m, j, v);
    var b := CanLeave(lib, m, k, w);
  }

  // All orders of visits give one result, failure included, if and only if some deciding key
  // fails whatever the orders inside it; or all keys are decoded, whatever these orders, and
  // the keys that decide one text have one result between them.
  lemma OrderFreeExactly(lib: Lib, m: map<string, Val>)
    ensures OneOutcome(lib, Msi(m)) <==> Doomed(lib, m) || (Sure(lib, m) && Agree(lib, m))
  {
    if Doomed(lib, m) {
      forall r | Outcome(lib, Msi(m), r) ensures r.None? {
        DoomedFails(lib, m, r);
      }
    } else if !Sure(lib, m) {
      var k, w :| k in m && EntryOutcome(lib, k, m[k], w) && w.None?;
      MayFail(lib, m, k);
    } else if !Agree(lib, m) {
      var j, k, v, w :| Decides(m.Keys, j) && Decides(m.Keys, k) && Prefix(j) == Prefix(k) &&
                        EntryOutcome(lib, j, m[j], v) && EntryOutcome(lib, k, m[k], w) && v != w;
      ResultsDiverge(lib, m, j, v.value, k, w.value);
    } else {
      forall a, b | Outcome(lib, Msi(m), a) && Outcome(lib, Msi(m), b) ensures a == b {
        var d, x := WayOf(lib, m, a);
        var e, y := WayOf(lib, m, b);
        SameFinal(lib, m, d, x, e, y);
      }
    }
  }

  // A map under a plain key, with no suffixed key to replace it, brings its orders along.
  lemma InsideCounts(lib: Lib, m: map<string, Val>, k: string)
    requires Decides(m.Keys, k) && ':' !in k && !Doomed(lib, m) && !OneOutcome(lib, m[k])
    ensures !OneOutcome(lib, Msi(m))
  {
    var a, b :| Outcome(lib, m[k], a) && Outcome(lib, m[k], b) && a != b;
    FinishPlain(lib, k, a);
    FinishPlain(lib, k, b);
    EntryOutcomeOf(lib, k, m[k], a);
    EntryOutcomeOf(lib, k, m[k], b);
    assert !Agree(lib, m);
    OrderFreeExactly(lib, m);
  }

  // ---- an input

  function TwoKeys(k: string, s: string, t: string): map<string, Val> {
    map[k + ":" + "bytes" := Str(s), k + ":" + "string" := Bytes(t)]
  }

  // What is not a map has one outcome.
  lemma ScalarEntry(lib: Lib, key: string, v: Val, w: Option<Val>)
    requires !v.Msi?
    ensures EntryOutcome(lib, key, v, w) <==> w == DecodeEntry(lib, key, v)
  {
    EntryOutcomeOf(lib, key, v, Some(v));
  }

  // k:bytes and k:string in one map: k ends as bytes or as a string.
  lemma TwoKeysCollide(lib: Lib, k: string, s: string, t: string)
    requires ':' !in k
    ensures Sure(lib, TwoKeys(k, s, t)) && !OneOutcome(lib, Msi(TwoKeys(k, s, t)))
  {
    BytesToken(lib, Str(s));
    StringToken(lib, Bytes(t));
    OneToken(lib, k, "bytes", Str(s));
    OneToken(lib, k, "string", Bytes(t));
    var i, j := k + ":" + "bytes", k + ":" + "string";
    assert i[|k|] == ':' && j[|k|] == ':';
    Collide(lib, i, Str(s), Bytes(s), j, Bytes(t), Str(t));
  }

  lemma Collide(lib: Lib, i: string, v: Val, v': Val, j: string, w: Val, w': Val)
    requires ':' in i && ':' in j && i != j && Prefix(i) == Prefix(j) && !v.Msi? && !w.Msi? && v' != w'
    requires DecodeEntry(lib, i, v) == Some(v') && DecodeEntry(lib, j, w) == Some(w')
    ensures Sure(lib, map[i := v, j := w]) && !OneOutcome(lib, Msi(map[i := v, j := w]))
  {
    var m := map[i := v, j := w];
    forall k, u | k in m && EntryOutcome(lib, k, m[k], u) ensures u.Some? {
      ScalarEntry(lib, k, m[k], u);
    }
    ScalarEntry(lib, i, v, Some(v'));
    ScalarEntry(lib, j, w, Some(w'));
    ResultsDiverge(lib, m, i, v', j, w');
  }

  // The same one level down: the map around it repeats no text, and still depends on the order.
  lemma TwoKeysInside(lib: Lib, a: string, k: string, s: string, t: string)
    requires ':' !in a && ':' !in k
    ensures !OneOutcome(lib, Msi(map[a := Msi(TwoKeys(k, s, t))]))
  {
    var inner := TwoKeys(k, s, t);
    var m := map[a := Msi(inner)];
    TwoKeysCollide(lib, k, s, t);
    assert Decides(m.Keys, a);
    SureOutcome(lib, inner);
    var r :| Outcome(lib, m[a], Some(r));
    EntryOutcomeOf(lib, a, m[a], Some(r));
    FinishPlain(lib, a, Some(r));
    assert !Doomed(lib, m);
    InsideCounts(lib, m, a);
  }

  lemma SureOutcome(lib: Lib, m: map<string, Val>)
    requires Sure(lib, m)
    ensures exists r :: Outcome(lib, Msi(m), Some(r))
  {
    var e := BestResults(lib, m);
    var order := Listing(m.Keys);
    IsOrderOf(m.Keys, order);
    WayIsOutcome(lib, m, e, order);
    SureSucceeds(lib, m, e, order);
    assert Outcome(lib, Msi(m), Some(Final(e, order).value));
  }
}
