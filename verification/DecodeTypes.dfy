// The decoder as it runs: a loop over a map whose keys it replaces, in any order.
module DecodeTypes {
  import opened Prelude
  import opened Text
  import opened Normalize
  import opened Visits
  import opened Outcomes

  // A bound on the depth of nested maps.
  ghost predicate Fits(v: Val, depth: nat)
    decreases depth
  {
    v.Msi? ==> depth > 0 && forall k :: k in v.m ==> Fits(v.m[k], depth - 1)
  }

  lemma {:induction false} FitsDeeper(v: Val, d: nat, e: nat)
    requires Fits(v, d) && d <= e
    ensures Fits(v, e)
    decreases d
  {
    if v.Msi? {
      forall k | k in v.m ensures Fits(v.m[k], e - 1) {
        FitsDeeper(v.m[k], d - 1, e - 1);
      }
    }
  }

  // Every value has a depth.
  lemma {:induction false} DepthOf(v: Val) returns (depth: nat)
    ensures Fits(v, depth)
    decreases v
  {
    depth := 0;
    if v.Msi? {
      depth := 1;
      var rest := v.m.Keys;
      while rest != {}
        invariant depth > 0
        invariant forall k :: k in v.m && k !in rest ==> Fits(v.m[k], depth - 1)
        invariant rest <= v.m.Keys
      {
        var key :| key in rest;
        var d := DepthOf(v.m[key]);
        var deeper := if d + 1 > depth then d + 1 else depth;
        forall k | k in v.m && k !in rest - {key} ensures Fits(v.m[k], deeper - 1) {
          FitsDeeper(v.m[k], if k == key then d else depth - 1, deeper - 1);
        }
        depth := deeper;
        rest := rest - {key};
      }
    }
  }

  // The loop over the tokens of a key, last first; None for an error.
  method DecodeTokens(lib: Lib, tokens: seq<string>, val: Val) returns (r: Option<Val>)
    requires |tokens| >= 1
    ensures r == Chain(lib, tokens, |tokens| - 1, val)
  {
    var targetData := val;
    var i := |tokens| - 1;
    while i >= 1
      invariant 0 <= i < |tokens|
      invariant Chain(lib, tokens, |tokens| - 1, val) == Chain(lib, tokens, i, targetData)
    {
      var w := DecodeToken(lib, tokens[i], targetData);
      if w.None? {
        return None;
      }
      targetData := w.value;
      i := i - 1;
    }
    return Some(targetData);
  }

  // A visit replaces the key's entry by a decoded value, under the text before the first ':'.
  ghost predicate Replaced(lib: Lib, data: map<string, Val>, key: string, depth: nat, ok: bool, out: map<string, Val>)
    requires key in data
  {
    var p := Prefix(key);
    (ok ==> p in out && out == (data - {key})[p := out[p]] && Fits(out[p], depth)) &&
    EntryOutcome(lib, key, data[key], if ok then Some(out[p]) else None)
  }

  // One turn of the loop.
  method VisitKey(lib: Lib, data: map<string, Val>, key: string, ghost depth: nat) returns (ok: bool, out: map<string, Val>)
    requires key in data && Fits(data[key], depth)
    ensures Replaced(lib, data, key, depth, ok, out)
    decreases depth, 3
  {
    var val;
    ok, val := DecodeNested(lib, data[key], depth);
    EntryOutcomeOf(lib, key, data[key], if ok then Some(val) else None);
    if !ok {
      return false, data;
    }
    ok, out := ReplaceKey(lib, data[key := val], key, depth);
    assert data[key := val] - {key} == data - {key};
  }

  // If the value is a map, it is decoded.
  method DecodeNested(lib: Lib, v: Val, ghost depth: nat) returns (ok: bool, val: Val)
    requires Fits(v, depth)
    ensures ok ==> Fits(val, depth)
    ensures Outcome(lib, v, if ok then Some(val) else None)
    decreases depth, 2
  {
    if !v.Msi? {
      return true, v;
    }
    var m;
    ok, m := DecodeTypes(lib, v.m, depth);
    val := Msi(m);
  }

  // The turn after its nested map, if any, has been decoded.
  method ReplaceKey(lib: Lib, data: map<string, Val>, key: string, ghost depth: nat) returns (ok: bool, out: map<string, Val>)
    requires key in data && Fits(data[key], depth)
    ensures var p := Prefix(key);
            (ok ==> p in out && out == (data - {key})[p := out[p]] && Fits(out[p], depth)) &&
            Finish(lib, key, Some(data[key])) == if ok then Some(out[p]) else None
  {
    var tokens := Split(key, ':');
    SplitSize(key, ':');
    if |tokens| < 2 {
      PrefixIs(key);
      assert data == (data - {key})[key := data[key]];
      return true, data;
    }
    var targetData := DecodeTokens(lib, tokens, data[key]);
    if targetData.None? {
      return false, data;
    }
    ChainKeepsMaps(lib, tokens, |tokens| - 1, data[key]);
    PrefixIs(key);
    SameMap(data, key, data[key], tokens[0], targetData.value);
    out := data[tokens[0] := targetData.value];
    out := out - {key};
    return true, out;
  }

  lemma SameMap(m: map<string, Val>, key: string, v: Val, p: string, w: Val)
    requires key != p
    ensures m[p := w] - {key} == (m - {key})[p := w] && m[key := v][p := w] - {key} == (m - {key})[p := w]
  {
  }

  // ---- the loop

  // The map on the way, with the values of the entries that are still as they were.
  ghost function Values(data: map<string, Val>, out: Slots): map<string, Val> {
    map k | k in out && (out[k].Some? || k in data) :: if out[k].Some? then out[k].value else data[k]
  }

  // The order so far has visited each key that is not pending once, and added ones besides.
  ghost predicate VisitedOnce(keys: set<string>, pending: set<string>, order: seq<string>) {
    pending <= keys && (forall k :: k in keys ==> multiset(order)[k] == if k in pending then 0 else 1) &&
    (forall k :: k in order ==> k in keys || ':' !in k)
  }

  ghost predicate Added(keys: set<string>, added: set<string>, order: seq<string>) {
    forall k :: k in added ==> k !in keys && Hit(keys, order, k)
  }

  // The loop is where visiting the keys in this order leads, with these results of the entries.
  ghost predicate Going(lib: Lib, data: map<string, Val>, pending: set<string>, added: set<string>, out: map<string, Val>,
                        e: Results, order: seq<string>, depth: nat) {
    && ResultsOf(lib, Msi(data), e) && InOrder(e, order).Some? && out == Values(data, InOrder(e, order).value)
    && VisitedOnce(data.Keys, pending, order) && Added(data.Keys, added, order)
    && forall k :: k in out ==> Fits(out[k], depth)
  }

  // What the loop knows of a key it visits: it is still as it was, or was decoded already.
  lemma AtKey(lib: Lib, data: map<string, Val>, pending: set<string>, added: set<string>, out: map<string, Val>,
              e: Results, order: seq<string>, depth: nat, key: string)
    requires Going(lib, data, pending, added, out, e, order, depth) && key in pending + added
    ensures var slots := InOrder(e, order).value;
            key in slots && key in out &&
            if slots[key].None? then key in data && key !in order && out[key] == data[key]
            else ':' !in key && slots[key] == Some(out[key]) && Clean(out[key])
  {
    var slots := InOrder(e, order).value;
    InOrderTracks(e, order);
    assert e.Keys == data.Keys;
    assert Sourced(e, order, key, slots[key]);
    if slots[key].Some? {
      SourceIsClean(lib, data, e, order, key, slots[key].value);
    }
  }

  lemma SourceIsClean(lib: Lib, data: map<string, Val>, e: Results, order: seq<string>, p: string, v: Val)
    requires ResultsOf(lib, Msi(data), e) && Sourced(e, order, p, Some(v))
    ensures ':' !in p && Clean(v)
  {
    if FromSuffixed(e, order, p, Some(v)) {
      var j :| j in order && Suffixed(e.Keys, j) && Prefix(j) == p && e[j] == Some(v);
      PrefixIs(j);
      EntryIsCleanBy(lib, Msi(data), j, v);
    } else {
      EntryIsCleanBy(lib, Msi(data), p, v);
    }
  }

  // The loop after the visit of a key that was still as it was.
  lemma FirstVisit(lib: Lib, data: map<string, Val>, pending: set<string>, added: set<string>, out: map<string, Val>,
                   e: Results, order: seq<string>, depth: nat, key: string, w: Option<Val>)
    requires Going(lib, data, pending, added, out, e, order, depth) && key in data && key !in order
    requires InOrder(e, order).value.Keys >= {key} && InOrder(e, order).value[key].None? && EntryOutcome(lib, key, data[key], w)
    ensures var e1 := e[key := w];
            ResultsOf(lib, Msi(data), e1) && InOrder(e1, order) == InOrder(e, order) &&
            InOrder(e1, order + [key]) == VisitOne(e1, InOrder(e, order).value, key)
  {
    OtherResult(lib, data, e, key, w);
    NotYet(e, order, key, w);
    InOrderSnoc(e[key := w], order, key);
  }

  lemma ValuesStep(data: map<string, Val>, slots: Slots, key: string, w: Val)
    requires key in slots
    ensures Values(data, (slots - {key})[Prefix(key) := Some(w)]) == (Values(data, slots) - {key})[Prefix(key) := w]
  {
  }

  // After an error the other keys may as well be visited.
  lemma Unfinished(lib: Lib, data: map<string, Val>, pending: set<string>, e: Results, order: seq<string>, key: string)
    requires ResultsOf(lib, Msi(data), e) && VisitedOnce(data.Keys, pending, order) && key in pending
    requires InOrder(e, order + [key]).None?
    ensures Outcome(lib, Msi(data), None)
  {
    var rest := Listing(pending - {key});
    var all := order + [key] + rest;
    ErrorsStay(e, order + [key], rest);
    forall k | k in all ensures k in data || ':' !in k {
      if k in rest {
        assert multiset(rest)[k] > 0;
      }
    }
    assert IsOrder(data.Keys, all);
    OutcomeOf(lib, Msi(data), e, all);
  }

  lemma VisitedMore(keys: set<string>, pending: set<string>, order: seq<string>, key: string)
    requires VisitedOnce(keys, pending, order) && (key in pending || (key !in keys && ':' !in key))
    ensures VisitedOnce(keys, pending - {key}, order + [key])
  {
  }

  // The keys the runtime may still hand out: a key inserted by the visit is one of them.
  lemma AddedMore(keys: set<string>, added: set<string>, order: seq<string>, key: string, out: map<string, Val>)
    requires Added(keys, added, order) && key in keys && (Prefix(key) !in out ==> ':' in key && Prefix(key) !in keys)
    ensures Added(keys, if Prefix(key) in out then added else added + {Prefix(key)}, order + [key])
  {
    forall k | k in added ensures Hit(keys, order + [key], k) {
      HitMore(keys, order, key, k);
    }
    if Prefix(key) !in out {
      HitMore(keys, order, key, Prefix(key));
    }
  }

  // A pending key is visited for the first time.
  lemma VisitTurn(lib: Lib, data: map<string, Val>, pending: set<string>, added: set<string>, out: map<string, Val>,
                  e: Results, order: seq<string>, depth: nat, key: string, ok: bool, out1: map<string, Val>)
    requires Going(lib, data, pending, added, out, e, order, depth) && key in pending && key in out
    requires InOrder(e, order).value.Keys >= {key} && InOrder(e, order).value[key].None?
    requires key in data && key !in order && out[key] == data[key] && Replaced(lib, out, key, depth, ok, out1)
    ensures ok ==> Going(lib, data, pending - {key}, if Prefix(key) in out then added else added + {Prefix(key)}, out1,
                         e[key := Some(out1[Prefix(key)])], order + [key], depth)
    ensures !ok ==> Outcome(lib, Msi(data), None)
  {
    var w := if ok then Some(out1[Prefix(key)]) else None;
    var slots := InOrder(e, order).value;
    FirstVisit(lib, data, pending, added, out, e, order, depth, key, w);
    if ok {
      ValuesStep(data, slots, key, w.value);
      VisitedMore(data.Keys, pending, order, key);
      PlainStays(e, order, key, out);
      AddedMore(data.Keys, added, order, key, out);
    } else {
      Unfinished(lib, data, pending, e[key := w], order, key);
    }
  }

  // A plain key of the map never leaves it.
  lemma PlainStays(e: Results, order: seq<string>, key: string, out: map<string, Val>)
    requires InOrder(e, order).Some? && key in e && key in out
    requires forall k :: k in InOrder(e, order).value && k in e ==> k in out
    ensures Prefix(key) !in out ==> ':' in key && Prefix(key) !in e
  {
    InOrderTracks(e, order);
    PrefixIs(key);
  }

  // A key is visited whose value was decoded already.
  lemma RevisitTurn(lib: Lib, data: map<string, Val>, pending: set<string>, added: set<string>, out: map<string, Val>,
                    e: Results, order: seq<string>, depth: nat, key: string, ok: bool, out1: map<string, Val>)
    requires Going(lib, data, pending, added, out, e, order, depth) && key in pending + added && key in out
    requires key in InOrder(e, order).value && InOrder(e, order).value[key].Some? && ':' !in key && Clean(out[key])
    requires Replaced(lib, out, key, depth, ok, out1)
    ensures ok && Going(lib, data, pending - {key}, added - {key}, out1, e, order + [key], depth)
  {
    PrefixIs(key);
    CleanEntry(lib, key, out[key], if ok then Some(out1[key]) else None);
    assert out1 == out;
    InOrderSnoc(e, order, key);
    VisitedMore(data.Keys, pending, order, key);
    forall k | k in added ensures Hit(data.Keys, order + [key], k) {
      HitMore(data.Keys, order, key, k);
    }
  }

  lemma CleanEntry(lib: Lib, key: string, v: Val, w: Option<Val>)
    requires ':' !in key && Clean(v) && EntryOutcome(lib, key, v, w)
    ensures w == Some(v)
  {
    var d :| Outcome(lib, v, d) && w == Finish(lib, key, d);
    CleanOutcome(lib, v, d);
    FinishPlain(lib, key, d);
  }

  // A visit, whichever key it is to.
  lemma KeyTurn(lib: Lib, data: map<string, Val>, pending: set<string>, added: set<string>, out: map<string, Val>,
                e: Results, order: seq<string>, depth: nat, key: string, ok: bool, out1: map<string, Val>) returns (e1: Results)
    requires Going(lib, data, pending, added, out, e, order, depth) && key in pending + added && key in out
    requires Replaced(lib, out, key, depth, ok, out1)
    ensures ok ==> if key in pending
                   then Going(lib, data, pending - {key}, if Prefix(key) in out then added else added + {Prefix(key)}, out1,
                              e1, order + [key], depth)
                   else Going(lib, data, pending, added - {key}, out1, e1, order + [key], depth)
    ensures !ok ==> Outcome(lib, Msi(data), None)
  {
    AtKey(lib, data, pending, added, out, e, order, depth, key);
    if InOrder(e, order).value[key].None? {
      VisitTurn(lib, data, pending, added, out, e, order, depth, key, ok, out1);
      e1 := if ok then e[key := Some(out1[Prefix(key)])] else e;
    } else {
      RevisitTurn(lib, data, pending, added, out, e, order, depth, key, ok, out1);
      PrefixIs(key);
      e1 := e;
      assert if key in pending then added - {key} == added else pending - {key} == pending;
    }
  }

  // One turn of the loop, from out to out1, with the keys still to visit.
  method Turn(lib: Lib, ghost data: map<string, Val>, pending: set<string>, added: set<string>, out: map<string, Val>,
              ghost e: Results, ghost order: seq<string>, key: string, ghost depth: nat)
    returns (ok: bool, pending1: set<string>, added1: set<string>, out1: map<string, Val>, ghost e1: Results)
    requires Going(lib, data, pending, added, out, e, order, depth) && key in pending + added
    ensures ok ==> Going(lib, data, pending1, added1, out1, e1, order + [key], depth)
    ensures ok ==> |pending1| < |pending| || (pending1 == pending && |added1| < |added|)
    ensures !ok ==> Outcome(lib, Msi(data), None)
    decreases depth, 4
  {
    AtKey(lib, data, pending, added, out, e, order, depth, key);
    ok, out1 := VisitKey(lib, out, key, depth);
    e1 := KeyTurn(lib, data, pending, added, out, e, order, depth, key, ok, out1);
    if key in pending {
      pending1, added1 := pending - {key}, if Prefix(key) in out then added else added + {Prefix(key)};
    } else {
      pending1, added1 := pending, added - {key};
    }
  }

  lemma Started(lib: Lib, data: map<string, Val>, depth: nat) returns (e: Results)
    requires depth > 0 && Fits(Msi(data), depth)
    ensures Going(lib, data, data.Keys, {}, data, e, [], depth - 1)
  {
    e := BestResults(lib, data);
    assert Values(data, AsTheyWere(e.Keys)) == data;
    assert forall k :: k in Msi(data).m ==> Fits(data[k], depth - 1);
  }

  lemma Arrived(lib: Lib, data: map<string, Val>, added: set<string>, out: map<string, Val>, e: Results, order: seq<string>, depth: nat)
    requires Going(lib, data, {}, added, out, e, order, depth)
    ensures Outcome(lib, Msi(data), Some(Msi(out))) && Fits(Msi(out), depth + 1)
  {
    var slots := InOrder(e, order).value;
    assert e.Keys == data.Keys && IsOrder(data.Keys, order);
    FinalIsDecided(e, order);
    SameMaps(Decoded(slots), out);
    OutcomeOf(lib, Msi(data), e, order);
  }

  // The map is decoded in place: every key present at the start is visited, in an order the
  // runtime chooses, and so may be any key inserted on the way.
  method DecodeTypes(lib: Lib, data: map<string, Val>, ghost depth: nat) returns (ok: bool, out: map<string, Val>)
    requires Fits(Msi(data), depth)
    ensures ok ==> Fits(Msi(out), depth)
    ensures Outcome(lib, Msi(data), if ok then Some(Msi(out)) else None)
    decreases depth, 1
  {
    out := data;
    var pending, added := data.Keys, {};
    ghost var order: seq<string> := [];
    ghost var e := Started(lib, data, depth);
    var more: bool := *;
    while pending != {} || (more && added != {})
      invariant Going(lib, data, pending, added, out, e, order, depth - 1)
      decreases |pending|, |added|
    {
      more := *;
      var key :| key in pending + added;
      ok, pending, added, out, e := Turn(lib, data, pending, added, out, e, order, key, depth - 1);
      if !ok {
        return false, out;
      }
      order := order + [key];
    }
    Arrived(lib, data, added, out, e, order, depth - 1);
    return true, out;
  }

  // ---- copying

  method MsiDup(data: map<string, Val>, ghost depth: nat) returns (resp: map<string, Val>)
    requires Fits(Msi(data), depth)
    ensures resp == data
    decreases depth
  {
    resp := map[];
    var pending := data.Keys;
    while pending != {}
      invariant pending <= data.Keys
      invariant resp.Keys == data.Keys - pending && forall k :: k in resp ==> resp[k] == data[k]
    {
      var key :| key in pending;
      pending := pending - {key};
      if data[key].Msi? {
        var v := MsiDup(data[key].m, depth - 1);
        resp := resp[key := Msi(v)];
      } else {
        resp := resp[key := data[key]];
      }
    }
  }
}
