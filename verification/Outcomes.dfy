// What decoding a nested map can give: one order of visits for each map in it.
module Outcomes {
  import opened Prelude
  import opened Text
  import opened Normalize
  import opened Visits

  // Decoding v can give r; None for an error.  In a map each entry is decoded inside and
  // then by the decoders its key names, and the keys are visited in some order.
  ghost predicate Outcome(lib: Lib, v: Val, r: Option<Val>)
    decreases v, 2
  {
    if !v.Msi? then r == Some(v)
    else exists e: Results, order: seq<string> :: IsOrder(v.m.Keys, order) && ResultsOf(lib, v, e) && r == Final(e, order)
  }

  // Each entry of the map can decode to this.
  ghost predicate ResultsOf(lib: Lib, v: Val, e: Results)
    requires v.Msi?
    decreases v, 1
  {
    e.Keys == v.m.Keys && forall k :: k in v.m ==> EntryOutcome(lib, k, v.m[k], e[k])
  }

  ghost predicate EntryOutcome(lib: Lib, key: string, v: Val, w: Option<Val>)
    decreases v, 3
  {
    exists d :: Outcome(lib, v, d) && w == Finish(lib, key, d)
  }

  // ---- there is always an outcome

  // A result of the entry, and not an error if there is another.
  ghost function BestResult(lib: Lib, key: string, v: Val): (w: Option<Val>)
    requires exists u :: EntryOutcome(lib, key, v, u)
    ensures EntryOutcome(lib, key, v, w)
    ensures w.None? ==> forall u :: EntryOutcome(lib, key, v, u) ==> u.None?
  {
    if exists u :: EntryOutcome(lib, key, v, u) && u.Some? then
      var u :| EntryOutcome(lib, key, v, u) && u.Some?;
      u
    else
      var u :| EntryOutcome(lib, key, v, u);
      u
  }

  lemma OutcomeOf(lib: Lib, v: Val, e: Results, order: seq<string>)
    requires v.Msi? && ResultsOf(lib, v, e) && IsOrder(v.m.Keys, order)
    ensures Outcome(lib, v, Final(e, order))
  {
  }

  lemma EntryOutcomeOf(lib: Lib, key: string, v: Val, d: Option<Val>)
    requires Outcome(lib, v, d)
    ensures EntryOutcome(lib, key, v, Finish(lib, key, d))
  {
  }

  lemma {:induction false} SomeOutcome(lib: Lib, v: Val)
    ensures exists r :: Outcome(lib, v, r)
    decreases v
  {
    if !v.Msi? {
      assert Outcome(lib, v, Some(v));
    } else {
      forall k | k in v.m ensures exists u :: EntryOutcome(lib, k, v.m[k], u) {
        SomeOutcome(lib, v.m[k]);
        var d :| Outcome(lib, v.m[k], d);
        EntryOutcomeOf(lib, k, v.m[k], d);
      }
      var e: Results := map k | k in v.m :: BestResult(lib, k, v.m[k]);
      assert e.Keys == v.m.Keys;
      var order := Listing(v.m.Keys);
      IsOrderOf(v.m.Keys, order);
      OutcomeOf(lib, v, e, order);
    }
  }

  lemma SomeEntryOutcome(lib: Lib, key: string, v: Val)
    ensures exists u :: EntryOutcome(lib, key, v, u)
  {
    SomeOutcome(lib, v);
    var d :| Outcome(lib, v, d);
    EntryOutcomeOf(lib, key, v, d);
  }

  ghost predicate AreBest(lib: Lib, m: map<string, Val>, e: Results) {
    e.Keys == m.Keys &&
    forall k :: k in m && e[k].None? ==> forall u :: EntryOutcome(lib, k, m[k], u) ==> u.None?
  }

  lemma BestResults(lib: Lib, m: map<string, Val>) returns (e: Results)
    ensures ResultsOf(lib, Msi(m), e) && AreBest(lib, m, e)
  {
    forall k | k in m ensures exists u :: EntryOutcome(lib, k, m[k], u) {
      SomeEntryOutcome(lib, k, m[k]);
    }
    e := map k | k in m :: BestResult(lib, k, m[k]);
    assert e.Keys == m.Keys && Msi(m).m == m;
  }

  // One entry may have another result.
  lemma OtherResult(lib: Lib, m: map<string, Val>, e: Results, k: string, w: Option<Val>)
    requires ResultsOf(lib, Msi(m), e) && k in m && EntryOutcome(lib, k, m[k], w)
    ensures ResultsOf(lib, Msi(m), e[k := w])
  {
    assert Msi(m).m == m && e[k := w].Keys == e.Keys;
  }

  // ---- what is decoded is clean

  lemma FinishIsClean(lib: Lib, key: string, d: Val)
    requires Clean(d)
    ensures var w := Finish(lib, key, Some(d)); w.Some? ==> Clean(w.value)
  {
    var tokens := Split(key, ':');
    ChainKeepsMaps(lib, tokens, |tokens| - 1, d);
  }

  // No key of a decoded map has a ':' at any depth.
  lemma {:induction false} OutcomeIsClean(lib: Lib, v: Val, w: Val)
    requires Outcome(lib, v, Some(w))
    ensures Clean(w)
    decreases v
  {
    if v.Msi? {
      var e: Results, order :| IsOrder(v.m.Keys, order) && ResultsOf(lib, v, e) && Some(w) == Final(e, order);
      forall k | k in e && e[k].Some? ensures Clean(e[k].value) {
        EntryIsCleanBy(lib, v, k, e[k].value);
      }
      FinalIsClean(e, order);
    }
  }

  lemma {:induction false} EntryIsCleanBy(lib: Lib, v: Val, k: string, w: Val)
    requires v.Msi? && k in v.m && EntryOutcome(lib, k, v.m[k], Some(w))
    ensures Clean(w)
    decreases v, 0
  {
    var d :| Outcome(lib, v.m[k], d) && Some(w) == Finish(lib, k, d);
    OutcomeIsClean(lib, v.m[k], d.value);
    FinishIsClean(lib, k, d.value);
  }

  lemma FinalIsClean(e: Results, order: seq<string>)
    requires InOrder(e, order).Some? && forall k :: k in e && e[k].Some? ==> Clean(e[k].value)
    ensures Clean(Final(e, order).value)
  {
    var out := InOrder(e, order).value;
    InOrderTracks(e, order);
    var w := Msi(Decoded(out));
    forall p | p in w.m ensures ':' !in p && Clean(w.m[p]) {
      assert Sourced(e, order, p, out[p]);
      if FromSuffixed(e, order, p, out[p]) {
        var j :| j in order && Suffixed(e.Keys, j) && Prefix(j) == p && e[j] == out[p];
        PrefixIs(j);
      }
    }
  }

  // ---- maps that decode in one way only

  // Each entry can only decode to what the function says.
  ghost predicate OnlyEntries(lib: Lib, m: map<string, Val>) {
    forall k, w :: k in m && EntryOutcome(lib, k, m[k], w) ==> w == DecodeEntry(lib, k, m[k])
  }

  // With distinct prefixes at every depth the outcome is that of a function of the map.
  lemma {:induction false} DistinctOutcome(lib: Lib, v: Val, r: Option<Val>)
    requires Distinct(v)
    ensures Outcome(lib, v, r) <==> r == DecodeVal(lib, v)
    decreases v
  {
    if v.Msi? {
      forall k, w | k in v.m && EntryOutcome(lib, k, v.m[k], w) ensures w == DecodeEntry(lib, k, v.m[k]) {
        var d :| Outcome(lib, v.m[k], d) && w == Finish(lib, k, d);
        DistinctOutcome(lib, v.m[k], d);
      }
      OneFinal(lib, v.m, r);
    }
  }

  lemma OneFinal(lib: Lib, m: map<string, Val>, r: Option<Val>)
    requires Distinct(Msi(m)) && OnlyEntries(lib, m)
    ensures Outcome(lib, Msi(m), r) <==> r == DecodeVal(lib, Msi(m))
  {
    forall a | Outcome(lib, Msi(m), a) ensures a == DecodeVal(lib, Msi(m)) {
      OnlyFinal(lib, m, a);
    }
    SomeOutcome(lib, Msi(m));
  }

  lemma OnlyFinal(lib: Lib, m: map<string, Val>, a: Option<Val>)
    requires Distinct(Msi(m)) && OnlyEntries(lib, m) && Outcome(lib, Msi(m), a)
    ensures a == DecodeVal(lib, Msi(m))
  {
    var v := Msi(m);
    var e: Results, order :| IsOrder(v.m.Keys, order) && ResultsOf(lib, v, e) && a == Final(e, order);
    forall k | k in m ensures e[k] == DecodeEntry(lib, k, m[k]) {
      assert k in v.m && EntryOutcome(lib, k, v.m[k], e[k]);
    }
    DistinctFinal(lib, m, e, order);
  }

  lemma DistinctDecides(m: map<string, Val>, k: string)
    requires Distinct(Msi(m)) && k in m
    ensures Decides(m.Keys, k)
  {
    PrefixIs(k);
    forall j | Suffixed(m.Keys, j) && ':' !in k ensures Prefix(j) != k {
      assert j in Msi(m).m && k in Msi(m).m;
    }
  }

  lemma DistinctFinal(lib: Lib, m: map<string, Val>, e: Results, order: seq<string>)
    requires Distinct(Msi(m)) && IsOrder(m.Keys, order) && e.Keys == m.Keys
    requires forall k :: k in m ==> e[k] == DecodeEntry(lib, k, m[k])
    ensures Final(e, order) == DecodeVal(lib, Msi(m))
  {
    forall k | k in m ensures Decides(m.Keys, k) {
      DistinctDecides(m, k);
    }
    if k :| k in m && e[k].None? {
      DeciderFails(e, order, k);
      assert k in Msi(m).m;
    } else {
      NoFailure(e, order);
      DistinctIs(lib, m, e, order);
    }
  }

  lemma DistinctIs(lib: Lib, m: map<string, Val>, e: Results, order: seq<string>)
    requires Distinct(Msi(m)) && IsOrder(m.Keys, order) && e.Keys == m.Keys && InOrder(e, order).Some?
    requires forall k :: k in m ==> e[k] == DecodeEntry(lib, k, m[k]) && e[k].Some? && Decides(m.Keys, k)
    ensures DecodeVal(lib, Msi(m)) == Final(e, order)
  {
    var out := InOrder(e, order).value;
    FinalIsDecided(e, order);
    forall j, k | j in m && k in m && Prefix(j) == Prefix(k) ensures j == k {
      assert j in Msi(m).m && k in Msi(m).m;
    }
    forall k | k in m ensures Prefix(k) in out && out[Prefix(k)] == e[k] {
      var j :| Decides(e.Keys, j) && Prefix(j) == Prefix(k) && e[j] == out[Prefix(k)];
    }
    forall p | p in Decoded(out) ensures p in Prefixes(m) {
      var j :| Decides(e.Keys, j) && Prefix(j) == p && e[j] == out[p];
    }
    DecodeIs(lib, m, Decoded(out));
  }

  // A map without ':' in its keys is decoded to itself.
  lemma CleanOutcome(lib: Lib, v: Val, r: Option<Val>)
    requires Clean(v)
    ensures Outcome(lib, v, r) <==> r == Some(v)
  {
    CleanIsFixed(lib, v);
    DistinctOutcome(lib, v, r);
  }

  // Decoding a second time changes nothing.
  lemma DecodeTwice(lib: Lib, v: Val, w: Val, r: Option<Val>)
    requires Outcome(lib, v, Some(w))
    ensures Outcome(lib, w, r) <==> r == Some(w)
  {
    OutcomeIsClean(lib, v, w);
    CleanOutcome(lib, w, r);
  }
}
