// Encoding of typed values in nested maps, and the round trip with decoding.
module EncodeTypes {
  import opened Prelude
  import opened Text
  import opened Normalize
  import opened Outcomes
  import opened DecodeTypes

  datatype Opts = Opts(bytesToB64: bool, compress: bool, compThreshold: int)

  function Compressed(lib: Lib, opts: Opts, b: string): bool {
    opts.compress && |b| >= opts.compThreshold && |lib.gzip(b)| < |b|
  }

  // What is appended to the key of a value.
  function Suffix(lib: Lib, opts: Opts, v: Val): string {
    match v
    case Bytes(b) => (if Compressed(lib, opts, b) then ":gzip" else "") + (if opts.bytesToB64 then ":b64" else "")
    case Dur(_) => ":dur"
    case Time(_) => ":time"
    case _ => ""
  }

  // What stands for the value.
  function Encoded(lib: Lib, opts: Opts, v: Val): Val {
    match v
    case Bytes(b) =>
      var c := if Compressed(lib, opts, b) then lib.gzip(b) else b;
      if opts.bytesToB64 then Str(lib.b64enc(c)) else Bytes(c)
    case Dur(d) => Str(lib.durText(d))
    case Time(ns) => Int(ns / NS_PER_MS)
    case _ => v
  }

  // ---- encoding a map, whatever the order

  // A key with a ':' stays.
  function EncodedKey(lib: Lib, opts: Opts, key: string, v: Val): string {
    if ':' in key then key else key + Suffix(lib, opts, v)
  }

  function EncodedKeys(lib: Lib, opts: Opts, m: map<string, Val>): set<string> {
    set k | k in m :: EncodedKey(lib, opts, k, m[k])
  }

  // A plain key's entry goes to this key, over whatever is there.
  predicate Claimed(lib: Lib, opts: Opts, m: map<string, Val>, e: string) {
    var p := Prefix(e);
    p in m && EncodedKey(lib, opts, p, m[p]) == e
  }

  function EncodeVal(lib: Lib, opts: Opts, v: Val): Val
    decreases v
  {
    if !v.Msi? then v
    else
      OthersStay(lib, opts, v.m);
      Msi(map e | e in EncodedKeys(lib, opts, v.m) ::
            if Claimed(lib, opts, v.m, e) then Encoded(lib, opts, EncodeVal(lib, opts, v.m[Prefix(e)]))
            else EncodeVal(lib, opts, v.m[e]))
  }

  lemma OthersStay(lib: Lib, opts: Opts, m: map<string, Val>)
    ensures forall e :: e in EncodedKeys(lib, opts, m) && !Claimed(lib, opts, m, e) ==> e in m && ':' in e
  {
    forall e | e in EncodedKeys(lib, opts, m) && !Claimed(lib, opts, m, e) ensures e in m && ':' in e {
      var k :| k in m && e == EncodedKey(lib, opts, k, m[k]);
      if ':' !in k {
        SuffixPrefix(lib, opts, k, m[k]);
      }
    }
  }

  lemma SuffixPrefix(lib: Lib, opts: Opts, k: string, v: Val)
    requires ':' !in k
    ensures Prefix(k + Suffix(lib, opts, v)) == k
  {
    var s := Suffix(lib, opts, v);
    if s == "" {
      assert k + s == k;
      PrefixIs(k);
    } else {
      assert k + s == k + ":" + s[1..];
      SplitCons(k, s[1..], ':');
    }
  }

  lemma EncodedKeysHavePrefix(lib: Lib, opts: Opts, m: map<string, Val>)
    requires Clean(Msi(m))
    ensures forall e :: e in EncodedKeys(lib, opts, m) ==>
              Prefix(e) in m && e == Prefix(e) + Suffix(lib, opts, m[Prefix(e)]) && Claimed(lib, opts, m, e)
  {
    var v := Msi(m);
    forall e | e in EncodedKeys(lib, opts, m)
      ensures Prefix(e) in m && e == Prefix(e) + Suffix(lib, opts, m[Prefix(e)]) && Claimed(lib, opts, m, e)
    {
      var k :| k in v.m && e == EncodedKey(lib, opts, k, m[k]);
      SuffixPrefix(lib, opts, k, m[k]);
    }
  }

  // ---- round trip

  // Instants with their fractions of a millisecond cut off.
  function Truncated(v: Val): Val
    decreases v
  {
    match v
    case Msi(m) => Msi(map k | k in v.m :: Truncated(v.m[k]))
    case Time(ns) => Time(ns / NS_PER_MS * NS_PER_MS)
    case _ => v
  }

  lemma TwoTokens(lib: Lib, k: string, t1: string, t2: string, v: Val)
    requires ':' !in k && ':' !in t1 && ':' !in t2 && !v.Msi?
    ensures var w := DecodeToken(lib, t2, v);
            DecodeEntry(lib, k + ":" + (t1 + ":" + t2), v) == if w.None? then None else DecodeToken(lib, t1, w.value)
  {
    SplitCons(k, t1 + ":" + t2, ':');
    SplitCons(t1, t2, ':');
    SplitNone(t2, ':');
    var tokens := Split(k + ":" + (t1 + ":" + t2), ':');
    assert tokens == [k, t1, t2];
    var w := DecodeToken(lib, tokens[2], v);
    if w.Some? {
      var u := DecodeToken(lib, tokens[1], w.value);
      assert Chain(lib, tokens, 1, w.value) == if u.None? then None else Chain(lib, tokens, 0, u.value);
    }
  }

  lemma DecodesB64(lib: Lib, b: string)
    requires Lawful(lib)
    ensures DecodeToken(lib, "b64", Str(lib.b64enc(b))) == Some(Bytes(b))
  {
    LowerIsSame("b64");
  }

  lemma DecodesGzip(lib: Lib, b: string)
    requires Lawful(lib)
    ensures DecodeToken(lib, "gzip", Bytes(lib.gzip(b))) == Some(Bytes(b))
  {
    LowerIsSame("gzip");
  }

  lemma DecodesDur(lib: Lib, d: int)
    requires Lawful(lib)
    ensures DecodeToken(lib, "dur", Str(lib.durText(d))) == Some(Dur(d))
  {
    LowerIsSame("dur");
  }

  lemma DecodesTime(lib: Lib, ms: int)
    requires Lawful(lib)
    ensures DecodeToken(lib, "time", Int(ms)) == Some(Time(ms * NS_PER_MS))
  {
    LowerIsSame("time");
  }

  lemma GzipB64(lib: Lib, k: string, b: string)
    requires Lawful(lib) && ':' !in k
    ensures DecodeEntry(lib, k + (":gzip" + ":b64"), Str(lib.b64enc(lib.gzip(b)))) == Some(Bytes(b))
  {
    DecodesGzip(lib, b);
    DecodesB64(lib, lib.gzip(b));
    TwoTokens(lib, k, "gzip", "b64", Str(lib.b64enc(lib.gzip(b))));
    SameText(k);
  }

  lemma SameText(k: string)
    ensures k + (":gzip" + ":b64") == k + ":" + ("gzip" + ":" + "b64")
  {
  }

  lemma GzipOnly(lib: Lib, k: string, b: string)
    requires Lawful(lib) && ':' !in k
    ensures DecodeEntry(lib, k + (":gzip" + ""), Bytes(lib.gzip(b))) == Some(Bytes(b))
  {
    DecodesGzip(lib, b);
    OneToken(lib, k, "gzip", Bytes(lib.gzip(b)));
    assert k + (":gzip" + "") == k + ":" + "gzip";
  }

  lemma B64Only(lib: Lib, k: string, b: string)
    requires Lawful(lib) && ':' !in k
    ensures DecodeEntry(lib, k + ("" + ":b64"), Str(lib.b64enc(b))) == Some(Bytes(b))
  {
    DecodesB64(lib, b);
    OneToken(lib, k, "b64", Str(lib.b64enc(b)));
    assert k + ("" + ":b64") == k + ":" + "b64";
  }

  lemma BytesRoundTrip(lib: Lib, opts: Opts, k: string, b: string)
    requires Lawful(lib) && ':' !in k
    ensures DecodeEntry(lib, k + Suffix(lib, opts, Bytes(b)), Encoded(lib, opts, Bytes(b))) == Some(Bytes(b))
  {
    GzipB64(lib, k, b);
    GzipOnly(lib, k, b);
    B64Only(lib, k, b);
    if !Compressed(lib, opts, b) && !opts.bytesToB64 {
      assert k + ("" + "") == k;
      PlainEntry(lib, k, Bytes(b));
    }
  }

  lemma DurRoundTrip(lib: Lib, k: string, d: int)
    requires Lawful(lib) && ':' !in k
    ensures DecodeEntry(lib, k + ":dur", Str(lib.durText(d))) == Some(Dur(d))
  {
    DecodesDur(lib, d);
    OneToken(lib, k, "dur", Str(lib.durText(d)));
    assert k + ":dur" == k + ":" + "dur";
  }

  lemma TimeRoundTrip(lib: Lib, k: string, ms: int)
    requires Lawful(lib) && ':' !in k
    ensures DecodeEntry(lib, k + ":time", Int(ms)) == Some(Time(ms * NS_PER_MS))
  {
    DecodesTime(lib, ms);
    OneToken(lib, k, "time", Int(ms));
    assert k + ":time" == k + ":" + "time";
  }

  // ---- what the encoder writes

  // An instant is written as the number of whole milliseconds that have passed, under a key that
  // ends in ":time"; a duration as text under one that ends in ":dur".
  lemma WritesTime(lib: Lib, opts: Opts, ns: int)
    ensures Suffix(lib, opts, Time(ns)) == ":time" && Encoded(lib, opts, Time(ns)).Int?
    ensures var ms := Encoded(lib, opts, Time(ns)).i; ms * 1_000_000 <= ns < (ms + 1) * 1_000_000
  {
  }

  lemma WritesDur(lib: Lib, opts: Opts, ns: int)
    ensures Suffix(lib, opts, Dur(ns)) == ":dur" && Encoded(lib, opts, Dur(ns)) == Str(lib.durText(ns))
  {
  }

  // Bytes are compressed if this is asked for, there are enough of them, and it makes them
  // shorter, and written as text if this is asked for; the key says which.
  lemma WritesBytes(lib: Lib, opts: Opts, b: string)
    ensures var v, suffix := Encoded(lib, opts, Bytes(b)), Suffix(lib, opts, Bytes(b));
            var shorter := opts.compress && opts.compThreshold <= |b| && |lib.gzip(b)| < |b|;
            && (shorter && opts.bytesToB64 ==> suffix == ":gzip:b64" && v == Str(lib.b64enc(lib.gzip(b))))
            && (shorter && !opts.bytesToB64 ==> suffix == ":gzip" && v == Bytes(lib.gzip(b)) && |v.s| < |b|)
            && (!shorter && opts.bytesToB64 ==> suffix == ":b64" && v == Str(lib.b64enc(b)))
            && (!shorter && !opts.bytesToB64 ==> suffix == "" && v == Bytes(b))
  {
    assert ":gzip" + ":b64" == ":gzip:b64" && ":gzip" + "" == ":gzip" && "" + ":b64" == ":b64" && "" + "" == "";
  }

  // Other values are written as they are.
  lemma WritesOthers(lib: Lib, opts: Opts, v: Val)
    requires v.Str? || v.Int? || v.Other? || v.Msi?
    ensures Suffix(lib, opts, v) == "" && Encoded(lib, opts, v) == v
  {
  }

  // What a round trip cuts off: an instant becomes the last whole millisecond before it, a map
  // keeps its keys, and other values stay.
  lemma TruncatedIs(v: Val)
    ensures v.Time? ==> var t := Truncated(v);
                        t.Time? && t.ns % 1_000_000 == 0 && t.ns <= v.ns < t.ns + 1_000_000
    ensures v.Msi? ==> var t := Truncated(v);
                       t.Msi? && t.m.Keys == v.m.Keys && forall k :: k in v.m ==> t.m[k] == Truncated(v.m[k])
    ensures !v.Time? && !v.Msi? ==> Truncated(v) == v
  {
  }

  // A value that is not a map is decoded to itself, up to the fraction of a millisecond.
  lemma EntryRoundTrip(lib: Lib, opts: Opts, k: string, v: Val)
    requires Lawful(lib) && ':' !in k && !v.Msi?
    ensures DecodeEntry(lib, k + Suffix(lib, opts, v), Encoded(lib, opts, v)) == Some(Truncated(v))
  {
    match v
    case Bytes(b) => BytesRoundTrip(lib, opts, k, b);
    case Dur(d) => DurRoundTrip(lib, k, d);
    case Time(t) => TimeRoundTrip(lib, k, t / NS_PER_MS);
    case Str(_) | Int(_) | Other(_) =>
      assert k + "" == k;
      PlainEntry(lib, k, v);
  }

  // Decoding what was encoded gives the values back, for every nested map without ':' in its
  // keys and all options.  Prefixes are distinct in what was encoded, so that the order of
  // visits does not matter for the decoding either.
  lemma {:induction false} RoundTrip(lib: Lib, opts: Opts, v: Val)
    requires Lawful(lib) && Clean(v) && v.Msi?
    ensures Distinct(EncodeVal(lib, opts, v)) && DecodeVal(lib, EncodeVal(lib, opts, v)) == Some(Truncated(v))
    decreases v
  {
    var m := v.m;
    forall k | k in m ensures EntryRestored(lib, opts, k, m[k]) {
      if m[k].Msi? {
        RoundTrip(lib, opts, m[k]);
        assert k + "" == k;
        PlainEntry(lib, k, EncodeVal(lib, opts, m[k]));
      } else {
        EntryRoundTrip(lib, opts, k, m[k]);
      }
    }
    MapRestored(lib, opts, m);
  }

  ghost predicate EntryRestored(lib: Lib, opts: Opts, k: string, v: Val)
    requires Clean(v)
  {
    var e := Encoded(lib, opts, EncodeVal(lib, opts, v));
    DecodeEntry(lib, k + Suffix(lib, opts, v), e) == Some(Truncated(v)) && Distinct(e)
  }

  lemma MapRestored(lib: Lib, opts: Opts, m: map<string, Val>)
    requires Clean(Msi(m)) && forall k :: k in Msi(m).m ==> EntryRestored(lib, opts, k, m[k])
    ensures Distinct(EncodeVal(lib, opts, Msi(m)))
    ensures DecodeVal(lib, EncodeVal(lib, opts, Msi(m))) == Some(Truncated(Msi(m)))
  {
    var v := Msi(m);
    var e, r := EncodeVal(lib, opts, v).m, Truncated(v).m;
    EncodedKeysHavePrefix(lib, opts, m);
    forall x | x in e
      ensures Prefix(x) in m && Distinct(e[x]) && DecodeEntry(lib, x, e[x]) == Some(r[Prefix(x)])
    {
      assert EntryRestored(lib, opts, Prefix(x), m[Prefix(x)]);
    }
    forall p | p in r ensures p in Prefixes(e) {
      SuffixPrefix(lib, opts, p, m[p]);
      assert p in v.m && EncodedKey(lib, opts, p, m[p]) == p + Suffix(lib, opts, m[p]);
      assert p + Suffix(lib, opts, m[p]) in EncodedKeys(lib, opts, m);
    }
    DecodeIs(lib, e, r);
  }

  // Decoding what was encoded can give a map back if and only if none of its keys has a ':',
  // at any depth, and then every order of visits gives it back.
  lemma RoundTripExactly(lib: Lib, opts: Opts, v: Val)
    requires Lawful(lib) && v.Msi?
    ensures Outcome(lib, EncodeVal(lib, opts, v), Some(Truncated(v))) <==> Clean(v)
    ensures Clean(v) ==> forall r :: Outcome(lib, EncodeVal(lib, opts, v), r) ==> r == Some(Truncated(v))
  {
    var e := EncodeVal(lib, opts, v);
    if Clean(v) {
      RoundTrip(lib, opts, v);
      forall r ensures Outcome(lib, e, r) <==> r == Some(Truncated(v)) {
        DistinctOutcome(lib, e, r);
      }
    } else if Outcome(lib, e, Some(Truncated(v))) {
      OutcomeIsClean(lib, e, Truncated(v));
      TruncatedIsClean(v);
    }
  }

  lemma {:induction false} TruncatedIsClean(v: Val)
    requires Clean(Truncated(v))
    ensures Clean(v)
    decreases v
  {
    if v.Msi? {
      var t := Truncated(v);
      forall k | k in v.m ensures ':' !in k && Clean(v.m[k]) {
        assert k in t.m && t.m[k] == Truncated(v.m[k]);
        TruncatedIsClean(v.m[k]);
      }
    }
  }

  // ---- entries that get lost

  // No plain key is sent to another key of the map.
  ghost predicate NoClash(lib: Lib, opts: Opts, m: map<string, Val>) {
    forall p :: p in m && ':' !in p && EncodedKey(lib, opts, p, m[p]) != p ==> EncodedKey(lib, opts, p, m[p]) !in m
  }

  ghost predicate ClashFree(lib: Lib, opts: Opts, v: Val)
    decreases v
  {
    v.Msi? ==> NoClash(lib, opts, v.m) && forall k :: k in v.m ==> ClashFree(lib, opts, v.m[k])
  }

  // Every entry of v, at every depth, is in r under its new key, and no two share one.
  ghost predicate Kept(lib: Lib, opts: Opts, v: Val, r: Val)
    requires v.Msi?
    decreases v, 0
  {
    r.Msi? && |r.m| == |v.m| && forall k :: k in v.m ==> EntryKept(lib, opts, k, v.m[k], r.m)
  }

  ghost predicate EntryKept(lib: Lib, opts: Opts, k: string, v: Val, r: map<string, Val>)
    decreases v, 1
  {
    var e := EncodedKey(lib, opts, k, v);
    e in r && if v.Msi? then Kept(lib, opts, v, r[e]) else r[e] == if ':' in k then v else Encoded(lib, opts, v)
  }

  // How many keys a map of keys leaves.
  lemma {:induction false} ValuesCount(t: map<string, string>)
    ensures |t.Values| <= |t|
    ensures (forall j, k :: j in t && k in t && t[j] == t[k] ==> j == k) ==> |t.Values| == |t|
    decreases |t|
  {
    if t != map[] {
      var k :| k in t;
      ValuesCount(t - {k});
      ValuesWithout(t, k);
    }
  }

  lemma ValuesWithout(t: map<string, string>, k: string)
    requires k in t
    ensures |t - {k}| == |t| - 1
    ensures t.Values == (t - {k}).Values + {t[k]}
  {
    forall v | v in t.Values ensures v in (t - {k}).Values + {t[k]} {
      var j :| j in t && t[j] == v;
      assert j == k || j in t - {k};
    }
    assert (t - {k}).Keys == t.Keys - {k};
    assert |t.Keys| == |t| && |(t - {k}).Keys| == |t - {k}|;
  }

  lemma FewerValues(t: map<string, string>, j: string, k: string)
    requires j in t && k in t && j != k && t[j] == t[k]
    ensures |t.Values| < |t|
  {
    ValuesWithout(t, j);
    assert k in t - {j};
    assert t[j] in (t - {j}).Values;
    assert t.Values == (t - {j}).Values;
    ValuesCount(t - {j});
  }

  ghost function KeyMap(lib: Lib, opts: Opts, m: map<string, Val>): map<string, string> {
    map k | k in m :: EncodedKey(lib, opts, k, m[k])
  }

  lemma EncodedSize(lib: Lib, opts: Opts, m: map<string, Val>)
    ensures var t := KeyMap(lib, opts, m);
            |EncodeVal(lib, opts, Msi(m)).m| == |t.Values| && |t| == |m|
  {
    var t, r := KeyMap(lib, opts, m), EncodeVal(lib, opts, Msi(m)).m;
    forall e | e in EncodedKeys(lib, opts, m) ensures e in t.Values {
      var k :| k in m && e == EncodedKey(lib, opts, k, m[k]);
      assert t[k] == e;
    }
    assert r.Keys == EncodedKeys(lib, opts, m) == t.Values;
    assert t.Keys == m.Keys;
    assert |r.Keys| == |r| && |t.Keys| == |t| && |m.Keys| == |m|;
  }

  lemma NoClashInjective(lib: Lib, opts: Opts, m: map<string, Val>, j: string, k: string)
    requires NoClash(lib, opts, m) && j in m && k in m && EncodedKey(lib, opts, j, m[j]) == EncodedKey(lib, opts, k, m[k])
    ensures j == k
  {
    if ':' !in j {
      SuffixPrefix(lib, opts, j, m[j]);
    }
    if ':' !in k {
      SuffixPrefix(lib, opts, k, m[k]);
    }
  }

  lemma SizeExactly(lib: Lib, opts: Opts, m: map<string, Val>)
    ensures |EncodeVal(lib, opts, Msi(m)).m| == |m| <==> NoClash(lib, opts, m)
  {
    var t := KeyMap(lib, opts, m);
    EncodedSize(lib, opts, m);
    if NoClash(lib, opts, m) {
      forall j, k | j in t && k in t && t[j] == t[k] ensures j == k {
        NoClashInjective(lib, opts, m, j, k);
      }
      ValuesCount(t);
    } else {
      var p :| p in m && ':' !in p && EncodedKey(lib, opts, p, m[p]) != p && EncodedKey(lib, opts, p, m[p]) in m;
      SuffixHasColon(lib, opts, p, m[p]);
      FewerValues(t, p, EncodedKey(lib, opts, p, m[p]));
    }
  }

  // Without a clash each key's entry is where it was sent.
  lemma EntryInPlace(lib: Lib, opts: Opts, m: map<string, Val>, k: string)
    requires NoClash(lib, opts, m) && k in m
    ensures var e := EncodedKey(lib, opts, k, m[k]);
            var r := EncodeVal(lib, opts, Msi(m)).m;
            e in r && r[e] == if ':' in k then EncodeVal(lib, opts, m[k]) else Encoded(lib, opts, EncodeVal(lib, opts, m[k]))
  {
    var e := EncodedKey(lib, opts, k, m[k]);
    assert e in EncodedKeys(lib, opts, m);
    EncodedAt(lib, opts, m, e);
    PrefixIs(k);
    PrefixIs(e);
    if ':' !in k {
      SuffixPrefix(lib, opts, k, m[k]);
    } else {
      assert !Claimed(lib, opts, m, k);
    }
  }

  // Every entry is kept, at every depth, if and only if no plain key is sent to another key of
  // its map, at any depth.
  lemma {:induction false} EncodeKeepsExactly(lib: Lib, opts: Opts, v: Val)
    requires v.Msi?
    ensures Kept(lib, opts, v, EncodeVal(lib, opts, v)) <==> ClashFree(lib, opts, v)
    decreases v
  {
    var r := EncodeVal(lib, opts, v).m;
    SizeExactly(lib, opts, v.m);
    if NoClash(lib, opts, v.m) {
      forall k | k in v.m ensures EntryKept(lib, opts, k, v.m[k], r) <==> ClashFree(lib, opts, v.m[k]) {
        EntryInPlace(lib, opts, v.m, k);
        if v.m[k].Msi? {
          EncodeKeepsExactly(lib, opts, v.m[k]);
        }
      }
    }
  }

  // A suffixed key to which a plain key's entry goes loses its own: the loop keeps one of two.
  lemma ClashLosesEntry(lib: Lib, opts: Opts, m: map<string, Val>, p: string)
    requires p in m && ':' !in p && EncodedKey(lib, opts, p, m[p]) in m && EncodedKey(lib, opts, p, m[p]) != p
    ensures var e := EncodedKey(lib, opts, p, m[p]);
            var r := EncodeVal(lib, opts, Msi(m)).m;
            e in r && r[e] == Encoded(lib, opts, EncodeVal(lib, opts, m[p])) && p !in r
  {
    var e := EncodedKey(lib, opts, p, m[p]);
    SuffixPrefix(lib, opts, p, m[p]);
    PrefixIs(p);
    assert e in EncodedKeys(lib, opts, m);
    forall k | k in m ensures EncodedKey(lib, opts, k, m[k]) != p {
      if ':' !in k {
        SuffixPrefix(lib, opts, k, m[k]);
      }
    }
  }

  // ---- the encoder as it runs

  // Where each entry goes, and what it becomes.
  ghost function Targets(lib: Lib, opts: Opts, m: map<string, Val>): map<string, (string, Val)> {
    map k | k in m :: (EncodedKey(lib, opts, k, m[k]),
                       if ':' in k then EncodeVal(lib, opts, m[k]) else Encoded(lib, opts, EncodeVal(lib, opts, m[k])))
  }

  // Suffixed keys stay, and no two plain keys go to the same place.
  ghost predicate WellAimed(t: map<string, (string, Val)>, m: map<string, Val>) {
    t.Keys == m.Keys &&
    (forall k :: k in t && ':' in k ==> t[k].0 == k) &&
    (forall k :: k in t && ':' !in k ==> t[k].0 == k || ':' in t[k].0) &&
    (forall j, k :: j in t && k in t && ':' !in j && ':' !in k && t[j].0 == t[k].0 ==> j == k)
  }

  // The entry of a plain key has gone to e.
  ghost predicate Taken(t: map<string, (string, Val)>, pending: set<string>, e: string) {
    exists p :: p in t && p !in pending && ':' !in p && t[p].0 == e
  }

  ghost predicate PlainMoved(t: map<string, (string, Val)>, pending: set<string>, out: map<string, Val>) {
    forall p :: p in t && p !in pending && ':' !in p ==> t[p].0 in out && out[t[p].0] == t[p].1
  }

  ghost predicate OthersInPlace(t: map<string, (string, Val)>, m: map<string, Val>, pending: set<string>, out: map<string, Val>) {
    forall k :: k in m && k in t && !Taken(t, pending, k) ==>
      (k in pending ==> k in out && out[k] == m[k]) && (k !in pending && ':' in k ==> k in out && out[k] == t[k].1)
  }

  ghost predicate NothingMore(t: map<string, (string, Val)>, m: map<string, Val>, pending: set<string>, out: map<string, Val>) {
    forall e :: e in out ==> Taken(t, pending, e) || (e in m && (e in pending || ':' in e))
  }

  // How far an encoding has come.
  ghost predicate Moved(t: map<string, (string, Val)>, m: map<string, Val>, pending: set<string>, out: map<string, Val>) {
    pending <= m.Keys && PlainMoved(t, pending, out) && OthersInPlace(t, m, pending, out) && NothingMore(t, m, pending, out)
  }

  lemma TakenMore(t: map<string, (string, Val)>, pending: set<string>, key: string, e: string)
    requires key in pending && key in t
    ensures Taken(t, pending - {key}, e) <==> Taken(t, pending, e) || (':' !in key && t[key].0 == e)
  {
    if Taken(t, pending, e) {
      var p :| p in t && p !in pending && ':' !in p && t[p].0 == e;
      assert p !in pending - {key};
    }
    if ':' !in key && t[key].0 == e {
      assert key !in pending - {key};
    }
  }

  lemma PlainIsNotTaken(t: map<string, (string, Val)>, m: map<string, Val>, pending: set<string>, key: string)
    requires WellAimed(t, m) && key in pending && ':' !in key
    ensures !Taken(t, pending, key)
  {
  }

  lemma MovePlain(t: map<string, (string, Val)>, m: map<string, Val>, pending: set<string>, out: map<string, Val>, key: string)
    requires WellAimed(t, m) && Moved(t, m, pending, out) && key in pending && ':' !in key
    ensures key in out && out[key] == m[key] && Moved(t, m, pending - {key}, (out - {key})[t[key].0 := t[key].1])
  {
    var next, out1 := pending - {key}, (out - {key})[t[key].0 := t[key].1];
    PlainIsNotTaken(t, m, pending, key);
    forall e ensures Taken(t, next, e) <==> Taken(t, pending, e) || t[key].0 == e {
      TakenMore(t, pending, key, e);
    }
    PlainStillMoved(t, m, pending, out, key);
    assert OthersInPlace(t, m, next, out1);
    assert NothingMore(t, m, next, out1);
  }

  lemma PlainStillMoved(t: map<string, (string, Val)>, m: map<string, Val>, pending: set<string>, out: map<string, Val>, key: string)
    requires WellAimed(t, m) && PlainMoved(t, pending, out) && key in t && key in pending && ':' !in key
    ensures PlainMoved(t, pending - {key}, (out - {key})[t[key].0 := t[key].1])
  {
  }

  lemma MoveSuffixed(t: map<string, (string, Val)>, m: map<string, Val>, pending: set<string>, out: map<string, Val>, key: string)
    requires WellAimed(t, m) && Moved(t, m, pending, out) && key in pending && ':' in key
    ensures !Taken(t, pending, key) ==> key in out && out[key] == m[key]
    ensures Moved(t, m, pending - {key}, if Taken(t, pending, key) then out else out[key := t[key].1])
  {
    var next, out1 := pending - {key}, if Taken(t, pending, key) then out else out[key := t[key].1];
    forall e ensures Taken(t, next, e) <==> Taken(t, pending, e) {
      TakenMore(t, pending, key, e);
    }
    SuffixedPlainMoved(t, pending, out, key);
    assert OthersInPlace(t, m, next, out1);
    assert NothingMore(t, m, next, out1);
  }

  lemma SuffixedPlainMoved(t: map<string, (string, Val)>, pending: set<string>, out: map<string, Val>, key: string)
    requires PlainMoved(t, pending, out) && key in pending && ':' in key && key in t
    ensures PlainMoved(t, pending - {key}, if Taken(t, pending, key) then out else out[key := t[key].1])
  {
    forall p | p in t && p !in pending - {key} && ':' !in p ensures p !in pending && Taken(t, pending, t[p].0) {
    }
  }

  lemma TargetsAim(lib: Lib, opts: Opts, m: map<string, Val>)
    ensures WellAimed(Targets(lib, opts, m), m)
  {
    var t := Targets(lib, opts, m);
    forall k | k in t && ':' !in k ensures Prefix(t[k].0) == k && (t[k].0 == k || ':' in t[k].0) {
      SuffixPrefix(lib, opts, k, m[k]);
      if t[k].0 != k {
        SuffixHasColon(lib, opts, k, m[k]);
      }
    }
  }

  // What a plain key's entry becomes under a new key is not a map.
  lemma TakenIsScalar(lib: Lib, opts: Opts, m: map<string, Val>, pending: set<string>, out: map<string, Val>, e: string)
    requires PlainMoved(Targets(lib, opts, m), pending, out) && Taken(Targets(lib, opts, m), pending, e) && ':' in e
    ensures e in out && !out[e].Msi?
  {
    var t := Targets(lib, opts, m);
    var p :| p in t && p !in pending && ':' !in p && t[p].0 == e;
    assert m[p].Msi? ==> p + "" == p;
  }

  ghost predicate Progressed(lib: Lib, opts: Opts, m: map<string, Val>, pending: set<string>, out: map<string, Val>) {
    Moved(Targets(lib, opts, m), m, pending, out)
  }

  lemma ProgressedStep(lib: Lib, opts: Opts, m: map<string, Val>, pending: set<string>, out: map<string, Val>,
                       key: string, out1: map<string, Val>)
    requires Progressed(lib, opts, m, pending, out) && key in pending && key in out && EntryMoved(lib, opts, out, key, out1)
    ensures Progressed(lib, opts, m, pending - {key}, out1)
  {
    var t := Targets(lib, opts, m);
    TargetsAim(lib, opts, m);
    if ':' !in key {
      MovePlain(t, m, pending, out, key);
    } else {
      MoveSuffixed(t, m, pending, out, key);
      if Taken(t, pending, key) {
        TakenStays(lib, opts, m, pending, out, key);
      }
    }
  }

  lemma TakenStays(lib: Lib, opts: Opts, m: map<string, Val>, pending: set<string>, out: map<string, Val>, e: string)
    requires PlainMoved(Targets(lib, opts, m), pending, out) && Taken(Targets(lib, opts, m), pending, e) && ':' in e
    ensures e in out && out[e := EncodeVal(lib, opts, out[e])] == out
  {
    TakenIsScalar(lib, opts, m, pending, out, e);
  }

  // An entry of an encoded map.
  lemma EncodedAt(lib: Lib, opts: Opts, m: map<string, Val>, x: string)
    requires x in EncodedKeys(lib, opts, m)
    ensures var e := EncodeVal(lib, opts, Msi(m)).m;
            x in e &&
            (Claimed(lib, opts, m, x) ==> e[x] == Encoded(lib, opts, EncodeVal(lib, opts, m[Prefix(x)]))) &&
            (!Claimed(lib, opts, m, x) ==> x in m && ':' in x && e[x] == EncodeVal(lib, opts, m[x]))
  {
    OthersStay(lib, opts, m);
  }

  lemma EndsInside(lib: Lib, opts: Opts, m: map<string, Val>, out: map<string, Val>)
    requires Progressed(lib, opts, m, {}, out)
    ensures forall x :: x in out ==> x in EncodedKeys(lib, opts, m)
  {
    var t := Targets(lib, opts, m);
    forall x | x in out ensures x in EncodedKeys(lib, opts, m) {
      if Taken(t, {}, x) {
        var p :| p in t && ':' !in p && t[p].0 == x;
      } else {
        assert x == EncodedKey(lib, opts, x, m[x]);
      }
    }
  }

  lemma EndsWith(lib: Lib, opts: Opts, m: map<string, Val>, out: map<string, Val>, x: string)
    requires Progressed(lib, opts, m, {}, out) && x in EncodedKeys(lib, opts, m)
    ensures x in out
    ensures Claimed(lib, opts, m, x) ==> out[x] == Encoded(lib, opts, EncodeVal(lib, opts, m[Prefix(x)]))
    ensures !Claimed(lib, opts, m, x) ==> x in m && out[x] == EncodeVal(lib, opts, m[x])
  {
    var t := Targets(lib, opts, m);
    TakenIsClaimed(lib, opts, m, x);
    OthersStay(lib, opts, m);
    PrefixIs(x);
    if Claimed(lib, opts, m, x) {
      assert Prefix(x) in t && t[Prefix(x)].0 == x;
    } else {
      assert x in t;
    }
  }

  lemma ProgressedEnds(lib: Lib, opts: Opts, m: map<string, Val>, out: map<string, Val>)
    requires Progressed(lib, opts, m, {}, out)
    ensures EncodeVal(lib, opts, Msi(m)) == Msi(out)
  {
    var e := EncodeVal(lib, opts, Msi(m)).m;
    assert e.Keys == EncodedKeys(lib, opts, m);
    EndsInside(lib, opts, m, out);
    forall x | x in EncodedKeys(lib, opts, m) ensures x in out && e[x] == out[x] {
      EncodedAt(lib, opts, m, x);
      EndsWith(lib, opts, m, out, x);
    }
    SameMaps(e, out);
  }

  lemma TakenIsClaimed(lib: Lib, opts: Opts, m: map<string, Val>, x: string)
    ensures Taken(Targets(lib, opts, m), {}, x) <==> Claimed(lib, opts, m, x)
  {
    var t := Targets(lib, opts, m);
    if Taken(t, {}, x) {
      var p :| p in t && ':' !in p && t[p].0 == x;
      SuffixPrefix(lib, opts, p, m[p]);
    }
    if Claimed(lib, opts, m, x) {
      PrefixIs(x);
      assert Prefix(x) in t && t[Prefix(x)].0 == x;
    }
  }

  // What a visit does to the map: a plain key's entry moves, a suffixed one's is encoded in place.
  ghost predicate EntryMoved(lib: Lib, opts: Opts, data: map<string, Val>, key: string, out: map<string, Val>)
    requires key in data
  {
    out == if ':' in key then data[key := EncodeVal(lib, opts, data[key])]
           else (data - {key})[EncodedKey(lib, opts, key, data[key]) := Encoded(lib, opts, EncodeVal(lib, opts, data[key]))]
  }

  // One turn of the loop.
  method EncodeKey(lib: Lib, opts: Opts, data: map<string, Val>, key: string, ghost depth: nat) returns (out: map<string, Val>)
    requires key in data && Fits(data[key], depth)
    ensures EntryMoved(lib, opts, data, key, out)
    decreases depth, 2
  {
    out := data;
    var val := data[key];
    if val.Msi? {
      var m := EncodeTypes(lib, opts, val.m, depth);
      out := out[key := Msi(m)];
      assert key + "" == key;
      assert out == (data - {key})[key := Msi(m)];
      return;
    }
    assert data[key := val] == data;
    if ':' in key {
      return;
    }
    var targetKey := EncodedKey(lib, opts, key, val);
    var targetData := Encoded(lib, opts, val);
    if targetKey != key {
      out := out[targetKey := targetData];
      out := out - {key};
      SameMap(data, key, val, targetKey, targetData);
    } else {
      NoSuffix(lib, opts, key, val);
      assert out == (data - {key})[key := val];
    }
  }

  lemma SuffixHasColon(lib: Lib, opts: Opts, key: string, v: Val)
    requires EncodedKey(lib, opts, key, v) != key
    ensures ':' in EncodedKey(lib, opts, key, v)
  {
    assert key + "" == key;
    assert EncodedKey(lib, opts, key, v)[|key|] == ':';
  }

  lemma NoSuffix(lib: Lib, opts: Opts, key: string, v: Val)
    requires ':' !in key && EncodedKey(lib, opts, key, v) == key
    ensures Encoded(lib, opts, v) == v
  {
    assert |Suffix(lib, opts, v)| == 0;
  }

  // The map is encoded in place, for every map and every order of visits.
  method EncodeTypes(lib: Lib, opts: Opts, data: map<string, Val>, ghost depth: nat) returns (out: map<string, Val>)
    requires Fits(Msi(data), depth)
    ensures Msi(out) == EncodeVal(lib, opts, Msi(data))
    decreases depth, 1
  {
    out := data;
    var pending, added := data.Keys, {};
    var more: bool := *;
    while pending != {} || (more && added != {})
      invariant Going(lib, opts, data, pending, added, out, depth - 1)
      decreases |pending|, |added|
    {
      more := *;
      var key :| key in pending + added;
      pending, added, out := Turn(lib, opts, data, pending, added, out, key, depth - 1);
    }
    ProgressedEnds(lib, opts, data, out);
  }

  ghost predicate Going(lib: Lib, opts: Opts, data: map<string, Val>, pending: set<string>, added: set<string>,
                        out: map<string, Val>, depth: nat) {
    Bounded(pending, added, out, depth) && Progressed(lib, opts, data, pending, out)
  }

  // One turn of the loop, from out to out1, with the keys still to visit.
  method Turn(lib: Lib, opts: Opts, ghost data: map<string, Val>, pending: set<string>, added: set<string>,
              out: map<string, Val>, key: string, ghost depth: nat)
    returns (pending1: set<string>, added1: set<string>, out1: map<string, Val>)
    requires Going(lib, opts, data, pending, added, out, depth) && key in pending + added
    ensures Going(lib, opts, data, pending1, added1, out1, depth)
    ensures |pending1| < |pending| || (pending1 == pending && |added1| < |added|)
    decreases depth, 3
  {
    assert key !in pending ==> ':' in key && !out[key].Msi?;
    out1 := EncodeKey(lib, opts, out, key, if key in pending then depth else 0);
    if key in pending {
      VisitPending(lib, opts, data, pending, added, out, depth, key, out1);
      pending1, added1 := pending - {key}, added + (out1.Keys - out.Keys);
    } else {
      VisitAdded(lib, opts, data, pending, added, out, depth, key, out1);
      pending1, added1 := pending, added - {key};
    }
  }

  lemma VisitAdded(lib: Lib, opts: Opts, data: map<string, Val>, pending: set<string>, added: set<string>,
                   out: map<string, Val>, depth: nat, key: string, out1: map<string, Val>)
    requires Going(lib, opts, data, pending, added, out, depth) && key in added && EntryMoved(lib, opts, out, key, out1)
    ensures out1 == out && Going(lib, opts, data, pending, added - {key}, out1, depth)
  {
    assert out[key := out[key]] == out;
  }

  ghost predicate Bounded(pending: set<string>, added: set<string>, out: map<string, Val>, depth: nat) {
    (forall k :: k in pending ==> k in out && Fits(out[k], depth)) &&
    added !! pending && forall k :: k in added ==> k in out && ':' in k && !out[k].Msi?
  }

  lemma MovedFits(lib: Lib, opts: Opts, pending: set<string>, added: set<string>, out: map<string, Val>, depth: nat,
                  key: string, out1: map<string, Val>)
    requires Bounded(pending, added, out, depth) && key in pending && EntryMoved(lib, opts, out, key, out1)
    ensures Bounded(pending - {key}, added + (out1.Keys - out.Keys), out1, depth)
  {
    if ':' !in key {
      var e := EncodedKey(lib, opts, key, out[key]);
      var w := Encoded(lib, opts, EncodeVal(lib, opts, out[key]));
      if e != key {
        SuffixHasColon(lib, opts, key, out[key]);
        assert !w.Msi? by {
          assert out[key].Msi? ==> key + "" == key;
        }
      }
    }
  }

  lemma VisitPending(lib: Lib, opts: Opts, data: map<string, Val>, pending: set<string>, added: set<string>,
                     out: map<string, Val>, depth: nat, key: string, out1: map<string, Val>)
    requires Going(lib, opts, data, pending, added, out, depth) && key in pending && EntryMoved(lib, opts, out, key, out1)
    ensures Going(lib, opts, data, pending - {key}, added + (out1.Keys - out.Keys), out1, depth)
  {
    ProgressedStep(lib, opts, data, pending, out, key, out1);
    MovedFits(lib, opts, pending, added, out, depth, key, out1);
  }
}
