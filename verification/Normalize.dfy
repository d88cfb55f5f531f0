// Decoding and encoding of typed values in nested maps: the result as a function of the map.
module Normalize {
  import opened Prelude
  import opened Text

  // A value of a message map.  A Go string is a sequence of bytes, and so is a byte slice;
  // durations and instants are nanoseconds.
  datatype Val =
    | Msi(m: map<string, Val>)
    | Bytes(s: string)
    | Str(s: string)
    | Dur(ns: int)
    | Time(ns: int)
    | Int(i: int)
    | Other(tag: string)

  // The libraries: base64, hex, gzip, duration text, the conversions of ei.N, bit transposition.
  datatype Lib = Lib(
    b64enc: string -> string, b64dec: string -> Option<string>,
    hexdec: string -> Option<string>,
    gzip: string -> string, gunzip: string -> Option<string>,
    durText: int -> string, parseDur: string -> Option<int>,
    asString: Val -> Option<string>, asInt64: Val -> Option<int>,
    trans: (string, string) -> Option<string>)

  // The encoders and decoders undo each other.
  ghost predicate Lawful(lib: Lib) {
    (forall b :: lib.b64dec(lib.b64enc(b)) == Some(b)) &&
    (forall b :: lib.gunzip(lib.gzip(b)) == Some(b)) &&
    (forall d :: lib.parseDur(lib.durText(d)) == Some(d)) &&
    (forall s :: lib.asString(Str(s)) == Some(s)) &&
    (forall i :: lib.asInt64(Int(i)) == Some(i))
  }

  const NS_PER_MS := 1_000_000

  // ---- decoding one key

  function MapOption<A, B>(o: Option<A>, f: A -> B): Option<B> {
    match o
    case None => None
    case Some(a) => Some(f(a))
  }

  // One decoder; None stands for its error.
  function DecodeToken(lib: Lib, token: string, v: Val): Option<Val> {
    var encoding := ToLower(token);
    if "trans(" <= encoding then
      if v.Bytes? then MapOption(lib.trans(encoding, v.s), b => Bytes(b)) else None
    else if encoding == "dur" then
      var s := lib.asString(v);
      if s.None? then None else MapOption(lib.parseDur(s.value), d => Dur(d))
    else if encoding == "time" then MapOption(lib.asInt64(v), ms => Time(ms * NS_PER_MS))
    else if encoding == "b64" then if v.Str? then MapOption(lib.b64dec(v.s), b => Bytes(b)) else Some(v)
    else if encoding == "hex" then if v.Str? then MapOption(lib.hexdec(v.s), b => Bytes(b)) else Some(v)
    else if encoding == "bytes" then if v.Str? then Some(Bytes(v.s)) else None
    else if encoding == "string" then if v.Bytes? then Some(Str(v.s)) else None
    else if encoding == "gzip" then if v.Bytes? then MapOption(lib.gunzip(v.s), b => Bytes(b)) else None
    else None
  }

  // The decoders named by tokens i, ..., 1, in this order.
  function Chain(lib: Lib, tokens: seq<string>, i: nat, v: Val): Option<Val>
    requires i < |tokens|
  {
    if i == 0 then Some(v)
    else
      var w := DecodeToken(lib, tokens[i], v);
      if w.None? then None else Chain(lib, tokens, i - 1, w.value)
  }

  // No decoder makes a map.
  lemma {:induction false} ChainKeepsMaps(lib: Lib, tokens: seq<string>, i: nat, v: Val)
    requires i < |tokens|
    ensures var w := Chain(lib, tokens, i, v); w.Some? && w.value.Msi? ==> w.value == v
  {
    if i > 0 {
      var w := DecodeToken(lib, tokens[i], v);
      if w.Some? {
        ChainKeepsMaps(lib, tokens, i - 1, w.value);
      }
    }
  }

  // ---- decoding a map, whatever the order

  function Prefix(key: string): string {
    Split(key, ':')[0]
  }

  // No two keys of a map share the text before the first ':', at any depth.
  ghost predicate Distinct(v: Val)
    decreases v
  {
    v.Msi? ==>
      (forall j, k :: j in v.m && k in v.m && Prefix(j) == Prefix(k) ==> j == k) &&
      (forall k :: k in v.m ==> Distinct(v.m[k]))
  }

  // No key has a ':', at any depth.
  ghost predicate Clean(v: Val)
    decreases v
  {
    v.Msi? ==> forall k :: k in v.m ==> ':' !in k && Clean(v.m[k])
  }

  function Prefixes(m: map<string, Val>): set<string> {
    set k | k in m :: Prefix(k)
  }

  ghost function KeyOf(m: map<string, Val>, p: string): (k: string)
    requires p in Prefixes(m)
    ensures k in m && Prefix(k) == p
  {
    var k :| k in m && Prefix(k) == p;
    k
  }

  ghost function DecodeVal(lib: Lib, v: Val): Option<Val>
    decreases v, 0
  {
    if !v.Msi? then Some(v)
    else if exists k :: k in v.m && DecodeEntry(lib, k, v.m[k]).None? then None
    else Some(Msi(map p | p in Prefixes(v.m) :: DecodeEntry(lib, KeyOf(v.m, p), v.m[KeyOf(v.m, p)]).value))
  }

  ghost function DecodeEntry(lib: Lib, key: string, v: Val): Option<Val>
    decreases v, 1
  {
    Finish(lib, key, DecodeVal(lib, v))
  }

  // What the decoders named in the key make of the value, once it is decoded inside.
  function Finish(lib: Lib, key: string, d: Option<Val>): Option<Val> {
    var tokens := Split(key, ':');
    if d.None? then None else Chain(lib, tokens, |tokens| - 1, d.value)
  }

  lemma FinishPlain(lib: Lib, key: string, d: Option<Val>)
    requires ':' !in key
    ensures Finish(lib, key, d) == d
  {
    PrefixIs(key);
  }

  lemma PrefixIs(key: string)
    ensures ':' !in Prefix(key)
    ensures ':' !in key ==> Prefix(key) == key && Split(key, ':') == [key]
  {
    assert ':' !in Split(key, ':')[0];
    if ':' !in key {
      SplitNone(key, ':');
    }
  }

  lemma PlainEntry(lib: Lib, key: string, v: Val)
    requires ':' !in key
    ensures DecodeEntry(lib, key, v) == DecodeVal(lib, v)
  {
    PrefixIs(key);
  }

  // A map without ':' has distinct prefixes and is decoded to itself.
  lemma {:induction false} CleanIsFixed(lib: Lib, v: Val)
    requires Clean(v)
    ensures Distinct(v) && DecodeVal(lib, v) == Some(v)
    decreases v
  {
    if v.Msi? {
      forall k | k in v.m
        ensures Prefix(k) == k && Distinct(v.m[k]) && DecodeEntry(lib, k, v.m[k]) == Some(v.m[k])
      {
        PrefixIs(k);
        PlainEntry(lib, k, v.m[k]);
        CleanIsFixed(lib, v.m[k]);
      }
      assert forall p :: p in v.m ==> Prefix(p) in Prefixes(v.m);
      assert Prefixes(v.m) == v.m.Keys;
      assert DecodeVal(lib, v).value.m == v.m;
    }
  }

  // Distinct prefixes: the decoded map is known from its entries.
  lemma DecodeIs(lib: Lib, e: map<string, Val>, r: map<string, Val>)
    requires forall j, k :: j in e && k in e && Prefix(j) == Prefix(k) ==> j == k
    requires forall k :: k in e ==> Prefix(k) in r && DecodeEntry(lib, k, e[k]) == Some(r[Prefix(k)])
    requires forall p :: p in r ==> p in Prefixes(e)
    ensures DecodeVal(lib, Msi(e)) == Some(Msi(r))
  {
    DecodedMap(lib, e);
    var d := DecodeVal(lib, Msi(e)).value.m;
    forall p | p in r ensures d[p] == r[p] {
      var k := KeyOf(e, p);
      assert DecodeEntry(lib, k, e[k]) == Some(r[p]);
    }
    SameMaps(d, r);
  }

  lemma DecodedMap(lib: Lib, e: map<string, Val>)
    requires forall k :: k in e ==> DecodeEntry(lib, k, e[k]).Some?
    ensures var d := DecodeVal(lib, Msi(e));
            d.Some? && d.value.Msi? && d.value.m.Keys == Prefixes(e) &&
            forall p :: p in Prefixes(e) ==> d.value.m[p] == DecodeEntry(lib, KeyOf(e, p), e[KeyOf(e, p)]).value
  {
    assert Msi(e).m == e;
  }

  lemma SameMaps(a: map<string, Val>, b: map<string, Val>)
    requires a.Keys <= b.Keys && b.Keys <= a.Keys && forall k :: k in b ==> a[k] == b[k]
    ensures a == b
  {
  }

  // ---- a key with one decoder

  lemma OneToken(lib: Lib, k: string, token: string, v: Val)
    requires ':' !in k && ':' !in token && !v.Msi?
    ensures Prefix(k + ":" + token) == k
    ensures DecodeEntry(lib, k + ":" + token, v) == DecodeToken(lib, token, v)
  {
    SplitCons(k, token, ':');
    SplitNone(token, ':');
    var tokens := Split(k + ":" + token, ':');
    assert tokens == [k, token];
    var w := DecodeToken(lib, tokens[1], v);
    assert w.Some? ==> Chain(lib, tokens, 0, w.value) == w;
  }

  // ---- the decoders one by one

  // Tokens are read without regard to case.
  lemma AnyCase(lib: Lib, token: string, v: Val)
    ensures DecodeToken(lib, token, v) == DecodeToken(lib, ToLower(token), v)
  {
    LowerIs(token);
  }

  // A number of milliseconds, of any kind the conversion knows, since the epoch.
  lemma TimeToken(lib: Lib, v: Val)
    ensures lib.asInt64(v).None? ==> DecodeToken(lib, "time", v) == None
    ensures forall ms :: lib.asInt64(v) == Some(ms) ==> DecodeToken(lib, "time", v) == Some(Time(ms * 1_000_000))
  {
    LowerIsSame("time");
  }

  lemma DurToken(lib: Lib, v: Val)
    ensures lib.asString(v).None? ==> DecodeToken(lib, "dur", v) == None
    ensures forall t :: lib.asString(v) == Some(t) && lib.parseDur(t).None? ==> DecodeToken(lib, "dur", v) == None
    ensures forall t, ns :: lib.asString(v) == Some(t) && lib.parseDur(t) == Some(ns) ==> DecodeToken(lib, "dur", v) == Some(Dur(ns))
  {
    LowerIsSame("dur");
  }

  // base64 and hexadecimal text become bytes; what is not text stays.
  lemma B64Token(lib: Lib, v: Val)
    ensures !v.Str? ==> DecodeToken(lib, "b64", v) == Some(v)
    ensures v.Str? && lib.b64dec(v.s).None? ==> DecodeToken(lib, "b64", v) == None
    ensures forall b :: v.Str? && lib.b64dec(v.s) == Some(b) ==> DecodeToken(lib, "b64", v) == Some(Bytes(b))
  {
    LowerIsSame("b64");
  }

  lemma HexToken(lib: Lib, v: Val)
    ensures !v.Str? ==> DecodeToken(lib, "hex", v) == Some(v)
    ensures v.Str? && lib.hexdec(v.s).None? ==> DecodeToken(lib, "hex", v) == None
    ensures forall b :: v.Str? && lib.hexdec(v.s) == Some(b) ==> DecodeToken(lib, "hex", v) == Some(Bytes(b))
  {
    LowerIsSame("hex");
  }

  // Text to bytes and back; the wrong kind of value is an error.
  lemma BytesToken(lib: Lib, v: Val)
    ensures DecodeToken(lib, "bytes", v) == if v.Str? then Some(Bytes(v.s)) else None
  {
    LowerIsSame("bytes");
  }

  lemma StringToken(lib: Lib, v: Val)
    ensures DecodeToken(lib, "string", v) == if v.Bytes? then Some(Str(v.s)) else None
  {
    LowerIsSame("string");
    assert "string"[0] != "trans("[0];
  }

  lemma GzipToken(lib: Lib, v: Val)
    ensures !v.Bytes? || lib.gunzip(v.s).None? ==> DecodeToken(lib, "gzip", v) == None
    ensures forall b :: v.Bytes? && lib.gunzip(v.s) == Some(b) ==> DecodeToken(lib, "gzip", v) == Some(Bytes(b))
  {
    LowerIsSame("gzip");
  }

  // What begins with "trans(" is given to the transposition, in small letters.
  lemma TransToken(lib: Lib, token: string, v: Val)
    requires "trans(" <= ToLower(token)
    ensures !v.Bytes? || lib.trans(ToLower(token), v.s).None? ==> DecodeToken(lib, token, v) == None
    ensures forall b :: v.Bytes? && lib.trans(ToLower(token), v.s) == Some(b) ==> DecodeToken(lib, token, v) == Some(Bytes(b))
  {
  }

  // Any other token is an error.
  lemma UnknownToken(lib: Lib, token: string, v: Val)
    requires ToLower(token) !in ["dur", "time", "b64", "hex", "bytes", "string", "gzip"] && !("trans(" <= ToLower(token))
    ensures DecodeToken(lib, token, v) == None
  {
    var t := ToLower(token);
    var known := ["dur", "time", "b64", "hex", "bytes", "string", "gzip"];
    assert t != known[0] && t != known[1] && t != known[2] && t != known[3] && t != known[4] && t != known[5] && t != known[6];
  }
}
