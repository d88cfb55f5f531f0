// The chunked upload of a file to a remote system.
module Upload {
  import opened Prelude
  import opened Text

  type Data = string

  ghost predicate Injective(hash: Data -> string) {
    forall a, b :: hash(a) == hash(b) ==> a == b
  }

  // ---- chunks

  const DefaultChunkSize := 1024 * 512

  function ChunkPath(finalHash: string, offset: nat): string {
    "/tmp/." + finalHash + ".chunk." + PrintInt(offset)
  }

  lemma ChunkPathInjective(finalHash: string, a: nat, b: nat)
    requires ChunkPath(finalHash, a) == ChunkPath(finalHash, b)
    ensures a == b
  {
    var p := "/tmp/." + finalHash + ".chunk.";
    assert (p + PrintInt(a))[|p|..] == PrintInt(a);
    assert (p + PrintInt(b))[|p|..] == PrintInt(b);
    PrintIntInjective(a, b);
  }

  function Min(a: nat, b: nat): nat {
    if a < b then a else b
  }

  // data[offset:end]
  function Piece(data: Data, size: nat, offset: nat): Data
    requires offset <= |data|
  {
    data[offset..Min(offset + size, |data|)]
  }

  // The offsets of the chunks from this one on.
  function Offsets(len: nat, size: nat, from: nat): (r: seq<nat>)
    requires size > 0
    ensures forall o :: o in r ==> from <= o < len
    decreases if from < len then len - from else 0
  {
    if from >= len then [] else [from] + Offsets(len, size, from + size)
  }

  function Paths(h: string, offsets: seq<nat>): (r: seq<string>)
    ensures |r| == |offsets| && forall i :: 0 <= i < |r| ==> r[i] == ChunkPath(h, offsets[i])
  {
    seq(|offsets|, i requires 0 <= i < |offsets| => ChunkPath(h, offsets[i]))
  }

  function ChunkPaths(h: string, offsets: seq<nat>): set<string> {
    set o | o in offsets :: ChunkPath(h, o)
  }

  function Contents(files: map<string, Data>, paths: seq<string>): Data
    requires forall p :: p in paths ==> p in files
  {
    if paths == [] then "" else files[paths[0]] + Contents(files, paths[1..])
  }

  // This chunk is in its file.
  ghost predicate InPlace(files: map<string, Data>, h: string, data: Data, size: nat, o: nat) {
    o < |data| && ChunkPath(h, o) in files && files[ChunkPath(h, o)] == Piece(data, size, o)
  }

  // The files at these paths hold d together.
  ghost predicate Hold(files: map<string, Data>, paths: seq<string>, d: Data) {
    (forall p :: p in paths ==> p in files) && Contents(files, paths) == d
  }

  // The chunks begin at the multiples of the size; all but the last have that size.
  lemma {:induction false} OffsetsAre(len: nat, size: nat, from: nat, i: nat)
    requires size > 0 && i < |Offsets(len, size, from)|
    ensures Offsets(len, size, from)[i] == from + i * size < len
    ensures len <= from + |Offsets(len, size, from)| * size
    decreases i
  {
    if i > 0 {
      OffsetsAre(len, size, from + size, i - 1);
      assert (i - 1) * size + size == i * size;
    } else if from + size < len {
      OffsetsReach(len, size, from + size);
    }
  }

  lemma {:induction false} OffsetsReach(len: nat, size: nat, from: nat)
    requires size > 0
    ensures len <= from + |Offsets(len, size, from)| * size
    decreases if from < len then len - from else 0
  {
    if from < len {
      OffsetsReach(len, size, from + size);
    }
  }

  lemma PieceIs(data: Data, size: nat, o: nat)
    requires o < |data|
    ensures |Piece(data, size, o)| == if o + size <= |data| then size else |data| - o
    ensures forall i :: 0 <= i < |Piece(data, size, o)| ==> Piece(data, size, o)[i] == data[o + i]
  {
  }

  // The name of a chunk's file, and the size of a chunk if none is given.
  lemma NamesAndSizes(h: string, offset: nat, size: nat)
    ensures ChunkPath(h, offset) == "/tmp/." + h + ".chunk." + PrintInt(offset)
    ensures ChunkSize(0) == 524_288 && (size > 0 ==> ChunkSize(size) == size)
  {
  }

  // The chunks tile the data.
  lemma {:induction false} ChunksTile(files: map<string, Data>, h: string, data: Data, size: nat, from: nat)
    requires size > 0 && from <= |data|
    requires forall o :: o in Offsets(|data|, size, from) ==> InPlace(files, h, data, size, o)
    ensures Hold(files, Paths(h, Offsets(|data|, size, from)), data[from..])
    decreases |data| - from
  {
    if from < |data| {
      var rest := Offsets(|data|, size, from + size);
      assert Offsets(|data|, size, from) == [from] + rest;
      assert InPlace(files, h, data, size, from);
      if from + size < |data| {
        ChunksTile(files, h, data, size, from + size);
        PieceAndRest(data, size, from);
        PathsCons(files, h, from, rest, data[from + size..]);
      } else {
        PathsCons(files, h, from, rest, "");
      }
    }
  }

  lemma PathsCons(files: map<string, Data>, h: string, o: nat, rest: seq<nat>, d: Data)
    requires ChunkPath(h, o) in files && Hold(files, Paths(h, rest), d)
    ensures Hold(files, Paths(h, [o] + rest), files[ChunkPath(h, o)] + d)
  {
    PathsOf(h, o, rest);
    ContentsCons(files, ChunkPath(h, o), Paths(h, rest));
  }

  lemma PathsOf(h: string, o: nat, rest: seq<nat>)
    ensures Paths(h, [o] + rest) == [ChunkPath(h, o)] + Paths(h, rest)
  {
  }

  lemma ContentsCons(files: map<string, Data>, p: string, rest: seq<string>)
    requires p in files && forall x :: x in rest ==> x in files
    ensures (forall x :: x in [p] + rest ==> x in files) && Contents(files, [p] + rest) == files[p] + Contents(files, rest)
  {
    assert ([p] + rest)[1..] == rest;
  }

  lemma PieceAndRest(data: Data, size: nat, from: nat)
    requires from + size <= |data|
    ensures Piece(data, size, from) + data[from + size..] == data[from..]
  {
  }

  lemma PathsExist(files: map<string, Data>, h: string, data: Data, size: nat, offsets: seq<nat>)
    requires forall o :: o in offsets ==> InPlace(files, h, data, size, o)
    ensures forall p :: p in Paths(h, offsets) ==> p in files
  {
    var paths := Paths(h, offsets);
    forall p | p in paths ensures p in files {
      var i :| 0 <= i < |paths| && paths[i] == p;
      assert InPlace(files, h, data, size, offsets[i]);
    }
  }

  // ---- the remote system

  // When it is not reliable, any call may fail or leave the file it writes in any state; the
  // hash a call reports is always that of the file.
  class Remote {
    const reliable: bool
    const hash: Data -> string
    const stdin: Data
    var files: map<string, Data>
    ghost var sent: set<string>

    constructor (reliable: bool, hash: Data -> string, stdin: Data, files: map<string, Data>)
      ensures this.reliable == reliable && this.hash == hash && this.stdin == stdin && this.files == files && sent == {}
    {
      this.reliable := reliable;
      this.hash := hash;
      this.stdin := stdin;
      this.files := files;
      sent := {};
    }

    method FileSHA256Hex(path: string) returns (ok: bool, h: string)
      ensures ok ==> path in files && h == hash(files[path])
      ensures reliable ==> ok == (path in files)
    {
      var fails: bool := *;
      ok := path in files && (reliable || !fails);
      h := if ok then hash(files[path]) else "";
    }

    // Anything may become of this file.
    method Disturb(path: string)
      modifies this`files
      ensures files - {path} == old(files) - {path}
    {
      var present: bool := *;
      var content: Data := *;
      files := if present then files[path := content] else files - {path};
      assert files - {path} == old(files) - {path};
    }

    method FileWrite(path: string, data: Data) returns (ok: bool, h: string)
      modifies this
      ensures files - {path} == old(files) - {path} && sent == old(sent) + {path}
      ensures ok ==> path in files && h == hash(files[path])
      ensures reliable ==> ok && files == old(files)[path := data]
    {
      sent := sent + {path};
      ok, h := true, "";
      if reliable {
        files := files[path := data];
        assert files - {path} == old(files) - {path};
      } else {
        Disturb(path);
        var fails: bool := *;
        ok := path in files && !fails;
      }
      if ok {
        h := hash(files[path]);
      }
    }

    // The shell command cat paths > target; without paths, cat copies its standard input.
    method ShellCat(paths: seq<string>, target: string) returns (ok: bool, success: bool)
      modifies this`files
      ensures files - {target} == old(files) - {target}
      ensures reliable && target !in paths && (forall p :: p in paths ==> p in old(files)) ==>
        ok && success && files == old(files)[target := if paths == [] then stdin else Contents(old(files), paths)]
    {
      if reliable && target !in paths && forall p :: p in paths ==> p in files {
        files := files[target := if paths == [] then stdin else Contents(files, paths)];
        assert files - {target} == old(files) - {target};
        return true, true;
      }
      Disturb(target);
      ok := *;
      success := *;
    }

    method Remove(path: string) returns (ok: bool)
      modifies this`files
      ensures files - {path} == old(files) - {path}
      ensures ok ==> path !in files
      ensures reliable ==> ok == (path in old(files)) && files == old(files) - {path}
    {
      if reliable {
        ok := path in files;
        files := files - {path};
      } else {
        Disturb(path);
        ok := *;
        ok := ok && path !in files;
      }
    }
  }

  // ---- the upload

  datatype Failure = CallFailed | ChunkMismatch | JoinFailed | FinalMismatch

  function ChunkSize(chunkSize: nat): (size: nat)
    ensures size > 0
  {
    if chunkSize == 0 then DefaultChunkSize else chunkSize
  }

  // The chunk files that were not in place and had to be sent.
  ghost function Missing(files: map<string, Data>, h: string, data: Data, size: nat, offsets: seq<nat>): set<string> {
    set o | o in offsets && !InPlace(files, h, data, size, o) :: ChunkPath(h, o)
  }

  // From was to files, these chunks have been put in place and nothing else has changed.
  ghost predicate Sent(was: map<string, Data>, files: map<string, Data>, h: string, data: Data, size: nat, done: seq<nat>) {
    (forall o :: o in done ==> InPlace(files, h, data, size, o)) &&
    files - ChunkPaths(h, done) == was - ChunkPaths(h, done)
  }

  lemma ChunkPathsSnoc(h: string, done: seq<nat>, o: nat)
    ensures ChunkPaths(h, done + [o]) == ChunkPaths(h, done) + {ChunkPath(h, o)}
    ensures o !in done ==> ChunkPath(h, o) !in ChunkPaths(h, done)
  {
    var all := done + [o];
    forall p | p in ChunkPaths(h, done) + {ChunkPath(h, o)} ensures p in ChunkPaths(h, all) {
      if p == ChunkPath(h, o) {
        assert all[|done|] == o;
      } else {
        var x :| x in done && ChunkPath(h, x) == p;
        assert x in all;
      }
    }
    if o !in done && ChunkPath(h, o) in ChunkPaths(h, done) {
      var x :| x in done && ChunkPath(h, x) == ChunkPath(h, o);
      ChunkPathInjective(h, x, o);
    }
  }

  lemma SentStep(was: map<string, Data>, files: map<string, Data>, files': map<string, Data>,
                 h: string, data: Data, size: nat, done: seq<nat>, o: nat)
    requires Sent(was, files, h, data, size, done) && o !in done
    requires InPlace(files', h, data, size, o)
    requires files' - {ChunkPath(h, o)} == files - {ChunkPath(h, o)}
    ensures Sent(was, files', h, data, size, done + [o])
  {
    var cp := ChunkPath(h, o);
    ChunkPathsSnoc(h, done, o);
    forall x | x in done + [o] ensures InPlace(files', h, data, size, x) {
      if x != o {
        assert InPlace(files, h, data, size, x);
        assert ChunkPath(h, x) != cp by {
          if ChunkPath(h, x) == cp {
            ChunkPathInjective(h, x, o);
          }
        }
        assert ChunkPath(h, x) in files - {cp};
        assert (files' - {cp})[ChunkPath(h, x)] == (files - {cp})[ChunkPath(h, x)];
      }
    }
    MinusTwo(was, files, files', ChunkPaths(h, done), cp);
  }

  lemma MinusTwo(m: map<string, Data>, m1: map<string, Data>, m2: map<string, Data>, s: set<string>, x: string)
    requires m1 - s == m - s && m2 - {x} == m1 - {x}
    ensures m2 - (s + {x}) == m - (s + {x})
  {
    assert m1 - (s + {x}) == (m1 - s) - {x} == (m1 - {x}) - s;
    assert m2 - (s + {x}) == (m2 - {x}) - s;
    assert m - (s + {x}) == (m - s) - {x};
  }

  lemma MinusMore(m: map<string, Data>, m': map<string, Data>, s: set<string>, t: set<string>)
    requires m' - s == m - s && s <= t
    ensures m' - t == m - t
  {
    assert m' - t == (m' - s) - t && m - t == (m - s) - t;
  }

  lemma StillMissing(was: map<string, Data>, files: map<string, Data>, h: string, data: Data, size: nat, done: seq<nat>, o: nat)
    requires Sent(was, files, h, data, size, done) && o !in done
    ensures InPlace(files, h, data, size, o) <==> InPlace(was, h, data, size, o)
  {
    ChunkPathsSnoc(h, done, o);
    var cp := ChunkPath(h, o);
    assert cp in files <==> cp in files - ChunkPaths(h, done);
    assert cp in was <==> cp in was - ChunkPaths(h, done);
    assert cp in files ==> files[cp] == (files - ChunkPaths(h, done))[cp];
    assert cp in was ==> was[cp] == (was - ChunkPaths(h, done))[cp];
  }

  lemma MissingSnoc(was: map<string, Data>, h: string, data: Data, size: nat, done: seq<nat>, o: nat)
    ensures Missing(was, h, data, size, done + [o]) ==
            Missing(was, h, data, size, done) + if InPlace(was, h, data, size, o) then {} else {ChunkPath(h, o)}
  {
    var all := done + [o];
    assert forall x :: x in all <==> x in done || x == o;
  }

  // One chunk: sent unless a file with its hash is there.
  method SendChunk(r: Remote, chunkPath: string, nextStep: Data) returns (failure: Option<Failure>)
    modifies r
    ensures r.files - {chunkPath} == old(r.files) - {chunkPath}
    ensures failure.None? ==> chunkPath in r.files && r.hash(r.files[chunkPath]) == r.hash(nextStep)
    ensures r.reliable ==> failure.None?
    ensures r.reliable && Injective(r.hash) ==>
      r.sent == old(r.sent) + if chunkPath in old(r.files) && old(r.files)[chunkPath] == nextStep then {} else {chunkPath}
  {
    var chunkHash := r.hash(nextStep);
    var ok, h := r.FileSHA256Hex(chunkPath);
    if ok && h == chunkHash {
      return None;
    }
    var sentHash;
    ok, sentHash := r.FileWrite(chunkPath, nextStep);
    if !ok {
      return Some(CallFailed);
    }
    if sentHash != chunkHash {
      return Some(ChunkMismatch);
    }
    return None;
  }

  // How far the chunks have been sent: nothing else is touched, and a reliable system has them in place.
  ghost predicate Sending(trusted: bool, was: map<string, Data>, files: map<string, Data>, sentWas: set<string>, sent: set<string>,
                          h: string, data: Data, size: nat, done: seq<nat>) {
    files - ChunkPaths(h, done) == was - ChunkPaths(h, done) &&
    (trusted ==> Sent(was, files, h, data, size, done) && sent == sentWas + Missing(was, h, data, size, done))
  }

  lemma SendingStep(trusted: bool, was: map<string, Data>, files: map<string, Data>, files': map<string, Data>,
                    sentWas: set<string>, sent: set<string>, sent': set<string>,
                    h: string, data: Data, size: nat, done: seq<nat>, o: nat)
    requires Sending(trusted, was, files, sentWas, sent, h, data, size, done) && o !in done
    requires files' - {ChunkPath(h, o)} == files - {ChunkPath(h, o)}
    requires trusted ==> InPlace(files', h, data, size, o)
    requires trusted ==> sent' == sent + if InPlace(files, h, data, size, o) then {} else {ChunkPath(h, o)}
    ensures Sending(trusted, was, files', sentWas, sent', h, data, size, done + [o])
  {
    ChunkPathsSnoc(h, done, o);
    MinusTwo(was, files, files', ChunkPaths(h, done), ChunkPath(h, o));
    if trusted {
      SentStep(was, files, files', h, data, size, done, o);
      StillMissing(was, files, h, data, size, done, o);
      MissingSnoc(was, h, data, size, done, o);
    }
  }

  lemma OffsetsStep(done: seq<nat>, len: nat, size: nat, offset: nat)
    requires size > 0 && offset < len
    ensures done + Offsets(len, size, offset) == (done + [offset]) + Offsets(len, size, offset + size)
  {
  }

  // The offsets done, and those from this one on.
  ghost predicate Halfway(h: string, len: nat, size: nat, done: seq<nat>, paths: seq<string>, offset: nat)
    requires size > 0
  {
    done + Offsets(len, size, offset) == Offsets(len, size, 0) && (forall o :: o in done ==> o < offset) &&
    paths == Paths(h, done)
  }

  lemma HalfwayStep(h: string, len: nat, size: nat, done: seq<nat>, paths: seq<string>, offset: nat) returns (next: seq<nat>)
    requires size > 0 && offset < len && Halfway(h, len, size, done, paths, offset)
    ensures next == done + [offset] && Halfway(h, len, size, next, paths + [ChunkPath(h, offset)], offset + size)
    ensures next <= Offsets(len, size, 0)
  {
    next := done + [offset];
    OffsetsStep(done, len, size, offset);
  }

  method SendChunks(r: Remote, finalHash: string, data: Data, chunkSize: nat)
    returns (failure: Option<Failure>, chunkPaths: seq<string>)
    requires chunkSize > 0
    modifies r
    ensures var offsets := Offsets(|data|, chunkSize, 0);
            r.files - ChunkPaths(finalHash, offsets) == old(r.files) - ChunkPaths(finalHash, offsets) &&
            (r.reliable ==> failure.None?) &&
            (failure.None? ==>
              chunkPaths == Paths(finalHash, offsets) &&
              Sending(r.reliable && Injective(r.hash), old(r.files), r.files, old(r.sent), r.sent, finalHash, data, chunkSize, offsets))
  {
    chunkPaths := [];
    ghost var done: seq<nat> := [];
    ghost var offsets := Offsets(|data|, chunkSize, 0);
    ghost var trusted := r.reliable && Injective(r.hash);
    var offset: nat := 0;
    while offset < |data|
      invariant Halfway(finalHash, |data|, chunkSize, done, chunkPaths, offset)
      invariant Sending(trusted, old(r.files), r.files, old(r.sent), r.sent, finalHash, data, chunkSize, done)
    {
      var end := Min(offset + chunkSize, |data|);
      var nextStep := data[offset..end];
      var chunkPath := ChunkPath(finalHash, offset);
      ghost var next := HalfwayStep(finalHash, |data|, chunkSize, done, chunkPaths, offset);
      chunkPaths := chunkPaths + [chunkPath];
      ghost var files, sent := r.files, r.sent;
      failure := SendChunk(r, chunkPath, nextStep);
      if failure.Some? {
        GivenUp(old(r.files), files, r.files, finalHash, done, offset, offsets);
        return;
      }
      SendingStep(trusted, old(r.files), files, r.files, old(r.sent), sent, r.sent, finalHash, data, chunkSize, done, offset);
      done := next;
      offset := offset + chunkSize;
    }
    assert done == offsets;
    failure := None;
  }

  lemma GivenUp(was: map<string, Data>, files: map<string, Data>, files': map<string, Data>,
                h: string, done: seq<nat>, o: nat, offsets: seq<nat>)
    requires files - ChunkPaths(h, done) == was - ChunkPaths(h, done)
    requires files' - {ChunkPath(h, o)} == files - {ChunkPath(h, o)} && done + [o] <= offsets
    ensures files' - ChunkPaths(h, offsets) == was - ChunkPaths(h, offsets)
  {
    ChunkPathsSnoc(h, done, o);
    MinusTwo(was, files, files', ChunkPaths(h, done), ChunkPath(h, o));
    ChunkPathsPart(h, done + [o], offsets);
    MinusMore(was, files', ChunkPaths(h, done + [o]), ChunkPaths(h, offsets));
  }

  lemma ChunkPathsPart(h: string, part: seq<nat>, offsets: seq<nat>)
    requires part <= offsets
    ensures ChunkPaths(h, part) <= ChunkPaths(h, offsets)
  {
  }

  // ---- removing the chunks

  ghost predicate Ascending(r: seq<nat>) {
    forall i, j :: 0 <= i < j < |r| ==> r[i] < r[j]
  }

  lemma {:induction false} OffsetsAscend(len: nat, size: nat, from: nat)
    requires size > 0
    ensures Ascending(Offsets(len, size, from))
    decreases if from < len then len - from else 0
  {
    if from < len {
      OffsetsAscend(len, size, from + size);
      AscendingCons(from, Offsets(len, size, from + size));
    }
  }

  lemma AscendingCons(x: nat, rest: seq<nat>)
    requires Ascending(rest) && forall o :: o in rest ==> x < o
    ensures Ascending([x] + rest)
  {
    assert forall j :: 0 <= j < |rest| ==> rest[j] in rest;
  }

  lemma PathsDiffer(h: string, offsets: seq<nat>)
    requires Ascending(offsets)
    ensures var p := Paths(h, offsets); forall i, j :: 0 <= i < j < |p| ==> p[i] != p[j]
  {
    forall i, j | 0 <= i < j < |offsets| ensures ChunkPath(h, offsets[i]) != ChunkPath(h, offsets[j]) {
      if ChunkPath(h, offsets[i]) == ChunkPath(h, offsets[j]) {
        ChunkPathInjective(h, offsets[i], offsets[j]);
      }
    }
  }

  method RemoveAll(r: Remote, paths: seq<string>) returns (failure: Option<Failure>)
    requires forall i, j :: 0 <= i < j < |paths| ==> paths[i] != paths[j]
    modifies r`files
    ensures r.files - (set p | p in paths) == old(r.files) - (set p | p in paths)
    ensures failure.None? ==> r.files == old(r.files) - (set p | p in paths)
    ensures r.reliable && (forall p :: p in paths ==> p in old(r.files)) ==> failure.None?
  {
    var j := 0;
    ghost var all := set p | p in paths;
    ghost var gone: set<string> := {};
    while j < |paths|
      invariant 0 <= j <= |paths|
      invariant gone == set p | p in paths[..j]
      invariant r.files == old(r.files) - gone
    {
      assert paths[..j + 1] == paths[..j] + [paths[j]];
      assert paths[j] !in gone;
      ghost var files := r.files;
      var ok := r.Remove(paths[j]);
      if !ok {
        MinusMore(files, r.files, {paths[j]}, all);
        assert files - all == old(r.files) - all;
        return Some(CallFailed);
      }
      assert r.files == r.files - {paths[j]};
      gone := gone + {paths[j]};
      assert r.files == old(r.files) - gone;
      j := j + 1;
    }
    assert paths[..j] == paths;
    return None;
  }

  // ---- the whole upload

  // The file is there already, with this content.
  predicate Has(files: map<string, Data>, path: string, data: Data) {
    path in files && files[path] == data
  }

  // What an upload does to a reliable system: nothing if the file has the data; otherwise it
  // sends the missing chunks, removes them all, and leaves the data in the file.  Without any
  // chunk the file gets what the shell reads from its standard input.
  ghost predicate UploadDone(was: map<string, Data>, files: map<string, Data>, sentWas: set<string>, sent: set<string>, stdin: Data,
                             path: string, h: string, data: Data, size: nat, failure: Option<Failure>)
    requires size > 0
  {
    var offsets := Offsets(|data|, size, 0);
    if Has(was, path, data) then
      failure == None && files == was && sent == sentWas
    else if data == "" then
      files == was[path := stdin] && (failure == if stdin == "" then None else Some(FinalMismatch))
    else
      failure == None && files == (was - ChunkPaths(h, offsets))[path := data] &&
      sent == sentWas + {path} + Missing(was, h, data, size, offsets)
  }

  // Joining the chunks, and checking the result.
  method Join(r: Remote, path: string, data: Data, size: nat, finalHash: string, chunkPaths: seq<string>)
    returns (hash: string, failure: Option<Failure>)
    requires size > 0 && finalHash == r.hash(data) && chunkPaths == Paths(finalHash, Offsets(|data|, size, 0))
    modifies r`files
    ensures r.files - {path} == old(r.files) - {path}
    ensures failure.None? ==> path in r.files && r.hash(r.files[path]) == hash == finalHash
    ensures r.reliable && path !in chunkPaths && InPlaceAll(old(r.files), finalHash, data, size) ==>
      var content := if data == "" then r.stdin else data;
      r.files == old(r.files)[path := content] &&
      failure == if r.hash(content) == finalHash then None else Some(FinalMismatch)
  {
    if InPlaceAll(r.files, finalHash, data, size) {
      ChunksTile(r.files, finalHash, data, size, 0);
      assert data[0..] == data;
    }
    var ok, success := r.ShellCat(chunkPaths, path);
    if !ok {
      return "", Some(CallFailed);
    }
    if !success {
      return "", Some(JoinFailed);
    }
    ok, hash := r.FileSHA256Hex(path);
    if !ok {
      return "", Some(CallFailed);
    }
    if hash != finalHash {
      return hash, Some(FinalMismatch);
    }
    return hash, None;
  }

  ghost predicate InPlaceAll(files: map<string, Data>, h: string, data: Data, size: nat)
    requires size > 0
  {
    forall o :: o in Offsets(|data|, size, 0) ==> InPlace(files, h, data, size, o)
  }

  lemma PathsAreChunkPaths(h: string, offsets: seq<nat>)
    ensures (set p | p in Paths(h, offsets)) == ChunkPaths(h, offsets)
  {
    var paths := Paths(h, offsets);
    forall p | p in ChunkPaths(h, offsets) ensures p in paths {
      var o :| o in offsets && ChunkPath(h, o) == p;
      var i :| 0 <= i < |offsets| && offsets[i] == o;
      assert paths[i] == p;
    }
    forall p | p in paths ensures p in ChunkPaths(h, offsets) {
      var i :| 0 <= i < |paths| && paths[i] == p;
      assert offsets[i] in offsets;
    }
  }

  // The file itself is not a chunk: creating it first does not change which chunks are missing.
  lemma CreatedFirst(was: map<string, Data>, path: string, x: Data, h: string, data: Data, size: nat, offsets: seq<nat>)
    requires path !in ChunkPaths(h, offsets)
    ensures Missing(was[path := x], h, data, size, offsets) == Missing(was, h, data, size, offsets)
  {
    forall o | o in offsets ensures ChunkPath(h, o) != path {
      assert ChunkPath(h, o) in ChunkPaths(h, offsets);
    }
    assert forall o :: o in offsets ==> (InPlace(was[path := x], h, data, size, o) <==> InPlace(was, h, data, size, o));
  }

  // The chunks are in place and the target is written: what removing the chunks leaves.
  lemma Joined(was: map<string, Data>, f2: map<string, Data>, path: string, content: Data, h: string, data: Data, size: nat)
    requires size > 0
    requires var offsets := Offsets(|data|, size, 0);
             path !in ChunkPaths(h, offsets) && Sent(was[path := ""], f2, h, data, size, offsets)
    ensures var offsets := Offsets(|data|, size, 0);
            var f3 := f2[path := content];
            InPlaceAll(f2, h, data, size) && (forall p :: p in Paths(h, offsets) ==> p in f3 && p != path) &&
            (data == "" ==> f3 == was[path := content] && f3 - ChunkPaths(h, offsets) == f3) &&
            f3 - ChunkPaths(h, offsets) == (was - ChunkPaths(h, offsets))[path := content]
  {
    var offsets := Offsets(|data|, size, 0);
    PathsExist(f2, h, data, size, offsets);
    PathsAreChunkPaths(h, offsets);
    Finished(was, path, "", content, f2, ChunkPaths(h, offsets));
    if data == "" {
      assert ChunkPaths(h, offsets) == {};
      assert forall m: map<string, Data> :: m - {} == m;
    }
  }

  lemma Finished(was: map<string, Data>, path: string, x: Data, y: Data, f2: map<string, Data>, chunks: set<string>)
    requires f2 - chunks == was[path := x] - chunks && path !in chunks
    ensures f2[path := y] - chunks == (was - chunks)[path := y]
  {
    assert (was[path := x] - chunks)[path := y] == (was - chunks)[path := y];
    assert f2[path := y] - chunks == (f2 - chunks)[path := y];
  }

  method FileWriteInChunks(r: Remote, path: string, data: Data, chunkSize: nat) returns (hash: string, failure: Option<Failure>)
    modifies r
    ensures var chunks := ChunkPaths(r.hash(data), Offsets(|data|, ChunkSize(chunkSize), 0));
            r.files - (chunks + {path}) == old(r.files) - (chunks + {path}) &&
            (failure.None? && path !in chunks ==> path in r.files && r.hash(r.files[path]) == hash == r.hash(data)) &&
            (failure.None? ==> r.files == old(r.files) || forall p :: p in chunks ==> p !in r.files) &&
            (r.reliable && Injective(r.hash) && path !in chunks ==>
              UploadDone(old(r.files), r.files, old(r.sent), r.sent, r.stdin,
                         path, r.hash(data), data, ChunkSize(chunkSize), failure))
  {
    var size := ChunkSize(chunkSize);
    var finalHash := r.hash(data);
    ghost var offsets := Offsets(|data|, size, 0);
    ghost var chunks := ChunkPaths(finalHash, offsets);
    ghost var all := chunks + {path};
    ghost var trusted := r.reliable && Injective(r.hash);
    var ok;
    ok, hash := r.FileSHA256Hex(path);
    if ok && hash == finalHash {
      return hash, None;
    }
    var h;
    ok, h := r.FileWrite(path, "");
    MinusMore(old(r.files), r.files, {path}, all);
    if !ok {
      return "", Some(CallFailed);
    }
    ghost var f1 := r.files;
    var chunkPaths;
    failure, chunkPaths := SendChunks(r, finalHash, data, size);
    MinusMore(f1, r.files, chunks, all);
    if failure.Some? {
      return "", failure;
    }
    PathsAreChunkPaths(finalHash, offsets);
    ghost var f2 := r.files;
    if trusted && path !in chunks {
      Joined(old(r.files), f2, path, if data == "" then r.stdin else data, finalHash, data, size);
      CreatedFirst(old(r.files), path, "", finalHash, data, size, offsets);
    }
    hash, failure := Join(r, path, data, size, finalHash, chunkPaths);
    MinusMore(f2, r.files, {path}, all);
    if failure.Some? {
      return hash, failure;
    }
    ghost var f3 := r.files;
    OffsetsAscend(|data|, size, 0);
    PathsDiffer(finalHash, offsets);
    failure := RemoveAll(r, chunkPaths);
    MinusMore(f3, r.files, chunks, all);
    if failure.Some? {
      return "", failure;
    }
    return hash, None;
  }
}
