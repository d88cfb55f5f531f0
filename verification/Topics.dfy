// Which topics a publication visits.
module Topics {
  import opened Prelude
  import opened Text

  // The position of the last dot, or -1.
  function LastDot(s: string): (i: int)
    ensures -1 <= i < |s| && (i >= 0 ==> s[i] == '.') && forall j :: i < j < |s| ==> s[j] != '.'
  {
    if s == "" then -1 else if s[|s| - 1] == '.' then |s| - 1 else LastDot(s[..|s| - 1])
  }

  // The submatch of ^(.*)[.][^.]+$ .
  function Parent(topic: string): Option<string> {
    var i := LastDot(topic);
    if i < 0 || i == |topic| - 1 || '\n' in topic[..i] then None else Some(topic[..i])
  }

  // p . s, where the wildcard does not cross a newline
  ghost predicate IsMatch(topic: string, p: string, s: string) {
    topic == p + "." + s && s != "" && '.' !in s && '\n' !in p
  }

  // The expression matches a topic in at most one way, and Parent finds it.
  lemma ParentIsTheMatch(topic: string, p: string)
    ensures Parent(topic) == Some(p) <==> exists s :: IsMatch(topic, p, s)
  {
    var i := LastDot(topic);
    if Parent(topic) == Some(p) {
      assert IsMatch(topic, p, topic[i + 1..]);
    }
    forall s | IsMatch(topic, p, s) ensures Parent(topic) == Some(p) {
      LastDotOf(p, s);
    }
  }

  lemma LastDotOf(p: string, s: string)
    requires '.' !in s
    ensures var t := p + "." + s; LastDot(t) == |p| && t[..|p|] == p && t[|p| + 1..] == s
  {
    var t := p + "." + s;
    var i := LastDot(t);
    assert t[|p|] == '.';
    assert !(i < |p|);
    assert !(i > |p|) by {
      assert forall j :: |p| < j < |t| ==> t[j] == s[j - |p| - 1];
    }
  }

  // The topics a publication visits, in order: the topic, the matches, then "".
  function Visits(topic: string): (v: seq<string>)
    decreases |topic|, 1
  {
    [topic] + After(topic)
  }

  function After(topic: string): seq<string>
    decreases |topic|, 0
  {
    match Parent(topic)
    case None => [""]
    case Some(p) => Visits(p)
  }

  // Non-empty segments, and no newline but in the last of them.
  predicate WellFormed(topic: string) {
    SegmentsOK(Split(topic, '.'))
  }

  predicate SegmentsOK(segs: seq<string>) {
    forall i :: 0 <= i < |segs| ==> segs[i] != "" && (i < |segs| - 1 ==> '\n' !in segs[i])
  }

  lemma {:induction false} SplitSnoc(p: string, s: string)
    requires '.' !in s
    ensures Split(p + "." + s, '.') == Split(p, '.') + [s]
    decreases |p|
  {
    var i := IndexOf(p, '.');
    SplitNone(s, '.');
    if i == |p| {
      SplitNone(p, '.');
      SplitCons(p, s, '.');
    } else {
      var u, v := p[..i], p[i + 1..];
      SplitSnoc(v, s);
      assert p == u + "." + v;
      SplitPrefix(p, u, v);
      Regroup(u, v, s);
      SplitPrefix(p + "." + s, u, v + "." + s);
    }
  }

  lemma Regroup(u: string, v: string, s: string)
    ensures u + "." + v + "." + s == u + "." + (v + "." + s)
  {
  }

  lemma SplitPrefix(t: string, u: string, v: string)
    requires t == u + "." + v && '.' !in u
    ensures Split(t, '.') == [u] + Split(v, '.')
  {
    SplitCons(u, v, '.');
  }

  predicate NoNewline(segs: seq<string>) {
    forall i :: 0 <= i < |segs| ==> '\n' !in segs[i]
  }

  lemma {:induction false} NewlineInSegments(t: string)
    ensures '\n' !in t <==> NoNewline(Split(t, '.'))
    decreases |t|
  {
    var i := IndexOf(t, '.');
    if i == |t| {
      SplitNone(t, '.');
      assert NoNewline([t]) ==> '\n' !in [t][0];
    } else {
      var u, v := t[..i], t[i + 1..];
      assert t == u + "." + v;
      SplitPrefix(t, u, v);
      NewlineInSegments(v);
      NoNewlineCons(u, Split(v, '.'));
    }
  }

  lemma NoNewlineCons(u: string, segs: seq<string>)
    ensures NoNewline([u] + segs) <==> '\n' !in u && NoNewline(segs)
  {
    if NoNewline([u] + segs) {
      assert ([u] + segs)[0] == u;
      assert forall i :: 0 <= i < |segs| ==> segs[i] == ([u] + segs)[i + 1];
    }
  }

  lemma Leaf(t: string)
    requires '.' !in t
    ensures Parent(t).None? && Split(t, '.') == [t]
  {
    SplitNone(t, '.');
  }

  lemma SplitAtLastDot(t: string)
    requires LastDot(t) >= 0
    ensures Split(t, '.') == Split(t[..LastDot(t)], '.') + [t[LastDot(t) + 1..]]
  {
    AroundLastDot(t);
    SplitSnoc(t[..LastDot(t)], t[LastDot(t) + 1..]);
  }

  lemma AroundLastDot(t: string)
    requires LastDot(t) >= 0
    ensures t == t[..LastDot(t)] + "." + t[LastDot(t) + 1..]
  {
  }

  lemma SegmentsSnoc(segs: seq<string>, s: string)
    ensures SegmentsOK(segs + [s]) <==> SegmentsOK(segs) && NoNewline(segs) && s != ""
  {
    var all := segs + [s];
    if SegmentsOK(all) {
      assert all[|segs|] == s;
      assert forall i :: 0 <= i < |segs| ==> segs[i] == all[i];
    }
  }

  // A topic of two segments or more is well-formed when it has a match that is.
  lemma WellFormedByParent(t: string)
    requires '.' in t
    ensures WellFormed(t) <==> Parent(t).Some? && WellFormed(Parent(t).value)
  {
    var i := LastDot(t);
    SplitAtLastDot(t);
    SegmentsSnoc(Split(t[..i], '.'), t[i + 1..]);
    NewlineInSegments(t[..i]);
  }

  function Prefixes(segs: seq<string>): (r: seq<string>)
    ensures |r| == |segs| && forall i :: 0 <= i < |r| ==> r[i] == Join(segs[..|segs| - i], '.')
  {
    seq(|segs|, i requires 0 <= i < |segs| => Join(segs[..|segs| - i], '.'))
  }

  lemma PrefixesSnoc(rest: seq<string>, last: string)
    ensures Prefixes(rest + [last]) == [Join(rest + [last], '.')] + Prefixes(rest)
  {
    var segs := rest + [last];
    assert segs[..|segs|] == segs;
    forall i | 0 < i < |segs| ensures Prefixes(segs)[i] == ([""] + Prefixes(rest))[i] {
      assert segs[..|segs| - i] == rest[..|rest| - (i - 1)];
    }
  }

  lemma PrefixesOfLeaf(t: string)
    requires '.' !in t
    ensures Prefixes(Split(t, '.')) == [t]
  {
    SplitNone(t, '.');
    assert [t][..1] == [t];
  }

  lemma PrefixesOfParent(t: string)
    requires Parent(t).Some?
    ensures Prefixes(Split(t, '.')) == [t] + Prefixes(Split(Parent(t).value, '.'))
  {
    JoinSplit(t, '.');
    SplitAtLastDot(t);
    PrefixesSnoc(Split(Parent(t).value, '.'), t[LastDot(t) + 1..]);
  }

  // A well-formed topic of n segments visits exactly its n dot-prefixes, longest first, and then "".
  lemma {:induction false} VisitsOfWellFormed(t: string)
    requires WellFormed(t)
    ensures Visits(t) == Prefixes(Split(t, '.')) + [""]
    decreases |t|
  {
    if '.' in t {
      WellFormedByParent(t);
      VisitsOfWellFormed(Parent(t).value);
      PrefixesOfParent(t);
      assert After(t) == Visits(Parent(t).value);
    } else {
      Leaf(t);
      PrefixesOfLeaf(t);
    }
  }

  // The topics after which "" would be reached by a match as well as at the end.
  predicate ReachesRootTwice(t: string) {
    t == "" || (t[0] == '.' && WellFormed(t[1..]))
  }

  lemma {:induction false} VisitsAreNotLonger(t: string)
    ensures forall k :: 0 <= k < |Visits(t)| ==> |Visits(t)[k]| <= |t|
    decreases |t|
  {
    if Parent(t).Some? {
      VisitsAreNotLonger(Parent(t).value);
      assert After(t) == Visits(Parent(t).value);
    }
  }

  lemma ReachesTwiceOfParent(t: string)
    requires Parent(t).Some?
    ensures ReachesRootTwice(t) <==> ReachesRootTwice(Parent(t).value)
  {
    var p := Parent(t).value;
    var s := t[LastDot(t) + 1..];
    assert t == p + "." + s;
    if p == "" {
      assert t[1..] == s;
      Leaf(s);
    } else if p[0] == '.' {
      assert t[1..] == p[1..] + "." + s;
      assert IsMatch(t[1..], p[1..], s);
      ParentIsTheMatch(t[1..], p[1..]);
      WellFormedByParent(t[1..]);
    }
  }

  ghost predicate AllDistinct(v: seq<string>) {
    forall i, j :: 0 <= i < j < |v| ==> v[i] != v[j]
  }

  // No topic is visited twice, except that the topic "" and a topic made of a dot and a
  // well-formed rest reach "" twice.
  lemma {:induction false} VisitedOnceExactly(t: string)
    ensures AllDistinct(Visits(t)) <==> !ReachesRootTwice(t)
    decreases |t|
  {
    match Parent(t)
    case None =>
      if t != "" && t[0] == '.' && WellFormed(t[1..]) {
        NotParentless(t);
      }
      DistinctTwo(t);
    case Some(p) =>
      VisitedOnceExactly(p);
      ReachesTwiceOfParent(t);
      VisitsAreNotLonger(p);
      DistinctCons(t, Visits(p));
      assert After(t) == Visits(p);
  }

  lemma DistinctTwo(t: string)
    ensures AllDistinct([t] + [""]) <==> t != ""
  {
    var v := [t] + [""];
    if AllDistinct(v) {
      assert v[0] != v[1];
    }
  }

  lemma DistinctCons(t: string, w: seq<string>)
    requires forall k :: 0 <= k < |w| ==> |w[k]| < |t|
    ensures AllDistinct([t] + w) <==> AllDistinct(w)
  {
    var v := [t] + w;
    if AllDistinct(v) {
      assert forall i, j :: 0 <= i < j < |w| ==> w[i] == v[i + 1] && w[j] == v[j + 1];
    }
  }

  lemma DotBefore(t: string, r: string, p: string, s: string)
    requires t == "." + r && IsMatch(r, p, s)
    ensures IsMatch(t, "." + p, s)
  {
    assert forall i :: 0 < i < |"." + p| ==> ("." + p)[i] == p[i - 1];
    assert t == ("." + p) + "." + s;
  }

  lemma NotParentless(t: string)
    requires t != "" && t[0] == '.' && WellFormed(t[1..])
    ensures Parent(t).Some?
  {
    var r := t[1..];
    if '.' in r {
      WellFormedByParent(r);
      var p := Parent(r).value;
      ParentIsTheMatch(r, p);
      var s :| IsMatch(r, p, s);
      DotBefore(t, r, p, s);
      ParentIsTheMatch(t, "." + p);
    } else {
      Leaf(r);
      assert Split(r, '.')[0] != "";
      assert IsMatch(t, "", r);
      ParentIsTheMatch(t, "");
    }
  }
}
