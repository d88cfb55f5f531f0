// Removing a channel from a list in place, as values: what the shifting loop leaves, and
// exactly when that is the list without the channel.
module Removal {

  function Count<C(==)>(s: seq<C>, c: C): (n: nat) {
    multiset(s)[c]
  }

  function Without<C(==)>(s: seq<C>, c: C): (r: seq<C>) {
    if s == [] then [] else (if s[0] == c then [] else [s[0]]) + Without(s[1..], c)
  }

  lemma {:induction false} WithoutIs<C>(s: seq<C>, c: C)
    ensures |Without(s, c)| == |s| - Count(s, c) && c !in Without(s, c)
  {
    if s != [] {
      assert s == [s[0]] + s[1..];
      WithoutIs(s[1..], c);
    }
  }

  lemma {:induction false} Append<C>(a: seq<C>, b: seq<C>, c: C)
    ensures Without(a + b, c) == Without(a, c) + Without(b, c)
  {
    if a == [] {
      assert a + b == b;
    } else {
      assert (a + b)[0] == a[0] && (a + b)[1..] == a[1..] + b;
      Append(a[1..], b, c);
    }
  }

  lemma {:induction false} Absent<C>(s: seq<C>, c: C)
    requires c !in s
    ensures Count(s, c) == 0 && Without(s, c) == s
  {
    if s != [] {
      Absent(s[1..], c);
    }
  }

  // append(list[:k], list[k+1:]...) as it leaves the slots of list
  function Shift<C>(s: seq<C>, k: nat): (r: seq<C>)
    requires k < |s|
    ensures |r| == |s|
  {
    seq(|s|, i requires 0 <= i < |s| => if i < k then s[i] else if i < |s| - 1 then s[i + 1] else s[|s| - 1])
  }

  // The loop over the slots from k on.
  function Sweep<C(==)>(s: seq<C>, k: nat, c: C): (r: seq<C>)
    requires k <= |s|
    ensures |r| == |s|
    decreases |s| - k
  {
    if k == |s| then s else Sweep(if s[k] == c then Shift(s, k) else s, k + 1, c)
  }

  // The list one removal leaves.
  function Unregistered<C(==)>(s: seq<C>, c: C): (r: seq<C>)
    ensures |r| == if c in s then |s| - 1 else |s|
  {
    if c in s then Sweep(s, 0, c)[..|s| - 1] else s
  }

  // The backing array after one removal from its first n slots.
  function Swept<C(==)>(full: seq<C>, n: nat, c: C): (r: seq<C>)
    requires n <= |full|
    ensures |r| == |full|
  {
    Sweep(full[..n], 0, c) + full[n..]
  }

  // Removal from every topic: the loop over the slots a from i on, the list being a[..n] by now.
  function Rest<C(==)>(a: seq<C>, n: nat, i: nat, c: C): seq<C>
    requires n <= |a| && i <= |a|
    decreases |a| - i
  {
    if i == |a| then a[..n]
    else if a[i] == c && c in a[..n] then Rest(Swept(a, n, c), n - 1, i + 1, c)
    else Rest(a, n, i + 1, c)
  }

  function UnregisteredAll<C(==)>(s: seq<C>, c: C): seq<C> {
    Rest(s, |s|, 0, c)
  }

  // c does not occur in the slots from i to j.
  ghost predicate Free<C>(s: seq<C>, i: nat, j: nat, c: C)
    requires j <= |s|
  {
    forall k :: i <= k < j ==> s[k] != c
  }

  // The first slot that holds c.
  ghost predicate First<C>(s: seq<C>, c: C, p: nat) {
    p < |s| && s[p] == c && Free(s, 0, p, c)
  }

  lemma {:induction false} FindFirst<C>(s: seq<C>, c: C, i: nat) returns (p: nat)
    requires c in s && i <= |s| && Free(s, 0, i, c)
    ensures First(s, c, p)
    decreases |s| - i
  {
    assert i < |s|;
    if s[i] == c {
      p := i;
    } else {
      p := FindFirst(s, c, i + 1);
    }
  }

  // ---- one shift

  lemma ShiftIs<C>(s: seq<C>, k: nat)
    requires k < |s|
    ensures Shift(s, k) == s[..k] + s[k + 1..] + [s[|s| - 1]]
  {
  }

  lemma ShiftCounts<C>(s: seq<C>, k: nat, c: C)
    requires k < |s| && s[k] == c
    ensures Count(Shift(s, k), c) == Count(s, c) - if s[|s| - 1] == c then 0 else 1
  {
    ShiftIs(s, k);
    assert s == s[..k] + [c] + s[k + 1..];
  }

  lemma WithoutSelf<C>(c: C)
    ensures Without([c], c) == []
  {
    assert [c][1..] == [];
  }

  lemma WithoutOne<C>(a: seq<C>, b: seq<C>, c: C)
    ensures Without(a + [c] + b, c) == Without(a, c) + Without(b, c)
  {
    Append(a + [c], b, c);
    Append(a, [c], c);
    WithoutSelf(c);
  }

  lemma MoveToEnd<C>(u: seq<C>, v: seq<C>, c: C)
    ensures Without(u + v + [c], c) == Without(u + [c] + v, c)
  {
    WithoutOne(u, v, c);
    Append(u + v, [c], c);
    WithoutSelf(c);
    Append(u, v, c);
  }

  lemma Cut<C>(s: seq<C>, k: nat, c: C)
    requires k < |s| && s[k] == c && s[|s| - 1] == c
    ensures s == s[..k] + [c] + s[k + 1..] && Shift(s, k) == s[..k] + s[k + 1..] + [c]
  {
  }

  lemma ShiftKeepsOthers<C>(s: seq<C>, k: nat, c: C)
    requires k < |s| && s[k] == c && s[|s| - 1] == c
    ensures Without(Shift(s, k), c) == Without(s, c)
  {
    Cut(s, k, c);
    MoveToEnd(s[..k], s[k + 1..], c);
  }

  lemma CountFrom<C>(s: seq<C>, j: nat, c: C)
    requires j < |s|
    ensures Count(s[j..], c) == Count(s[j + 1..], c) + if s[j] == c then 1 else 0
  {
    assert s[j..] == [s[j]] + s[j + 1..];
  }

  // Nothing but the channel moves to the right.
  lemma {:induction false} ShiftSuffix<C>(s: seq<C>, k: nat, c: C, j: nat)
    requires k < |s| && s[k] == c && s[|s| - 1] == c && j <= |s|
    ensures Count(Shift(s, k)[j..], c) >= Count(s[j..], c)
    ensures k < j < |s| ==> Count(Shift(s, k)[j..], c) >= 1 + Count(s[j + 1..], c)
    decreases |s| - j
  {
    var r := Shift(s, k);
    if j < |s| {
      CountFrom(s, j, c);
      CountFrom(r, j, c);
      ShiftSuffix(s, k, c, j + 1);
      if j < |s| - 1 {
        CountFrom(s, j + 1, c);
      } else {
        assert r[j..] == [c] && s[j + 1..] == [];
      }
    }
  }

  // ---- the loop

  lemma {:induction false} SweepSkips<C>(s: seq<C>, k: nat, p: nat, c: C)
    requires k <= p <= |s| && Free(s, k, p, c)
    ensures Sweep(s, k, c) == Sweep(s, p, c)
    decreases p - k
  {
    if k < p {
      SweepSkips(s, k + 1, p, c);
    }
  }

  lemma SweepMisses<C>(s: seq<C>, k: nat, c: C)
    requires k <= |s| && Free(s, k, |s|, c)
    ensures Sweep(s, k, c) == s
  {
    SweepSkips(s, k, |s|, c);
  }

  lemma SweepFirst<C>(s: seq<C>, p: nat, c: C)
    requires First(s, c, p)
    ensures Sweep(s, 0, c) == Sweep(Shift(s, p), p + 1, c)
  {
    SweepSkips(s, 0, p, c);
  }

  lemma SweepOnce<C>(s: seq<C>, p: nat, c: C)
    requires First(s, c, p) && Free(Shift(s, p), p + 1, |s|, c)
    ensures Sweep(s, 0, c) == Shift(s, p)
  {
    SweepFirst(s, p, c);
    SweepMisses(Shift(s, p), p + 1, c);
  }

  lemma AtFirst<C>(s: seq<C>, p: nat, c: C)
    requires First(s, c, p)
    ensures Count(s, c) == 1 + Count(s[p + 1..], c)
    ensures Without(s, c) == s[..p] + Without(s[p + 1..], c)
  {
    assert s == s[..p] + [c] + s[p + 1..];
    WithoutOne(s[..p], s[p + 1..], c);
    Absent(s[..p], c);
  }

  // A channel that occurs once is removed, and the others keep their order.
  lemma UnregisterOne<C>(s: seq<C>, p: nat, c: C)
    requires First(s, c, p) && Count(s, c) == 1
    ensures Sweep(s, 0, c) == Shift(s, p) && Shift(s, p)[..|s| - 1] == Without(s, c)
  {
    AtFirst(s, p, c);
    FreeAfter(s, p, c);
    if p < |s| - 1 {
      SweepOnce(s, p, c);
    } else {
      SweepFirst(s, p, c);
    }
    ShiftIs(s, p);
    Absent(s[p + 1..], c);
  }

  lemma FreeAfter<C>(s: seq<C>, p: nat, c: C)
    requires p < |s| && Count(s[p + 1..], c) == 0
    ensures Free(s, p + 1, |s|, c)
    ensures p < |s| - 1 ==> Free(Shift(s, p), p + 1, |s|, c)
  {
    assert forall k :: p < k < |s| ==> s[k] == s[p + 1..][k - p - 1];
  }

  // The loop removes the channel, and nothing else, exactly when it occurs at most once: it
  // shortens the list by one however often the channel occurs.
  lemma UnregisterExactly<C>(s: seq<C>, c: C)
    ensures Unregistered(s, c) == Without(s, c) <==> Count(s, c) <= 1
  {
    WithoutIs(s, c);
    if Count(s, c) == 0 {
      Absent(s, c);
    } else if Count(s, c) == 1 {
      var p := FindFirst(s, c, 0);
      UnregisterOne(s, p, c);
    }
  }

  lemma ShiftSuffixes<C>(s: seq<C>, k: nat, c: C)
    requires k < |s| && s[k] == c && s[|s| - 1] == c
    ensures forall j :: 0 <= j <= |s| ==> Count(Shift(s, k)[j..], c) >= Count(s[j..], c)
  {
    forall j | 0 <= j <= |s| ensures Count(Shift(s, k)[j..], c) >= Count(s[j..], c) {
      ShiftSuffix(s, k, c, j);
    }
  }

  // With the channel in the last slot, the loop only moves the channel to the end.
  lemma {:induction false} SweepMovesBack<C>(s: seq<C>, k: nat, c: C)
    requires k <= |s| && s != [] && s[|s| - 1] == c
    ensures var r := Sweep(s, k, c);
            r[|s| - 1] == c && Without(r, c) == Without(s, c) && Count(r, c) == Count(s, c) &&
            forall j :: 0 <= j <= |s| ==> Count(r[j..], c) >= Count(s[j..], c)
    decreases |s| - k
  {
    if k < |s| && s[k] == c {
      var r := Shift(s, k);
      ShiftCounts(s, k, c);
      ShiftKeepsOthers(s, k, c);
      ShiftSuffixes(s, k, c);
      SweepMovesBack(r, k + 1, c);
    } else if k < |s| {
      SweepMovesBack(s, k + 1, c);
    }
  }

  lemma {:induction false} SweepKeepsLastTwo<C>(s: seq<C>, k: nat, c: C)
    requires k <= |s| && |s| > 1 && s[|s| - 1] == s[|s| - 2] == c
    ensures Sweep(s, k, c)[|s| - 2] == c
    decreases |s| - k
  {
    if k < |s| {
      SweepKeepsLastTwo(if s[k] == c then Shift(s, k) else s, k + 1, c);
    }
  }

  // Otherwise every channel it removes is replaced by a copy of the last slot.
  lemma {:induction false} SweepCopiesLast<C>(s: seq<C>, k: nat, c: C)
    requires k <= |s| && s != [] && s[|s| - 1] != c
    ensures var r := Sweep(s, k, c);
            r[|s| - 1] != c && Count(r, c) <= Count(s, c) && (!Free(s, k, |s|, c) ==> Count(r, c) < Count(s, c))
    decreases |s| - k
  {
    if k < |s| {
      if s[k] == c {
        ShiftCounts(s, k, c);
        SweepCopiesLast(Shift(s, k), k + 1, c);
      } else {
        SweepCopiesLast(s, k + 1, c);
      }
    }
  }

  lemma CountDropLast<C>(s: seq<C>, c: C)
    requires s != []
    ensures Count(s, c) == Count(s[..|s| - 1], c) + if s[|s| - 1] == c then 1 else 0
  {
    assert s == s[..|s| - 1] + [s[|s| - 1]];
  }

  lemma WithoutDropLast<C>(s: seq<C>, c: C)
    requires s != [] && s[|s| - 1] == c
    ensures Without(s, c) == Without(s[..|s| - 1], c)
  {
    Append(s[..|s| - 1], [c], c);
    WithoutSelf(c);
    assert s[..|s| - 1] + [c] == s;
  }

  // ---- removal from every topic

  lemma {:induction false} RestSkips<C>(a: seq<C>, n: nat, i: nat, p: nat, c: C)
    requires n <= |a| && i <= p <= |a| && (Free(a, i, p, c) || Free(a, 0, n, c))
    ensures Rest(a, n, i, c) == Rest(a, n, p, c)
    decreases p - i
  {
    if i < p {
      RestSkips(a, n, i + 1, p, c);
    }
  }

  lemma RestClean<C>(a: seq<C>, n: nat, i: nat, c: C)
    requires n <= |a| && i <= |a| && (Free(a, 0, n, c) || Free(a, i, |a|, c))
    ensures Rest(a, n, i, c) == a[..n]
  {
    RestSkips(a, n, i, |a|, c);
  }

  lemma LastTwo<C>(s: seq<C>, p: nat, c: C)
    requires First(s, c, p) && s[|s| - 1] == c && Count(s, c) > 1
    ensures Sweep(s, 0, c)[|s| - 2] == c
  {
    assert p < |s| - 1 by {
      CountFrom(s, p, c);
      AtFirst(s, p, c);
    }
    SweepFirst(s, p, c);
    SweepKeepsLastTwo(Shift(s, p), p + 1, c);
  }

  lemma SweepDropsOne<C>(s: seq<C>, c: C)
    requires c in s && s[|s| - 1] == c
    ensures var r := Sweep(s, 0, c)[..|s| - 1];
            Without(r, c) == Without(s, c) && Count(r, c) == Count(s, c) - 1 && (c in r ==> r[|s| - 2] == c)
  {
    var r := Sweep(s, 0, c);
    SweepMovesBack(s, 0, c);
    CountDropLast(r, c);
    WithoutDropLast(r, c);
    if Count(s, c) > 1 {
      var p := FindFirst(s, c, 0);
      LastTwo(s, p, c);
    }
  }

  // One removal from a list that ends with the channel: the list keeps ending with it until
  // none is left, and as many slots still to visit hold it.
  lemma SweepBackStep<C>(a: seq<C>, n: nat, i: nat, c: C)
    requires n <= |a| && i < |a| && a[i] == c && c in a[..n] && a[n - 1] == c
    requires Count(a[i..], c) >= Count(a[..n], c)
    ensures var b := Swept(a, n, c);
            Without(b[..n - 1], c) == Without(a[..n], c) && Count(b[i + 1..], c) >= Count(b[..n - 1], c) &&
            (c in b[..n - 1] ==> b[n - 2] == c)
  {
    SweptDropsOne(a, n, c);
    CountFrom(a, i, c);
    LaterSlots(a, n, i + 1, c);
  }

  lemma SweptDropsOne<C>(a: seq<C>, n: nat, c: C)
    requires n <= |a| && c in a[..n] && a[n - 1] == c
    ensures var b := Swept(a, n, c);
            Without(b[..n - 1], c) == Without(a[..n], c) && Count(b[..n - 1], c) == Count(a[..n], c) - 1 &&
            (c in b[..n - 1] ==> b[n - 2] == c)
  {
    SweepDropsOne(a[..n], c);
    FrontOf(Sweep(a[..n], 0, c), a[n..], n - 1);
  }

  lemma FrontOf<C>(r: seq<C>, t: seq<C>, n: nat)
    requires n <= |r|
    ensures (r + t)[..n] == r[..n]
  {
  }

  // What one removal does to the slots still to visit, in a backing array with l slots in use.
  lemma AfterRemoval<C>(full: seq<C>, l: nat, n: nat, i: nat, c: C)
    requires n <= l <= |full| && i < l && full[i] == c
    ensures var n' := |Unregistered(full[..n], c)|;
            n' <= n && Rest(full[..l], n, i, c) == Rest(Swept(full, n, c)[..l], n', i + 1, c)
  {
    var slots := full[..l];
    assert slots[..n] == full[..n];
    assert Swept(full, n, c)[..l] == Swept(slots, n, c);
    if c !in full[..n] {
      SweptFree(slots, n, c);
    }
  }

  lemma SweptFree<C>(full: seq<C>, n: nat, c: C)
    requires n <= |full| && c !in full[..n]
    ensures Swept(full, n, c) == full
  {
    SweepMisses(full[..n], 0, c);
  }

  lemma SweptList<C>(full: seq<C>, n: nat, c: C)
    requires n <= |full|
    ensures Swept(full, n, c)[..|Unregistered(full[..n], c)|] == Unregistered(full[..n], c)
  {
    if c !in full[..n] {
      SweptFree(full, n, c);
    }
  }

  lemma LaterSlots<C>(a: seq<C>, n: nat, i: nat, c: C)
    requires 0 < n <= |a| && i <= |a| && a[n - 1] == c
    ensures Count(Swept(a, n, c)[i..], c) >= Count(a[i..], c)
  {
    var s, tail := a[..n], a[n..];
    var r := Sweep(s, 0, c);
    SweepMovesBack(s, 0, c);
    assert a == s + tail;
    if i <= n {
      BackOf(r, tail, i);
      BackOf(s, tail, i);
    } else {
      assert (r + tail)[i..] == a[i..];
    }
  }

  lemma BackOf<C>(r: seq<C>, t: seq<C>, i: nat)
    requires i <= |r|
    ensures (r + t)[i..] == r[i..] + t
  {
  }

  lemma FreePrefix<C>(a: seq<C>, n: nat, c: C)
    requires n <= |a| && Count(a[..n], c) == 0
    ensures Free(a, 0, n, c) && Without(a[..n], c) == a[..n]
  {
    assert forall k :: 0 <= k < n ==> a[k] == a[..n][k];
    Absent(a[..n], c);
  }

  lemma {:induction false} RestOfTail<C>(a: seq<C>, n: nat, i: nat, c: C)
    requires n <= |a| && i <= |a| && (c in a[..n] ==> a[n - 1] == c)
    requires Count(a[i..], c) >= Count(a[..n], c)
    ensures Rest(a, n, i, c) == Without(a[..n], c)
    decreases |a| - i
  {
    if Count(a[..n], c) == 0 || i == |a| {
      FreePrefix(a, n, c);
      RestClean(a, n, i, c);
    } else if a[i] == c {
      SweepBackStep(a, n, i, c);
      RestOfTail(Swept(a, n, c), n - 1, i + 1, c);
    } else {
      CountFrom(a, i, c);
      RestOfTail(a, n, i + 1, c);
    }
  }

  // The other members of a list never get fewer.
  lemma OthersStay<C>(s: seq<C>, c: C)
    requires c in s
    ensures var r := Sweep(s, 0, c)[..|s| - 1]; |r| - Count(r, c) >= |s| - Count(s, c)
  {
    CountDropLast(Sweep(s, 0, c), c);
    if s[|s| - 1] == c {
      SweepMovesBack(s, 0, c);
    } else {
      SweepCopiesLast(s, 0, c);
    }
  }

  lemma {:induction false} RestKeepsExtra<C>(a: seq<C>, n: nat, i: nat, c: C)
    requires n <= |a| && i <= |a|
    ensures var r := Rest(a, n, i, c); |r| - Count(r, c) >= n - Count(a[..n], c)
    decreases |a| - i
  {
    if i < |a| {
      if a[i] == c && c in a[..n] {
        OthersStay(a[..n], c);
        var b := Sweep(a[..n], 0, c) + a[n..];
        assert b[..n - 1] == Sweep(a[..n], 0, c)[..n - 1];
        RestKeepsExtra(b, n - 1, i + 1, c);
      } else {
        RestKeepsExtra(a, n, i + 1, c);
      }
    }
  }

  // The first removal from every topic happens at the first slot that holds the channel.
  lemma RestFirst<C>(s: seq<C>, p: nat, c: C)
    requires First(s, c, p)
    ensures UnregisteredAll(s, c) == Rest(Sweep(s, 0, c), |s| - 1, p + 1, c)
  {
    RestSkips(s, |s|, 0, p, c);
    assert s[..|s|] == s;
    assert Sweep(s, 0, c) + s[|s|..] == Sweep(s, 0, c);
  }

  // Two removals or more in one pass: another member is doubled.
  lemma RestDoubles<C>(s: seq<C>, p: nat, t: seq<C>, c: C)
    requires First(s, c, p) && s[|s| - 1] != c && t == Shift(s, p) && !Free(t, p + 1, |s|, c)
    ensures var u := UnregisteredAll(s, c); |u| - Count(u, c) > |s| - Count(s, c)
  {
    var r := Sweep(t, p + 1, c);
    ShiftCounts(s, p, c);
    SweepCopiesLast(t, p + 1, c);
    CountDropLast(r, c);
    RestKeepsExtra(r, |s| - 1, p + 1, c);
    SweepFirst(s, p, c);
    RestFirst(s, p, c);
  }

  // One removal in the pass: the other registration stays, to the left of the slots still to visit.
  lemma RestLeaves<C>(s: seq<C>, p: nat, t: seq<C>, c: C)
    requires First(s, c, p) && s[|s| - 1] != c && Count(s, c) > 1 && t == Shift(s, p) && Free(t, p + 1, |s|, c)
    ensures c in UnregisteredAll(s, c)
  {
    ShiftCounts(s, p, c);
    CountDropLast(t, c);
    RestClean(t, |s| - 1, p + 1, c);
    SweepOnce(s, p, c);
    RestFirst(s, p, c);
  }

  // A channel that occurs twice in a list that does not end with it stays, or another member
  // is doubled.
  lemma RestFails<C>(s: seq<C>, c: C)
    requires Count(s, c) > 1 && s[|s| - 1] != c
    ensures UnregisteredAll(s, c) != Without(s, c)
  {
    WithoutIs(s, c);
    var p := FindFirst(s, c, 0);
    if Free(Shift(s, p), p + 1, |s|, c) {
      RestLeaves(s, p, Shift(s, p), c);
    } else {
      RestDoubles(s, p, Shift(s, p), c);
      Absent(Without(s, c), c);
    }
  }

  lemma FreeFront<C>(t: seq<C>, n: nat, c: C)
    requires n <= |t| && c !in t[..n]
    ensures Free(t, 0, n, c)
  {
    assert forall k :: 0 <= k < n ==> t[k] == t[..n][k];
  }

  lemma RestOfOne<C>(s: seq<C>, c: C)
    requires Count(s, c) == 1 && s[|s| - 1] != c
    ensures UnregisteredAll(s, c) == Without(s, c)
  {
    var p := FindFirst(s, c, 0);
    UnregisterOne(s, p, c);
    WithoutIs(s, c);
    var t := Shift(s, p);
    FreeFront(t, |s| - 1, c);
    RestClean(t, |s| - 1, p + 1, c);
    RestFirst(s, p, c);
  }

  // Removal from every topic removes the channel, and nothing else, exactly when it occurs
  // at most once in the list or the list ends with it.
  lemma UnregisterAllExactly<C>(s: seq<C>, c: C)
    ensures UnregisteredAll(s, c) == Without(s, c) <==> Count(s, c) <= 1 || s[|s| - 1] == c
  {
    assert s[..|s|] == s && s[0..] == s;
    if Count(s, c) == 0 || s[|s| - 1] == c {
      RestOfTail(s, |s|, 0, c);
    } else if Count(s, c) == 1 {
      RestOfOne(s, c);
    } else {
      RestFails(s, c);
    }
  }

  // Unsubscribing a channel twice subscribed: the second registration survives.
  lemma DoubledChannelStays<C>(c: C, x: C)
    requires c != x
    ensures Unregistered([c, c, x], c) == [c, x] && UnregisteredAll([c, c, x], c) == [c, x]
  {
    var s := [c, c, x];
    var t := [c, x, x];
    assert Shift(s, 0) == t;
    assert Sweep(s, 0, c) == Sweep(t, 1, c);
    SweepMisses(t, 1, c);
    assert Rest(s, 3, 0, c) == Rest([c, x, x] + s[3..], 2, 1, c) by {
      assert s[..3] == s;
    }
    assert [c, x, x] + s[3..] == [c, x, x];
    RestClean(t, 2, 1, c);
  }
}
