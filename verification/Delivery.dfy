// Publishing one element to lists of buffered channels, as values.
module Delivery {
  import opened Removal

  // A channel: what it buffers, how much it can buffer, whether it is closed, how many
  // receivers are blocked on it, and what such receivers have been handed.
  datatype Box<T> = Box(buf: seq<T>, capacity: nat, closed: bool, waiting: nat, handed: seq<T>)

  datatype Sent<!C, T> = Sent(boxes: map<C, Box<T>>, receivers: nat)

  ghost predicate Knows<C, T>(boxes: map<C, Box<T>>, list: seq<C>) {
    forall c :: c in list ==> c in boxes
  }

  ghost predicate AllOpen<C, T>(boxes: map<C, Box<T>>, list: seq<C>)
    requires Knows(boxes, list)
  {
    forall c :: c in list ==> !boxes[c].closed
  }

  // A send goes through without blocking.
  predicate Accepts<T>(b: Box<T>) {
    b.waiting > 0 || |b.buf| < b.capacity
  }

  // A blocked receiver is served before anything is buffered.
  function Given<T>(b: Box<T>, elem: T): Box<T>
    requires Accepts(b)
  {
    if b.waiting > 0 then b.(waiting := b.waiting - 1, handed := b.handed + [elem])
    else b.(buf := b.buf + [elem])
  }

  // What the channel has taken in.
  function Size<T>(b: Box<T>): nat {
    |b.buf| + |b.handed|
  }

  // The loop over one topic's list.  Sending to a closed channel panics; the panic is
  // recovered and the topic reports no receiver.
  ghost function SendAll<C, T>(list: seq<C>, boxes: map<C, Box<T>>, elem: T, n: nat): (r: Sent<C, T>)
    requires Knows(boxes, list)
    ensures r.boxes.Keys == boxes.Keys
  {
    if list == [] then Sent(boxes, n)
    else
      var b := boxes[list[0]];
      if b.closed then Sent(boxes, 0)
      else if Accepts(b) then SendAll(list[1..], boxes[list[0] := Given(b, elem)], elem, n + 1)
      else SendAll(list[1..], boxes, elem, n)
  }

  function ListOf<C>(lists: map<string, seq<C>>, topic: string): seq<C> {
    if topic in lists then lists[topic] else []
  }

  ghost predicate KnowsAll<C, T>(boxes: map<C, Box<T>>, lists: map<string, seq<C>>) {
    forall t :: t in lists ==> Knows(boxes, lists[t])
  }

  // One topic after another.
  ghost function SendTopics<C, T>(topics: seq<string>, lists: map<string, seq<C>>, boxes: map<C, Box<T>>, elem: T): (r: Sent<C, T>)
    requires KnowsAll(boxes, lists)
    ensures r.boxes.Keys == boxes.Keys
  {
    if topics == [] then Sent(boxes, 0)
    else
      var one := SendAll(ListOf(lists, topics[0]), boxes, elem, 0);
      Plus(one.receivers, SendTopics(topics[1..], lists, one.boxes, elem))
  }

  function Plus<C, T>(n: nat, s: Sent<C, T>): Sent<C, T> {
    s.(receivers := n + s.receivers)
  }

  lemma SendTopicsCons<C, T>(t: string, rest: seq<string>, lists: map<string, seq<C>>, boxes: map<C, Box<T>>, elem: T)
    requires KnowsAll(boxes, lists)
    ensures var one := SendAll(ListOf(lists, t), boxes, elem, 0);
            SendTopics([t] + rest, lists, boxes, elem) == Plus(one.receivers, SendTopics(rest, lists, one.boxes, elem))
  {
    assert ([t] + rest)[1..] == rest;
  }

  // The registrations a publication meets.
  function Met<C>(topics: seq<string>, lists: map<string, seq<C>>): seq<C> {
    if topics == [] then [] else ListOf(lists, topics[0]) + Met(topics[1..], lists)
  }

  // ---- what every channel receives

  function Room<T>(b: Box<T>): nat {
    if |b.buf| < b.capacity then b.capacity - |b.buf| else 0
  }

  function Min(a: nat, b: nat): nat {
    if a < b then a else b
  }

  function Copies<T>(elem: T, k: nat): seq<T> {
    seq(k, _ => elem)
  }

  // b after k attempts to send elem: the blocked receivers come first, then the buffer.
  function Filled<T>(b: Box<T>, elem: T, k: nat): Box<T> {
    var h := Min(b.waiting, k);
    b.(waiting := b.waiting - h, handed := b.handed + Copies(elem, h), buf := b.buf + Copies(elem, Min(Room(b), k - h)))
  }

  // k attempts in numbers: as many blocked receivers as there are get the element, then the
  // buffer takes it up to its capacity, and everything comes after what was there.
  lemma FilledIs<T>(b: Box<T>, elem: T, k: nat)
    ensures var r := Filled(b, elem, k);
            && r.capacity == b.capacity && r.closed == b.closed
            && r.waiting == (if k <= b.waiting then b.waiting - k else 0)
            && b.handed <= r.handed && |r.handed| == |b.handed| + (b.waiting - r.waiting)
            && b.buf <= r.buf && |r.buf| == (if k <= b.waiting then |b.buf|
                                             else if |b.buf| + (k - b.waiting) <= b.capacity then |b.buf| + (k - b.waiting)
                                             else if |b.buf| <= b.capacity then b.capacity else |b.buf|)
            && (forall i :: |b.handed| <= i < |r.handed| ==> r.handed[i] == elem)
            && (forall i :: |b.buf| <= i < |r.buf| ==> r.buf[i] == elem)
  {
  }

  lemma FilledNone<T>(b: Box<T>, elem: T)
    ensures Filled(b, elem, 0) == b
  {
    assert b.buf + Copies(elem, 0) == b.buf && b.handed + Copies(elem, 0) == b.handed;
  }

  lemma CopiesMore<T>(s: seq<T>, elem: T, k: nat)
    ensures s + [elem] + Copies(elem, k) == s + Copies(elem, k + 1)
    ensures s + Copies(elem, 0) == s
  {
  }

  // One attempt and then k more.
  lemma FilledMore<T>(b: Box<T>, elem: T, k: nat)
    ensures Accepts(b) ==> Filled(Given(b, elem), elem, k) == Filled(b, elem, k + 1)
    ensures !Accepts(b) ==> Filled(b, elem, k) == b
  {
    if b.waiting > 0 {
      CopiesMore(b.handed, elem, Min(b.waiting - 1, k));
    } else if |b.buf| < b.capacity {
      CopiesMore(b.buf, elem, Min(Room(b) - 1, k));
    } else {
      CopiesMore(b.buf, elem, 0);
    }
    CopiesMore(b.handed, elem, 0);
  }

  // The boxes after one attempt.
  function Next<C, T>(boxes: map<C, Box<T>>, d: C, elem: T): map<C, Box<T>>
    requires d in boxes
  {
    if Accepts(boxes[d]) then boxes[d := Given(boxes[d], elem)] else boxes
  }

  lemma SendAllNext<C, T>(list: seq<C>, boxes: map<C, Box<T>>, elem: T, n: nat) returns (n': nat)
    requires Knows(boxes, list) && list != [] && !boxes[list[0]].closed
    ensures Knows(Next(boxes, list[0], elem), list[1..])
    ensures SendAll(list, boxes, elem, n) == SendAll(list[1..], Next(boxes, list[0], elem), elem, n')
  {
    n' := if Accepts(boxes[list[0]]) then n + 1 else n;
  }

  lemma CountHead<C>(list: seq<C>, c: C)
    requires list != []
    ensures Count(list, c) == Count(list[1..], c) + if list[0] == c then 1 else 0
  {
    assert list == [list[0]] + list[1..];
  }

  lemma FillsHead<C, T>(list: seq<C>, boxes: map<C, Box<T>>, elem: T, c: C)
    requires list != [] && list[0] in boxes && c in boxes
    ensures Filled(Next(boxes, list[0], elem)[c], elem, Count(list[1..], c)) == Filled(boxes[c], elem, Count(list, c))
  {
    CountHead(list, c);
    if list[0] == c {
      FilledStep(boxes[c], elem, Count(list[1..], c));
    }
  }

  // Sending down a list of open channels: a channel listed k times takes in k copies of the
  // element, as far as it has blocked receivers and room, after what it held.
  lemma {:induction false} SendAllFills<C, T>(list: seq<C>, boxes: map<C, Box<T>>, elem: T, n: nat, c: C)
    requires Knows(boxes, list) && AllOpen(boxes, list) && c in boxes
    ensures SendAll(list, boxes, elem, n).boxes[c] == Filled(boxes[c], elem, Count(list, c))
  {
    if list == [] {
      FilledNone(boxes[c], elem);
    } else {
      var n' := SendAllNext(list, boxes, elem, n);
      SendAllFills(list[1..], Next(boxes, list[0], elem), elem, n', c);
      FillsHead(list, boxes, elem, c);
    }
  }

  lemma FilledStep<T>(b: Box<T>, elem: T, k: nat)
    ensures Filled(b, elem, k + 1) == if Accepts(b) then Filled(Given(b, elem), elem, k) else Filled(b, elem, k)
  {
    FilledMore(b, elem, k);
    FilledMore(b, elem, k + 1);
  }

  // ---- how many receivers are reported

  ghost function Total<C(!new), T>(boxes: map<C, Box<T>>): nat {
    if boxes == map[] then 0
    else
      var c :| c in boxes;
      Size(boxes[c]) + Total(boxes - {c})
  }

  lemma {:induction false} TotalPick<C(!new), T>(boxes: map<C, Box<T>>, c: C)
    requires c in boxes
    ensures Total(boxes) == Size(boxes[c]) + Total(boxes - {c})
  {
    var d :| d in boxes && Total(boxes) == Size(boxes[d]) + Total(boxes - {d});
    if d != c {
      TotalPick(boxes - {d}, c);
      TotalPick(boxes - {c}, d);
      assert boxes - {d} - {c} == boxes - {c} - {d};
    }
  }

  lemma TotalUpdate<C(!new), T>(boxes: map<C, Box<T>>, c: C, b: Box<T>)
    requires c in boxes
    ensures Total(boxes[c := b]) == Total(boxes) - Size(boxes[c]) + Size(b)
  {
    TotalPick(boxes, c);
    TotalPick(boxes[c := b], c);
    assert boxes[c := b] - {c} == boxes - {c};
  }

  lemma {:induction false} SendAllCounts<C(!new), T>(list: seq<C>, boxes: map<C, Box<T>>, elem: T, n: nat)
    requires Knows(boxes, list) && AllOpen(boxes, list)
    ensures var r := SendAll(list, boxes, elem, n); r.receivers + Total(boxes) == n + Total(r.boxes)
  {
    if list != [] {
      var b := boxes[list[0]];
      if Accepts(b) {
        var b' := Given(b, elem);
        TotalUpdate(boxes, list[0], b');
        SendAllCounts(list[1..], boxes[list[0] := b'], elem, n + 1);
      } else {
        SendAllCounts(list[1..], boxes, elem, n);
      }
    }
  }

  lemma {:induction false} SendAllAppend<C, T>(a: seq<C>, b: seq<C>, boxes: map<C, Box<T>>, elem: T, n: nat)
    requires Knows(boxes, a + b) && AllOpen(boxes, a + b)
    ensures Knows(boxes, a) && Knows(boxes, b)
    ensures var r := SendAll(a, boxes, elem, n);
            AllOpen(r.boxes, b) && SendAll(a + b, boxes, elem, n) == SendAll(b, r.boxes, elem, r.receivers)
  {
    if a == [] {
      assert a + b == b;
    } else {
      assert (a + b)[0] == a[0] && (a + b)[1..] == a[1..] + b;
      var x := boxes[a[0]];
      if Accepts(x) {
        SendAllAppend(a[1..], b, boxes[a[0] := Given(x, elem)], elem, n + 1);
      } else {
        SendAllAppend(a[1..], b, boxes, elem, n);
      }
    }
  }

  lemma {:induction false} SendAllOffset<C, T>(list: seq<C>, boxes: map<C, Box<T>>, elem: T, n: nat, k: nat)
    requires Knows(boxes, list) && AllOpen(boxes, list)
    ensures var r := SendAll(list, boxes, elem, n);
            SendAll(list, boxes, elem, n + k) == Sent(r.boxes, r.receivers + k)
  {
    if list != [] {
      var x := boxes[list[0]];
      if Accepts(x) {
        SendAllOffset(list[1..], boxes[list[0] := Given(x, elem)], elem, n + 1, k);
      } else {
        SendAllOffset(list[1..], boxes, elem, n, k);
      }
    }
  }

  // With open channels only, the topics' lists may as well be one list.
  lemma {:induction false} SendTopicsIsOneList<C, T>(topics: seq<string>, lists: map<string, seq<C>>, boxes: map<C, Box<T>>, elem: T)
    requires KnowsAll(boxes, lists) && Knows(boxes, Met(topics, lists)) && AllOpen(boxes, Met(topics, lists))
    ensures SendTopics(topics, lists, boxes, elem) == SendAll(Met(topics, lists), boxes, elem, 0)
  {
    if topics != [] {
      var a, b := ListOf(lists, topics[0]), Met(topics[1..], lists);
      SendAllAppend(a, b, boxes, elem, 0);
      var one := SendAll(a, boxes, elem, 0);
      SendTopicsIsOneList(topics[1..], lists, one.boxes, elem);
      SendAllOffset(b, one.boxes, elem, 0, one.receivers);
    }
  }

  // A publication that meets open channels only: every channel holds what it held, followed by
  // one copy of the element for each registration met, as far as it has blocked receivers and
  // room; and the number reported is the number of copies taken in.
  lemma PublishFills<C(!new), T>(topics: seq<string>, lists: map<string, seq<C>>, boxes: map<C, Box<T>>, elem: T)
    requires KnowsAll(boxes, lists) && Knows(boxes, Met(topics, lists)) && AllOpen(boxes, Met(topics, lists))
    ensures var r := SendTopics(topics, lists, boxes, elem);
            (forall c :: c in boxes ==> r.boxes[c] == Filled(boxes[c], elem, Count(Met(topics, lists), c))) &&
            r.receivers + Total(boxes) == Total(r.boxes)
  {
    var list := Met(topics, lists);
    SendTopicsIsOneList(topics, lists, boxes, elem);
    SendAllCounts(list, boxes, elem, 0);
    forall c | c in boxes ensures SendAll(list, boxes, elem, 0).boxes[c] == Filled(boxes[c], elem, Count(list, c)) {
      SendAllFills(list, boxes, elem, 0, c);
    }
  }

  // ---- with closed channels too

  // b' is b with some copies of the element more, or the same if it is closed.
  ghost predicate Grew<T>(b: Box<T>, b': Box<T>, elem: T) {
    Size(b) <= Size(b') && b' == Filled(b, elem, Size(b') - Size(b)) && (b.closed ==> b' == b)
  }

  // Whatever is closed: no buffer goes over its capacity, keeps what it held in order, and
  // gets nothing but copies of the element; a closed channel gets nothing.
  lemma {:induction false} SendAllGrows<C, T>(list: seq<C>, boxes: map<C, Box<T>>, elem: T, n: nat, c: C)
    requires Knows(boxes, list) && c in boxes
    ensures Grew(boxes[c], SendAll(list, boxes, elem, n).boxes[c], elem)
  {
    FilledNone(boxes[c], elem);
    if list != [] && !boxes[list[0]].closed {
      var n' := SendAllNext(list, boxes, elem, n);
      var next := Next(boxes, list[0], elem);
      SendAllGrows(list[1..], next, elem, n', c);
      GrowsHead(boxes, list[0], elem, c, SendAll(list[1..], next, elem, n').boxes[c]);
    }
  }

  lemma GrowsHead<C, T>(boxes: map<C, Box<T>>, d: C, elem: T, c: C, r: Box<T>)
    requires d in boxes && c in boxes && !boxes[d].closed && Grew(Next(boxes, d, elem)[c], r, elem)
    ensures Grew(boxes[c], r, elem)
  {
    if c == d && Accepts(boxes[c]) {
      FilledMore(boxes[c], elem, Size(r) - Size(Given(boxes[c], elem)));
    }
  }

  // A list with a closed channel reports no receiver, though the channels before the first
  // closed one have been sent to.
  lemma {:induction false} ClosedReportsNone<C, T>(list: seq<C>, boxes: map<C, Box<T>>, elem: T, n: nat)
    requires Knows(boxes, list) && !AllOpen(boxes, list)
    ensures SendAll(list, boxes, elem, n).receivers == 0
  {
    var x := boxes[list[0]];
    if !x.closed {
      var c :| c in list && boxes[c].closed;
      assert c in list[1..];
      if Accepts(x) {
        ClosedReportsNone(list[1..], boxes[list[0] := Given(x, elem)], elem, n + 1);
      } else {
        ClosedReportsNone(list[1..], boxes, elem, n);
      }
    }
  }
}
