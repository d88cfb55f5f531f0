// The bus as it runs: topic lists that share backing arrays with their former selves, and
// channels with their buffers.
module Minips {
  import opened Prelude
  import opened Topics
  import opened Removal
  import opened Delivery
  import opened Bus

  class Chan<T> {
    var buf: seq<T>
    const capacity: nat
    var closed: bool
    var waiting: nat          // receivers that are blocked on the channel
    ghost var handed: seq<T>  // what such receivers have been given

    constructor (capacity: nat)
      ensures buf == [] && this.capacity == capacity && !closed && waiting == 0 && handed == []
    {
      this.capacity := capacity;
      buf := [];
      closed := false;
      waiting := 0;
      handed := [];
    }
  }

  // A slice that starts at the first slot of its backing array.
  datatype Slice<T> = Slice(arr: array<Chan<T>>, len: nat)

  ghost predicate IsList<T>(s: Slice<T>, list: seq<Chan<T>>)
    reads s.arr
  {
    s.len == |list| <= s.arr.Length && s.arr[..s.len] == list
  }

  ghost function Boxes<T>(chans: set<Chan<T>>): (m: map<Chan<T>, Box<T>>)
    reads chans
    ensures m.Keys == chans
  {
    map c | c in chans :: Box(c.buf, c.capacity, c.closed, c.waiting, c.handed)
  }

  class Minips<T> {
    var topics: map<string, Slice<T>>
    // What the slices hold, and the topic of each backing array.
    ghost var lists: map<string, seq<Chan<T>>>
    ghost var owner: map<array<Chan<T>>, string>

    ghost predicate Valid()
      reads this, owner.Keys
    {
      topics.Keys == lists.Keys &&
      (forall t :: t in topics ==> topics[t].arr in owner && owner[topics[t].arr] == t) &&
      (forall t :: t in topics ==> lists[t] != [] && IsList(topics[t], lists[t]))
    }

    // Valid up to the list of this topic.
    ghost predicate OthersValid(topic: string)
      reads this, owner.Keys
    {
      topics.Keys - {topic} == lists.Keys - {topic} &&
      forall t :: t in topics && t in lists && t != topic ==>
        topics[t].arr in owner && owner[topics[t].arr] == t && lists[t] != [] && IsList(topics[t], lists[t])
    }

    // The topic's slice is this list.
    ghost predicate Holds(topic: string, list: seq<Chan<T>>)
      reads this, owner.Keys
    {
      if list == [] then topic !in topics
      else topic in topics && topics[topic].arr in owner && owner[topics[topic].arr] == topic && IsList(topics[topic], list)
    }

    method Record(topic: string, ghost list: seq<Chan<T>>)
      requires OthersValid(topic) && Holds(topic, list)
      modifies this`lists
      ensures Valid() && lists == Put(old(lists), topic, list)
    {
      assert forall t :: t != topic ==> (t in topics.Keys <==> t in topics.Keys - {topic});
      assert forall t :: t != topic ==> (t in lists.Keys <==> t in lists.Keys - {topic});
      lists := Put(lists, topic, list);
      assert forall t :: t in topics <==> t in lists;
    }

    // Every registered channel is one of these.
    ghost predicate Within(chans: set<Chan<T>>)
      reads this
    {
      forall t, c :: t in lists && c in lists[t] ==> c in chans
    }

    constructor ()
      ensures Valid() && lists == map[] && owner == map[]
    {
      topics := map[];
      lists := map[];
      owner := map[];
    }

    // append(list, ch): in place while there is room, else in a new array.
    method Append(list: Slice<T>, ch: Chan<T>) returns (r: Slice<T>)
      requires list.len <= list.arr.Length
      modifies list.arr
      ensures IsList(r, old(list.arr[..list.len]) + [ch]) && (r.arr == list.arr || fresh(r.arr))
    {
      if list.len < list.arr.Length {
        list.arr[list.len] := ch;
        assert list.arr[..list.len + 1] == list.arr[..list.len] + [ch];
        return Slice(list.arr, list.len + 1);
      }
      var capacity: nat :| capacity > list.len;
      var arr := new Chan<T>[capacity](_ => ch);
      forall j | 0 <= j < list.len {
        arr[j] := list.arr[j];
      }
      assert arr[..list.len + 1] == arr[..list.len] + [ch] && arr[..list.len] == list.arr[..list.len];
      r := Slice(arr, list.len + 1);
    }

    method RegisterChannel(topic: string, ch: Chan<T>)
      requires Valid()
      modifies this, owner.Keys
      ensures Valid() && fresh(owner.Keys - old(owner).Keys)
      ensures lists == old(lists)[topic := ListOf(old(lists), topic) + [ch]]
    {
      var list;
      if topic in topics {
        list := topics[topic];
      } else {
        var empty := new Chan<T>[0];
        list := Slice(empty, 0);
      }
      assert IsList(list, ListOf(lists, topic));
      PutMore(lists, topic, ListOf(lists, topic), ch);
      list := Append(list, ch);
      topics := topics[topic := list];
      owner := owner[list.arr := topic];
      Record(topic, ListOf(lists, topic) + [ch]);
    }

    // append(list[:k], list[k+1:]...), in the slots of list.
    method ShiftSlots(a: array<Chan<T>>, n: nat, k: nat)
      requires k < n <= a.Length
      modifies a
      ensures a[..n] == Shift(old(a[..n]), k) && a[n..] == old(a[n..])
    {
      forall j | k <= j < n - 1 {
        a[j] := a[j + 1];
      }
    }

    // The loop ranges over the slice as it was, while each removal shifts its slots in place.
    method UnregisterChannelSafe(topic: string, ch: Chan<T>)
      requires topic in topics ==> 0 < topics[topic].len <= topics[topic].arr.Length
      modifies this`topics, if topic in topics then {topics[topic].arr} else {}
      ensures topic !in old(topics) ==> topics == old(topics)
      ensures topic in old(topics) ==>
        var a := old(topics[topic].arr);
        var n := old(topics[topic].len);
        var list := Unregistered(old(a[..n]), ch);
        var n' := |list|;
        a[..] == Swept(old(a[..]), n, ch) && n' <= n && a[..n'] == list &&
        topics == if n' == 0 then old(topics) - {topic} else old(topics)[topic := Slice(a, n')]
    {
      if topic !in topics {
        return;
      }
      var list := topics[topic];
      var a := list.arr;
      ghost var was := a[..list.len];
      ghost var found := false;
      var k := 0;
      while k < list.len
        invariant 0 <= k <= list.len
        invariant Sweep(a[..list.len], k, ch) == Sweep(was, 0, ch)
        invariant a[list.len..] == old(a[list.len..])
        invariant topics == old(topics)[topic := Slice(a, if found then list.len - 1 else list.len)]
        invariant if found then ch in was else a[..list.len] == was && ch !in was[..k]
      {
        var v := a[k];
        if v == ch {
          ShiftSlots(a, list.len, k);
          topics := topics[topic := Slice(a, list.len - 1)];
          found := true;
        }
        k := k + 1;
      }
      SweptList(old(a[..]), list.len, ch);
      assert a[..] == Swept(old(a[..]), list.len, ch);
      if topics[topic].len == 0 {
        topics := topics - {topic};
      }
    }

    // The topic's list is the first n slots of a; without a list, n is 0.
    ghost predicate ListIn(topic: string, a: array<Chan<T>>, n: nat)
      reads this
    {
      if n == 0 then topic !in topics else topic in topics && topics[topic] == Slice(a, n)
    }

    // One step of the loop over a topic's slots, l of them: a slot that holds the channel has it removed.
    method VisitSlot(topic: string, chans: Slice<T>, ch: Chan<T>, i: nat, ghost n: nat) returns (ghost n': nat)
      requires n <= chans.len <= chans.arr.Length && i < chans.len && ListIn(topic, chans.arr, n)
      modifies this`topics, chans.arr
      ensures n' <= chans.len && ListIn(topic, chans.arr, n') && topics - {topic} == old(topics) - {topic}
      ensures Rest(chans.arr[..chans.len], n', i + 1, ch) == old(Rest(chans.arr[..chans.len], n, i, ch))
    {
      ghost var full := chans.arr[..];
      n' := n;
      var ch2 := chans.arr[i];
      if ch2 == ch {
        UnregisterChannelSafe(topic, ch);
        AfterRemoval(full, chans.len, n, i, ch);
        if n == 0 {
          SweptFree(full, 0, ch);
        }
        n' := |Unregistered(full[..n], ch)|;
      }
    }

    // n slots of the topic's list are left, and the loop from slot i on leaves this rest.
    ghost predicate AtSlot(topic: string, chans: Slice<T>, ch: Chan<T>, i: nat, n: nat, rest: seq<Chan<T>>)
      reads this, chans.arr
    {
      n <= chans.len <= chans.arr.Length && i <= chans.len && ListIn(topic, chans.arr, n) &&
      Rest(chans.arr[..chans.len], n, i, ch) == rest
    }

    // The loop over a topic's slots; n slots of its list are left.
    method VisitSlots(topic: string, chans: Slice<T>, ch: Chan<T>, ghost rest: seq<Chan<T>>) returns (ghost n: nat)
      requires 0 < chans.len && AtSlot(topic, chans, ch, 0, chans.len, rest)
      modifies this`topics, chans.arr
      ensures AtSlot(topic, chans, ch, chans.len, n, rest) && topics - {topic} == old(topics) - {topic}
    {
      n := chans.len;
      var i := 0;
      while i < chans.len
        invariant 0 <= i <= chans.len
        invariant AtSlot(topic, chans, ch, i, n, rest) && topics - {topic} == old(topics) - {topic}
      {
        n := VisitSlot(topic, chans, ch, i, n);
        i := i + 1;
      }
    }

    // One topic of unregisterChannelFromAll: the slots are read while removals shift them.
    method SweepTopic(topic: string, chans: Slice<T>, ch: Chan<T>)
      requires 0 < chans.len <= chans.arr.Length && ListIn(topic, chans.arr, chans.len)
      modifies this`topics, chans.arr
      ensures topics - {topic} == old(topics) - {topic}
      ensures IsNow(topic, chans.arr, UnregisteredAll(old(chans.arr[..chans.len]), ch))
    {
      ghost var rest := UnregisteredAll(chans.arr[..chans.len], ch);
      ghost var n := VisitSlots(topic, chans, ch, rest);
      SlotsLeft(chans.arr[..], chans.len, n, ch);
    }

    lemma SlotsLeft(full: seq<Chan<T>>, l: nat, n: nat, ch: Chan<T>)
      requires n <= l <= |full|
      ensures Rest(full[..l], n, l, ch) == full[..n]
    {
      assert full[..l][..n] == full[..n];
    }

    // The topic's list is this one, in the first slots of a.
    ghost predicate IsNow(topic: string, a: array<Chan<T>>, list: seq<Chan<T>>)
      reads this, a
    {
      |list| <= a.Length && a[..|list|] == list && ListIn(topic, a, |list|)
    }

    method UnregisterFromTopic(topic: string, chans: Slice<T>, ch: Chan<T>)
      requires Valid() && topic in topics && chans == topics[topic]
      modifies this`topics, this`lists, chans.arr
      ensures Valid()
      ensures lists == Put(old(lists), topic, UnregisteredAll(old(lists)[topic], ch))
    {
      SweepTopic(topic, chans, ch);
      assert forall t :: t in topics && t != topic ==> t in topics - {topic};
      assert forall t :: t in old(topics) && t != topic ==> t in old(topics) - {topic};
      Record(topic, UnregisteredAll(lists[topic], ch));
    }

    method UnregisterListed(topic: string, ch: Chan<T>)
      requires Valid() && topic in topics
      modifies this`topics, this`lists, topics[topic].arr
      ensures Valid()
      ensures lists == Put(old(lists), topic, Unregistered(old(lists)[topic], ch))
    {
      UnregisterChannelSafe(topic, ch);
      Record(topic, Unregistered(lists[topic], ch));
    }

    // Topics come in any order.
    method UnregisterChannelFromAll(ch: Chan<T>)
      requires Valid()
      modifies this`topics, this`lists, owner.Keys
      ensures Valid()
      ensures lists == RemovedFromAll(old(lists), ch)
    {
      var pending := topics.Keys;
      PartlyEnds(lists, ch);
      while pending != {}
        invariant Valid()
        invariant pending <= old(lists).Keys
        invariant lists == Partly(old(lists), pending, ch)
      {
        var topic :| topic in pending;
        PartlyStep(old(lists), pending, topic, ch);
        UnregisterFromTopic(topic, topics[topic], ch);
        pending := pending - {topic};
      }
    }

    method UnregisterChannel(topic: string, ch: Chan<T>)
      requires Valid()
      modifies this`topics, this`lists, owner.Keys
      ensures Valid()
      ensures lists == RemovedFrom(old(lists), topic, ch)
    {
      if topic in topics {
        UnregisterListed(topic, ch);
      } else {
        UnregisterChannelSafe(topic, ch);
      }
    }

    // ---- publishing

    // The select statement: sends unless it would block.
    method TrySend(v: Chan<T>, elem: T, ghost chans: set<Chan<T>>) returns (sent: bool)
      requires v in chans
      modifies v
      ensures sent == Accepts(old(Boxes(chans))[v])
      ensures Boxes(chans) == if sent then old(Boxes(chans))[v := Given(old(Boxes(chans))[v], elem)] else old(Boxes(chans))
    {
      if v.waiting > 0 {
        v.waiting, v.handed := v.waiting - 1, v.handed + [elem];
        return true;
      }
      if |v.buf| < v.capacity {
        v.buf := v.buf + [elem];
        return true;
      }
      return false;
    }

    method PublishTopic(topic: string, elem: T, ghost chans: set<Chan<T>>) returns (receivers: nat)
      requires Valid() && Within(chans)
      modifies chans
      ensures Valid()
      ensures Sent(Boxes(chans), receivers) == SendAll(ListOf(lists, topic), old(Boxes(chans)), elem, 0)
    {
      if topic !in topics {
        return 0;
      }
      receivers := 0;
      var list := topics[topic];
      ghost var s := lists[topic];
      var k := 0;
      assert s[0..] == s;
      while k < list.len
        invariant 0 <= k <= list.len
        invariant Valid()
        invariant SendAll(s[k..], Boxes(chans), elem, receivers) == SendAll(s, old(Boxes(chans)), elem, 0)
      {
        var v := list.arr[k];
        assert v == s[k] && s[k..][1..] == s[k + 1..];
        if v.closed {
          return 0;
        }
        var sent := TrySend(v, elem, chans);
        if sent {
          receivers := receivers + 1;
        }
        k := k + 1;
      }
    }

    method Publish(topic: string, elem: T, ghost chans: set<Chan<T>>) returns (receivers: nat)
      requires Valid() && Within(chans)
      modifies chans
      ensures Valid()
      ensures Sent(Boxes(chans), receivers) == SendTopics(Visits(topic), lists, old(Boxes(chans)), elem)
    {
      receivers := PublishTopic(topic, elem, chans);
      var remainder := topic;
      ghost var start := old(Boxes(chans));
      SendTopicsCons(topic, After(topic), lists, start, elem);
      while true
        invariant Valid()
        invariant SendTopics(Visits(topic), lists, start, elem) ==
                  Plus(receivers, SendTopics(After(remainder), lists, Boxes(chans), elem))
        decreases |remainder|
      {
        var parent := Parent(remainder);
        if parent.None? {
          SendTopicsCons("", [], lists, Boxes(chans), elem);
          var n := PublishTopic("", elem, chans);
          receivers := receivers + n;
          return;
        }
        remainder := parent.value;
        SendTopicsCons(remainder, After(remainder), lists, Boxes(chans), elem);
        var n := PublishTopic(remainder, elem, chans);
        receivers := receivers + n;
      }
    }
  }

  // The lists when the pending topics are still as they were.
  function Partly<C(==)>(lists: map<string, seq<C>>, pending: set<string>, c: C): map<string, seq<C>> {
    map t | t in lists && (t in pending || UnregisteredAll(lists[t], c) != []) ::
      if t in pending then lists[t] else UnregisteredAll(lists[t], c)
  }

  lemma PartlyStep<C>(lists: map<string, seq<C>>, pending: set<string>, topic: string, c: C)
    requires topic in pending && pending <= lists.Keys
    ensures topic in Partly(lists, pending, c) && Partly(lists, pending, c)[topic] == lists[topic]
    ensures Partly(lists, pending - {topic}, c) == Put(Partly(lists, pending, c), topic, UnregisteredAll(lists[topic], c))
  {
  }

  lemma PartlyEnds<C>(lists: map<string, seq<C>>, c: C)
    ensures Partly(lists, lists.Keys, c) == lists && Partly(lists, {}, c) == RemovedFromAll(lists, c)
  {
  }

  class Subscriber<T> {
    const ch: Chan<T>
    const mp: Minips<T>
    var closed: bool

    constructor (mp: Minips<T>, capacity: nat)
      ensures this.mp == mp && fresh(ch) && ch.buf == [] && ch.capacity == capacity && !ch.closed && !closed
    {
      this.mp := mp;
      ch := new Chan(capacity);
      closed := false;
    }

    // True for success.
    method Subscribe(topics: seq<string>) returns (ok: bool)
      requires mp.Valid()
      modifies mp, mp.owner.Keys
      ensures mp.Valid() && fresh(mp.owner.Keys - old(mp.owner).Keys) && ok == !closed
      ensures mp.lists == if closed then old(mp.lists) else Subscribed(old(mp.lists), topics, ch)
    {
      if closed {
        return false;
      }
      var k := 0;
      while k < |topics|
        invariant 0 <= k <= |topics|
        invariant mp.Valid() && fresh(mp.owner.Keys - old(mp.owner).Keys)
        invariant Subscribed(mp.lists, topics[k..], ch) == Subscribed(old(mp.lists), topics, ch)
      {
        assert topics[k..][1..] == topics[k + 1..];
        mp.RegisterChannel(topics[k], ch);
        k := k + 1;
      }
      return true;
    }

    method Unsubscribe(topics: seq<string>)
      requires mp.Valid()
      modifies mp, mp.owner.Keys
      ensures mp.Valid()
      ensures mp.lists == Unsubscribed(old(mp.lists), topics, ch)
    {
      var k := 0;
      while k < |topics|
        invariant 0 <= k <= |topics|
        invariant mp.Valid() && mp.owner == old(mp.owner)
        invariant Unsubscribed(mp.lists, topics[k..], ch) == Unsubscribed(old(mp.lists), topics, ch)
      {
        assert topics[k..][1..] == topics[k + 1..];
        mp.UnregisterChannel(topics[k], ch);
        k := k + 1;
      }
    }

    method UnsubscribeAll()
      requires mp.Valid()
      modifies mp, mp.owner.Keys
      ensures mp.Valid()
      ensures mp.lists == RemovedFromAll(old(mp.lists), ch)
    {
      mp.UnregisterChannelFromAll(ch);
    }

    // Closing a channel a second time panics, after everything else is done.
    method Close() returns (panics: bool)
      requires mp.Valid()
      modifies this, ch, mp, mp.owner.Keys
      ensures mp.Valid() && closed && ch.closed && ch.buf == old(ch.buf) && panics == old(ch.closed)
      ensures mp.lists == RemovedFromAll(old(mp.lists), ch)
    {
      closed := true;
      mp.UnregisterChannelFromAll(ch);
      panics := ch.closed;
      ch.closed := true;
    }
  }
}
