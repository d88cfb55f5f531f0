// The publish/subscribe bus as a state machine over its topic lists and closed channels.
module Bus {
  import opened Prelude
  import opened Text
  import opened Topics
  import opened Removal
  import opened Delivery

  datatype Bus<!C> = Bus(lists: map<string, seq<C>>, closed: set<C>)

  datatype Step<C> =
    | Subscribe(c: C, topic: string)
    | Unsubscribe(c: C, topic: string)
    | UnsubscribeAll(c: C)
    | Close(c: C)

  // A topic without a list is not in the map.
  function Put<C>(lists: map<string, seq<C>>, topic: string, list: seq<C>): map<string, seq<C>> {
    if list == [] then lists - {topic} else lists[topic := list]
  }

  lemma PutMore<C>(lists: map<string, seq<C>>, topic: string, list: seq<C>, c: C)
    ensures Put(lists, topic, list + [c]) == lists[topic := list + [c]]
  {
    assert (list + [c])[|list|] == c;
  }

  function RemovedFrom<C(==)>(lists: map<string, seq<C>>, topic: string, c: C): map<string, seq<C>> {
    if topic in lists then Put(lists, topic, Unregistered(lists[topic], c)) else lists
  }

  function RemovedFromAll<C(==)>(lists: map<string, seq<C>>, c: C): map<string, seq<C>> {
    map t | t in lists && UnregisteredAll(lists[t], c) != [] :: UnregisteredAll(lists[t], c)
  }

  function Do<C(==)>(b: Bus<C>, step: Step<C>): Bus<C> {
    match step
    case Subscribe(c, t) => if c in b.closed then b else b.(lists := b.lists[t := ListOf(b.lists, t) + [c]])
    case Unsubscribe(c, t) => b.(lists := RemovedFrom(b.lists, t, c))
    case UnsubscribeAll(c) => b.(lists := RemovedFromAll(b.lists, c))
    case Close(c) => Bus(RemovedFromAll(b.lists, c), b.closed + {c})
  }

  function Run<C(==)>(b: Bus<C>, steps: seq<Step<C>>): Bus<C>
    decreases |steps|
  {
    if steps == [] then b else Run(Do(b, steps[0]), steps[1..])
  }

  // No channel is subscribed to a topic it is subscribed to already.
  predicate Once<C(==)>(b: Bus<C>, step: Step<C>) {
    step.Subscribe? ==> step.c !in ListOf(b.lists, step.topic)
  }

  predicate AllOnce<C(==)>(b: Bus<C>, steps: seq<Step<C>>)
    decreases |steps|
  {
    steps == [] || (Once(b, steps[0]) && AllOnce(Do(b, steps[0]), steps[1..]))
  }

  // No empty list, no channel twice in a list, no closed channel registered.
  ghost predicate TidyList<C(!new)>(list: seq<C>, closed: set<C>) {
    list != [] && (forall c :: Count(list, c) <= 1) && (forall c :: c in closed ==> c !in list)
  }

  ghost predicate Tidy<C(!new)>(b: Bus<C>) {
    forall t :: t in b.lists ==> TidyList(b.lists[t], b.closed)
  }

  lemma {:induction false} WithoutMembers<C>(s: seq<C>, c: C, d: C)
    ensures Count(Without(s, c), d) == if d == c then 0 else Count(s, d)
  {
    if s != [] {
      assert s == [s[0]] + s[1..];
      WithoutMembers(s[1..], c, d);
    }
  }

  // On a tidy bus, leaving a topic, or all of them, leaves every list without the channel, the
  // others in their order, and no list empty.
  lemma RemovalIsExact<C(!new)>(b: Bus<C>, c: C, topic: string)
    requires Tidy(b)
    ensures RemovedFrom(b.lists, topic, c) ==
            if topic in b.lists then Put(b.lists, topic, Without(b.lists[topic], c)) else b.lists
    ensures RemovedFromAll(b.lists, c) ==
            map t | t in b.lists && Without(b.lists[t], c) != [] :: Without(b.lists[t], c)
  {
    if topic in b.lists {
      UnregisterExactly(b.lists[topic], c);
    }
    forall t | t in b.lists ensures UnregisteredAll(b.lists[t], c) == Without(b.lists[t], c) {
      UnregisterAllExactly(b.lists[t], c);
    }
  }

  lemma StepKeepsTidy<C(!new)>(b: Bus<C>, step: Step<C>)
    requires Tidy(b) && Once(b, step)
    ensures Tidy(Do(b, step))
  {
    match step
    case Subscribe(c, t) =>
      if c !in b.closed && t in b.lists {
        var list := b.lists[t];
        forall d ensures Count(list + [c], d) <= 1 {
          assert Count(list, d) <= 1;
        }
        assert TidyList(list + [c], b.closed);
      } else if c !in b.closed {
        assert TidyList([] + [c], b.closed);
      }
    case Unsubscribe(c, topic) => RemovalKeepsTidy(b, c, topic);
    case UnsubscribeAll(c) => RemovalKeepsTidy(b, c, "");
    case Close(c) => RemovalKeepsTidy(b, c, "");
  }

  lemma WithoutTidy<C(!new)>(list: seq<C>, closed: set<C>, c: C)
    requires TidyList(list, closed) && Without(list, c) != []
    ensures TidyList(Without(list, c), closed) && TidyList(Without(list, c), closed + {c})
  {
    forall d ensures Count(Without(list, c), d) == if d == c then 0 else Count(list, d) {
      WithoutMembers(list, c, d);
    }
    forall d | d in closed + {c} ensures d !in Without(list, c) {
      assert Count(Without(list, c), d) == 0;
    }
  }

  lemma RemovalKeepsTidy<C(!new)>(b: Bus<C>, c: C, topic: string)
    requires Tidy(b)
    ensures Tidy(b.(lists := RemovedFrom(b.lists, topic, c)))
    ensures Tidy(Bus(RemovedFromAll(b.lists, c), b.closed + {c})) && Tidy(b.(lists := RemovedFromAll(b.lists, c)))
  {
    RemovalIsExact(b, c, topic);
    forall t | t in b.lists && Without(b.lists[t], c) != []
      ensures TidyList(Without(b.lists[t], c), b.closed) && TidyList(Without(b.lists[t], c), b.closed + {c})
    {
      WithoutTidy(b.lists[t], b.closed, c);
    }
  }

  lemma {:induction false} RunKeepsTidy<C(!new)>(b: Bus<C>, steps: seq<Step<C>>)
    requires Tidy(b) && AllOnce(b, steps)
    ensures Tidy(Run(b, steps))
    decreases |steps|
  {
    if steps != [] {
      StepKeepsTidy(b, steps[0]);
      RunKeepsTidy(Do(b, steps[0]), steps[1..]);
    }
  }

  ghost predicate ClosedAre<C(!new), T>(boxes: map<C, Box<T>>, b: Bus<C>) {
    (forall c :: c in boxes && boxes[c].closed ==> c in b.closed) && KnowsAll(boxes, b.lists)
  }

  lemma TidyMeetsOpen<C(!new), T>(b: Bus<C>, topics: seq<string>, boxes: map<C, Box<T>>)
    requires Tidy(b) && ClosedAre(boxes, b)
    ensures Knows(boxes, Met(topics, b.lists)) && AllOpen(boxes, Met(topics, b.lists))
  {
    if topics != [] {
      TidyMeetsOpen(b, topics[1..], boxes);
      assert Knows(boxes, ListOf(b.lists, topics[0])) && AllOpen(boxes, ListOf(b.lists, topics[0]));
    }
  }

  // The main result over runs: as long as no channel is subscribed twice to a topic, no
  // publication meets a closed channel, so that every subscriber met gets a copy for each
  // registration met, as far as it has room, and the count reported is the number of copies.
  lemma PublishInEveryRun<C(!new), T>(steps: seq<Step<C>>, topic: string, boxes: map<C, Box<T>>, elem: T)
    requires AllOnce(Bus(map[], {}), steps)
    requires ClosedAre(boxes, Run(Bus(map[], {}), steps))
    ensures var b := Run(Bus(map[], {}), steps);
            var met := Met(Visits(topic), b.lists);
            var r := SendTopics(Visits(topic), b.lists, boxes, elem);
            Knows(boxes, met) && AllOpen(boxes, met) &&
            (forall c :: c in boxes ==> r.boxes[c] == Filled(boxes[c], elem, Count(met, c))) &&
            r.receivers + Total(boxes) == Total(r.boxes)
  {
    var empty: Bus<C> := Bus(map[], {});
    RunKeepsTidy(empty, steps);
    var b := Run(empty, steps);
    TidyMeetsOpen(b, Visits(topic), boxes);
    PublishFills(Visits(topic), b.lists, boxes, elem);
  }

  function OnceIf(holds: bool): nat {
    if holds then 1 else 0
  }

  // How often a channel is met: once for each visited topic that lists it.
  function Registrations<C(==)>(topics: seq<string>, lists: map<string, seq<C>>, c: C): nat {
    if topics == [] then 0 else OnceIf(c in ListOf(lists, topics[0])) + Registrations(topics[1..], lists, c)
  }

  // On a tidy bus a channel is met once for each visited topic it is subscribed to.  For a
  // well-formed topic these are its dot-prefixes and "", each visited once.
  lemma {:induction false} MetOncePerTopic<C(!new)>(b: Bus<C>, topics: seq<string>, c: C)
    requires Tidy(b)
    ensures Count(Met(topics, b.lists), c) == Registrations(topics, b.lists, c)
  {
    if topics != [] {
      var list := ListOf(b.lists, topics[0]);
      assert Count(list, c) <= 1 && (Count(list, c) > 0 <==> c in list);
      MetOncePerTopic(b, topics[1..], c);
    }
  }

  // A publication to a topic of n non-empty segments, in any such run: a subscriber gets one
  // copy for each of the n dot-prefixes and "" it is subscribed to, as far as it has room.
  lemma PublishWellFormed<C(!new), T>(steps: seq<Step<C>>, topic: string, boxes: map<C, Box<T>>, elem: T, c: C)
    requires WellFormed(topic) && c in boxes
    requires AllOnce(Bus(map[], {}), steps)
    requires ClosedAre(boxes, Run(Bus(map[], {}), steps))
    ensures var b := Run(Bus(map[], {}), steps);
            SendTopics(Visits(topic), b.lists, boxes, elem).boxes[c] ==
            Filled(boxes[c], elem, Registrations(Prefixes(Split(topic, '.')) + [""], b.lists, c))
  {
    var empty: Bus<C> := Bus(map[], {});
    RunKeepsTidy(empty, steps);
    PublishInEveryRun(steps, topic, boxes, elem);
    VisitsOfWellFormed(topic);
    MetOncePerTopic(Run(empty, steps), Visits(topic), c);
  }

  // Subscribed twice to a topic that another channel follows, a channel that is closed stays
  // registered: the next publication meets it, panics and reports no receiver.
  lemma TwiceSubscribedStaysRegistered<C(!new), T>(c: C, d: C, topic: string, boxes: map<C, Box<T>>, elem: T)
    requires c != d && c in boxes && d in boxes && boxes[c].closed
    ensures Run(Bus(map[], {}), [Subscribe(c, topic), Subscribe(c, topic), Subscribe(d, topic), Close(c)]) ==
            Bus(map[topic := [c, d]], {c})
    ensures KnowsAll(boxes, map[topic := [c, d]]) && SendAll([c, d], boxes, elem, 0) == Sent(boxes, 0)
  {
    RunFour(Bus(map[], {}), Subscribe(c, topic), Subscribe(c, topic), Subscribe(d, topic), Close(c));
    assert [] + [c] == [c] && [c] + [c] == [c, c] && [c, c] + [d] == [c, c, d];
    DoSubscribe(map[], c, topic);
    DoSubscribe(map[topic := [c]], c, topic);
    DoSubscribe(map[topic := [c, c]], d, topic);
    DoubledChannelStays(c, d);
    DoClose(topic, [c, c, d], c);
  }

  lemma DoClose<C>(topic: string, list: seq<C>, c: C)
    requires UnregisteredAll(list, c) != []
    ensures Do(Bus(map[topic := list], {}), Close(c)) == Bus(map[topic := UnregisteredAll(list, c)], {c})
  {
  }

  lemma DoSubscribe<C>(lists: map<string, seq<C>>, c: C, topic: string)
    requires lists.Keys <= {topic}
    ensures Do(Bus(lists, {}), Subscribe(c, topic)) == Bus(map[topic := ListOf(lists, topic) + [c]], {})
  {
  }

  lemma RunFour<C>(b: Bus<C>, s1: Step<C>, s2: Step<C>, s3: Step<C>, s4: Step<C>)
    ensures Run(b, [s1, s2, s3, s4]) == Do(Do(Do(Do(b, s1), s2), s3), s4)
  {
    RunCons(b, s1, [s2, s3, s4]);
    RunCons(Do(b, s1), s2, [s3, s4]);
    RunCons(Do(Do(b, s1), s2), s3, [s4]);
    RunCons(Do(Do(Do(b, s1), s2), s3), s4, []);
  }

  lemma RunCons<C>(b: Bus<C>, step: Step<C>, rest: seq<Step<C>>)
    ensures Run(b, [step] + rest) == Run(Do(b, step), rest)
  {
    assert ([step] + rest)[1..] == rest;
  }

  // ---- subscribing to several topics, and leaving them

  function Subscribed<C>(lists: map<string, seq<C>>, topics: seq<string>, c: C): map<string, seq<C>>
    decreases |topics|
  {
    if topics == [] then lists
    else Subscribed(lists[topics[0] := ListOf(lists, topics[0]) + [c]], topics[1..], c)
  }

  function Unsubscribed<C(==)>(lists: map<string, seq<C>>, topics: seq<string>, c: C): map<string, seq<C>>
    decreases |topics|
  {
    if topics == [] then lists else Unsubscribed(RemovedFrom(lists, topics[0], c), topics[1..], c)
  }

  lemma OneCopyMore<C>(list: seq<C>, c: C, n: nat)
    ensures list + [c] + seq(n, _ => c) == list + seq(n + 1, _ => c)
    ensures list + seq(0, _ => c) == list
  {
  }

  // One copy of the channel for each time the topic is named comes to the end of its list.
  lemma {:induction false} SubscribedIs<C>(lists: map<string, seq<C>>, topics: seq<string>, c: C, t: string)
    ensures ListOf(Subscribed(lists, topics, c), t) == ListOf(lists, t) + seq(multiset(topics)[t], _ => c)
    decreases |topics|
  {
    if topics != [] {
      var one := lists[topics[0] := ListOf(lists, topics[0]) + [c]];
      assert topics == [topics[0]] + topics[1..];
      SubscribedIs(one, topics[1..], c, t);
      OneCopyMore(ListOf(lists, t), c, multiset(topics[1..])[t]);
    } else {
      OneCopyMore(ListOf(lists, t), c, 0);
    }
  }

  // The topics that have a list are those that had one and the named ones.
  lemma {:induction false} SubscribedTopics<C>(lists: map<string, seq<C>>, topics: seq<string>, c: C, t: string)
    ensures t in Subscribed(lists, topics, c) <==> t in lists || t in topics
    decreases |topics|
  {
    if topics != [] {
      assert topics == [topics[0]] + topics[1..];
      SubscribedTopics(lists[topics[0] := ListOf(lists, topics[0]) + [c]], topics[1..], c, t);
    }
  }

  // n removals from one list, one after another.
  function LeftBy<C(==)>(list: seq<C>, n: nat, c: C): seq<C>
    decreases n
  {
    if n == 0 then list else LeftBy(Unregistered(list, c), n - 1, c)
  }

  // Each time a topic is named one registration goes, and topics that are not named keep theirs.
  lemma {:induction false} UnsubscribedIs<C>(lists: map<string, seq<C>>, topics: seq<string>, c: C, t: string)
    ensures ListOf(Unsubscribed(lists, topics, c), t) == LeftBy(ListOf(lists, t), multiset(topics)[t], c)
    decreases |topics|
  {
    if topics != [] {
      assert topics == [topics[0]] + topics[1..];
      UnsubscribedIs(RemovedFrom(lists, topics[0], c), topics[1..], c, t);
      LeftByNone([], multiset(topics)[t], c);
    }
  }

  lemma {:induction false} LeftByNone<C>(list: seq<C>, n: nat, c: C)
    requires c !in list
    ensures LeftBy(list, n, c) == list
  {
    if n > 0 {
      LeftByNone(list, n - 1, c);
    }
  }

  lemma LeftByOnce<C>(list: seq<C>, n: nat, c: C)
    requires n > 0 && Count(list, c) <= 1
    ensures LeftBy(list, n, c) == Without(list, c)
  {
    UnregisterExactly(list, c);
    WithoutIs(list, c);
    LeftByNone(Without(list, c), n - 1, c);
  }

  // A channel that is registered once leaves the named topics, and the others keep their order.
  lemma UnsubscribedOnce<C>(lists: map<string, seq<C>>, topics: seq<string>, c: C, t: string)
    requires Count(ListOf(lists, t), c) <= 1
    ensures ListOf(Unsubscribed(lists, topics, c), t) == if t in topics then Without(ListOf(lists, t), c) else ListOf(lists, t)
  {
    var list := ListOf(lists, t);
    UnsubscribedIs(lists, topics, c, t);
    if t in topics {
      assert multiset(topics)[t] > 0;
      LeftByOnce(list, multiset(topics)[t], c);
    } else {
      assert multiset(topics)[t] == 0;
    }
  }

  function Subscriptions<C>(topics: seq<string>, c: C): (r: seq<Step<C>>)
    ensures |r| == |topics| && forall i :: 0 <= i < |r| ==> r[i] == Subscribe(c, topics[i])
  {
    seq(|topics|, i requires 0 <= i < |topics| => Subscribe(c, topics[i]))
  }

  function Leavings<C>(topics: seq<string>, c: C): (r: seq<Step<C>>)
    ensures |r| == |topics| && forall i :: 0 <= i < |r| ==> r[i] == Unsubscribe(c, topics[i])
  {
    seq(|topics|, i requires 0 <= i < |topics| => Unsubscribe(c, topics[i]))
  }

  // Subscribing an open channel to several topics, and leaving them, are runs of the bus.
  lemma {:induction false} SubscribedIsRun<C(!new)>(b: Bus<C>, topics: seq<string>, c: C)
    requires c !in b.closed
    ensures Run(b, Subscriptions(topics, c)) == b.(lists := Subscribed(b.lists, topics, c))
    decreases |topics|
  {
    if topics != [] {
      assert Subscriptions(topics, c)[1..] == Subscriptions(topics[1..], c);
      SubscribedIsRun(Do(b, Subscribe(c, topics[0])), topics[1..], c);
    }
  }

  lemma {:induction false} UnsubscribedIsRun<C(!new)>(b: Bus<C>, topics: seq<string>, c: C)
    ensures Run(b, Leavings(topics, c)) == b.(lists := Unsubscribed(b.lists, topics, c))
    decreases |topics|
  {
    if topics != [] {
      assert Leavings(topics, c)[1..] == Leavings(topics[1..], c);
      UnsubscribedIsRun(Do(b, Unsubscribe(c, topics[0])), topics[1..], c);
    }
  }

  // What a step does to each list of a tidy bus, and to the closed channels.
  lemma StepIs<C(!new)>(b: Bus<C>, c: C, topic: string, t: string)
    requires Tidy(b)
    ensures var r := Do(b, Subscribe(c, topic));
            r.closed == b.closed &&
            ListOf(r.lists, t) == if c !in b.closed && t == topic then ListOf(b.lists, t) + [c] else ListOf(b.lists, t)
    ensures var r := Do(b, Unsubscribe(c, topic));
            r.closed == b.closed && ListOf(r.lists, t) == if t == topic then Without(ListOf(b.lists, t), c) else ListOf(b.lists, t)
    ensures var r := Do(b, UnsubscribeAll(c)); r.closed == b.closed && ListOf(r.lists, t) == Without(ListOf(b.lists, t), c)
    ensures var r := Do(b, Close(c)); r.closed == b.closed + {c} && ListOf(r.lists, t) == Without(ListOf(b.lists, t), c)
  {
    RemovalIsExact(b, c, topic);
  }
}
