/** The topic broadcaster of pkg/broadcast/broadcast.go: a registry of
    callbacks keyed by topic and then by subscription id. Each operation is
    one atomic step (the broadcaster's mutex is not modelled), and callbacks
    are never run: `Notify` reports which subscriptions it dispatches to. */
module Broadcast {

  /** A Go event type `T`: its identity and the topic its `Topic()` method
      returns (called on the zero value, so it is fixed per type). */
  datatype EventType = EventType(name: nat, topic: int)

  /** A stored callback: an opaque function token and the event type of its
      parameter, that is, a `func(param)`. */
  datatype Callback = Callback(token: nat, param: EventType)

  /** `Subscription[T]`: the subscription id and the event type `T`. */
  datatype Subscription = Subscription(id: nat, eventType: EventType)

  type Subs = map<nat, Callback>

  /** No topic is kept with an empty subscriber map. */
  predicate NoEmptyTopics(topics: map<int, Subs>) {
    forall t :: t in topics ==> |topics[t]| > 0
  }

  /** The registry after `subscribe` stores `c` under `topic` and `id`,
      creating the topic's map when it is absent. */
  function Subscribed(topics: map<int, Subs>, topic: int, id: nat, c: Callback): map<int, Subs> {
    var subs := if topic in topics then topics[topic] else map[];
    topics[topic := subs[id := c]]
  }

  /** The registry after `Close` of subscription `id` of `topic`: the id is
      dropped from its topic, and the topic is dropped once it has no
      subscribers left. */
  function Closed(topics: map<int, Subs>, topic: int, id: nat): map<int, Subs> {
    if topic in topics then
      var subs := topics[topic] - {id};
      if |subs| == 0 then topics - {topic} else topics[topic := subs]
    else topics
  }

  /** The ids among `keys` whose callback takes an `et` event. */
  function MatchingIn(subs: Subs, et: EventType, keys: set<nat>): (r: set<nat>)
    ensures forall k :: k in r <==> k in keys && k in subs && subs[k].param == et
  {
    set k | k in keys && k in subs && subs[k].param == et
  }

  /** The subscriptions that `Notify` with an `et` event dispatches to. */
  function Listeners(topics: map<int, Subs>, et: EventType): (r: set<nat>)
    ensures forall k :: k in r <==> et.topic in topics && k in topics[et.topic] && topics[et.topic][k].param == et
  {
    if et.topic in topics then MatchingIn(topics[et.topic], et, topics[et.topic].Keys) else {}
  }

  lemma SubscribedKeepsNoEmptyTopics(topics: map<int, Subs>, topic: int, id: nat, c: Callback)
    requires NoEmptyTopics(topics)
    ensures NoEmptyTopics(Subscribed(topics, topic, id, c))
  {
    var subs := if topic in topics then topics[topic] else map[];
    assert id in subs[id := c];
  }

  lemma ClosedKeepsNoEmptyTopics(topics: map<int, Subs>, topic: int, id: nat)
    requires NoEmptyTopics(topics)
    ensures NoEmptyTopics(Closed(topics, topic, id))
  {
  }

  /** `subscribe` leaves every other topic exactly as it was, and adds the new
      id to its own topic beside the ids already there. */
  lemma SubscribedTouchesOnlyItsTopic(topics: map<int, Subs>, topic: int, id: nat, c: Callback)
    ensures var r := Subscribed(topics, topic, id, c);
            && (forall t :: t != topic ==> (t in r <==> t in topics) && (t in r ==> r[t] == topics[t]))
            && topic in r && id in r[topic] && r[topic][id] == c
            && (forall k :: k != id ==> (k in r[topic] <==> topic in topics && k in topics[topic]))
  {
  }

  /** `Close` leaves every other topic exactly as it was, and removes only its
      own id from its topic. */
  lemma ClosedTouchesOnlyItsTopic(topics: map<int, Subs>, topic: int, id: nat)
    ensures var r := Closed(topics, topic, id);
            && (forall t :: t != topic ==> (t in r <==> t in topics) && (t in r ==> r[t] == topics[t]))
            && (topic in r ==> topic in topics && r[topic] == topics[topic] - {id})
            && (topic in topics && topic !in r ==> |topics[topic] - {id}| == 0)
  {
  }

  /** `Close` does not change who is notified on another topic. */
  lemma CloseOtherTopic(topics: map<int, Subs>, topic: int, id: nat, et: EventType)
    requires et.topic != topic
    ensures Listeners(Closed(topics, topic, id), et) == Listeners(topics, et)
  {
    ClosedTouchesOnlyItsTopic(topics, topic, id);
  }

  /** A second `Close` of the same subscription changes nothing. */
  lemma CloseIdempotent(topics: map<int, Subs>, topic: int, id: nat)
    ensures Closed(Closed(topics, topic, id), topic, id) == Closed(topics, topic, id)
  {
    if topic in topics {
      var subs := topics[topic] - {id};
      if |subs| != 0 {
        assert subs - {id} == subs;
      }
    }
  }

  /** A new subscription for `et` under a fresh id makes `Notify` with an `et`
      event reach one more subscriber. */
  lemma SubscribeOneMore(topics: map<int, Subs>, et: EventType, id: nat, token: nat)
    requires forall t :: t in topics ==> id !in topics[t]
    ensures var r := Subscribed(topics, et.topic, id, Callback(token, et));
            Listeners(r, et) == Listeners(topics, et) + {id} && id !in Listeners(topics, et)
  {
    var r := Subscribed(topics, et.topic, id, Callback(token, et));
    var subs := if et.topic in topics then topics[et.topic] else map[];
    assert r[et.topic] == subs[id := Callback(token, et)];
    assert Listeners(r, et) == MatchingIn(subs[id := Callback(token, et)], et, subs.Keys + {id});
    if et.topic in topics {
      assert Listeners(topics, et) == MatchingIn(subs, et, subs.Keys);
    } else {
      assert Listeners(topics, et) == {};
    }
  }

  /** Closing a subscription to `et` makes `Notify` with an `et` event reach
      one fewer subscriber. */
  lemma CloseOneFewer(topics: map<int, Subs>, s: Subscription)
    requires s.id in Listeners(topics, s.eventType)
    ensures var et := s.eventType;
            Listeners(Closed(topics, et.topic, s.id), et) == Listeners(topics, et) - {s.id}
            && |Listeners(Closed(topics, et.topic, s.id), et)| == |Listeners(topics, et)| - 1
  {
    var et := s.eventType;
    var subs := topics[et.topic];
    var rest := subs - {s.id};
    assert Listeners(topics, et) == MatchingIn(subs, et, subs.Keys);
    if |rest| == 0 {
      assert Listeners(Closed(topics, et.topic, s.id), et) == {};
      assert forall k :: k !in rest;
    } else {
      assert Listeners(Closed(topics, et.topic, s.id), et) == MatchingIn(rest, et, rest.Keys);
    }
  }

  /** One step of `Notify`'s loop: taking `k` out of the pending keys removes
      it from the pending matches exactly when its callback matches. */
  lemma MatchingStep(subs: Subs, et: EventType, pending: set<nat>, k: nat)
    requires k in pending && k in subs
    ensures var before, after := MatchingIn(subs, et, pending), MatchingIn(subs, et, pending - {k});
            && (subs[k].param == et ==> |before| == |after| + 1)
            && (subs[k].param != et ==> |before| == |after|)
  {
    var before, after := MatchingIn(subs, et, pending), MatchingIn(subs, et, pending - {k});
    if subs[k].param == et {
      assert before == after + {k};
    } else {
      assert before == after;
    }
  }

  /** `TopicBroadcaster`. The subscription counter, package-wide in Go, is a
      field here. */
  class TopicBroadcaster {
    var topics: map<int, Subs>
    var idCounter: nat

    /** No empty topics, and every stored id was handed out by the counter. */
    ghost predicate Valid()
      reads this
    {
      && NoEmptyTopics(topics)
      && (forall t, k :: t in topics && k in topics[t] ==> 0 < k <= idCounter)
    }

    /** `NewTopicBroadcaster`. */
    constructor ()
      ensures Valid() && topics == map[] && idCounter == 0
    {
      topics, idCounter := map[], 0;
    }

    /** `subscribe`: a fresh id above every earlier one, and `c` stored under
        the event type's topic. */
    method SubscribeCallback(et: EventType, c: Callback) returns (s: Subscription)
      requires Valid()
      modifies this
      ensures Valid()
      ensures idCounter == old(idCounter) + 1 && s == Subscription(idCounter, et)
      ensures forall t, k :: t in old(topics) && k in old(topics)[t] ==> k < s.id
      ensures topics == Subscribed(old(topics), et.topic, s.id, c)
    {
      idCounter := idCounter + 1;
      var id := idCounter;
      var topic := et.topic;
      if topic !in topics {
        topics := topics[topic := map[]];
      }
      topics := topics[topic := topics[topic][id := c]];
      SubscribedKeepsNoEmptyTopics(old(topics), topic, id, c);
      return Subscription(id, et);
    }

    /** `Subscribe`: a subscription whose callback takes `et` events. */
    method Subscribe(et: EventType, token: nat) returns (s: Subscription)
      requires Valid()
      modifies this
      ensures Valid()
      ensures idCounter == old(idCounter) + 1 && s == Subscription(idCounter, et)
      ensures forall t, k :: t in old(topics) && k in old(topics)[t] ==> k < s.id
      ensures topics == Subscribed(old(topics), et.topic, s.id, Callback(token, et))
      ensures Listeners(topics, et) == Listeners(old(topics), et) + {s.id}
      ensures |Listeners(topics, et)| == |Listeners(old(topics), et)| + 1
    {
      s := SubscribeCallback(et, Callback(token, et));
      SubscribeOneMore(old(topics), et, s.id, token);
    }

    /** `Subscription.Close`. */
    method Close(s: Subscription)
      requires Valid()
      modifies this
      ensures Valid()
      ensures idCounter == old(idCounter)
      ensures topics == Closed(old(topics), s.eventType.topic, s.id)
    {
      var topic := s.eventType.topic;
      if topic in topics {
        var subs := topics[topic] - {s.id};
        topics := topics[topic := subs];
        if |subs| == 0 {
          topics := topics - {topic};
        }
      }
      ClosedKeepsNoEmptyTopics(old(topics), topic, s.id);
    }

    /** `Notify`: counts, and lists in dispatch order, the subscriptions under
        the event's topic whose callback takes `et` events; each is
        dispatched once. */
    method Notify(et: EventType) returns (notified: nat, dispatched: seq<nat>)
      requires Valid()
      ensures notified == |dispatched| == |Listeners(topics, et)|
      ensures forall k :: k in dispatched <==> k in Listeners(topics, et)
      ensures forall i, j :: 0 <= i < j < |dispatched| ==> dispatched[i] != dispatched[j]
    {
      notified, dispatched := 0, [];
      if et.topic in topics {
        var subs := topics[et.topic];
        var pending := subs.Keys;
        while pending != {}
          invariant pending <= subs.Keys
          invariant notified == |dispatched|
          invariant notified + |MatchingIn(subs, et, pending)| == |MatchingIn(subs, et, subs.Keys)|
          invariant forall k :: k in dispatched <==> k in subs && k !in pending && subs[k].param == et
          invariant forall i, j :: 0 <= i < j < |dispatched| ==> dispatched[i] != dispatched[j]
          decreases |pending|
        {
          var k :| k in pending;
          var c := subs[k];
          MatchingStep(subs, et, pending, k);
          if c.param == et {
            dispatched := dispatched + [k];
            notified := notified + 1;
          }
          pending := pending - {k};
        }
        assert MatchingIn(subs, et, pending) == {};
      }
    }
  }

  /** The subscribe, notify and unsubscribe sequence of the package's own test:
      two `func(TestEvent1)` subscribers on topic 1, none on topic 2. Notifying
      a `TestEvent2` reaches nobody, a `TestEvent1` reaches both subscribers
      once each, and after both close nobody is reached. */
  method SubUnsubScenario()
    returns (first: nat, second: nat, toOther: nat, toBoth: seq<nat>, afterOther: nat, afterBoth: nat)
    ensures first != second
    ensures toOther == 0
    ensures |toBoth| == 2 && toBoth[0] != toBoth[1]
    ensures toBoth[0] in {first, second} && toBoth[1] in {first, second}
    ensures afterOther == 0 && afterBoth == 0
  {
    var b := new TopicBroadcaster();
    var event1, event2 := EventType(1, 1), EventType(2, 2);
    assert Listeners(b.topics, event1) == {} && Listeners(b.topics, event2) == {};
    var sub1 := b.Subscribe(event1, 1);
    var sub2 := b.Subscribe(event1, 2);
    first, second := sub1.id, sub2.id;
    assert Listeners(b.topics, event1) == {first, second};
    assert Listeners(b.topics, event2) == {};

    var dispatched;
    toOther, dispatched := b.Notify(event2);
    var notified;
    notified, toBoth := b.Notify(event1);
    assert toBoth[0] in Listeners(b.topics, event1) && toBoth[1] in Listeners(b.topics, event1);
    afterOther, afterBoth := UnsubScenario(b, sub1, sub2);
  }

  /** Closing both subscribers of the test leaves nobody to notify. */
  method UnsubScenario(b: TopicBroadcaster, sub1: Subscription, sub2: Subscription)
    returns (afterOther: nat, afterBoth: nat)
    requires b.Valid() && sub1.id != sub2.id
    requires var event1 := EventType(1, 1);
             && sub1.eventType == event1 && sub2.eventType == event1
             && |Listeners(b.topics, event1)| == 2
             && sub1.id in Listeners(b.topics, event1) && sub2.id in Listeners(b.topics, event1)
             && Listeners(b.topics, EventType(2, 2)) == {}
    modifies b
    ensures afterOther == 0 && afterBoth == 0
  {
    var event1, event2 := EventType(1, 1), EventType(2, 2);
    CloseOneFewer(b.topics, sub1);
    CloseOtherTopic(b.topics, 1, sub1.id, event2);
    b.Close(sub1);
    CloseOneFewer(b.topics, sub2);
    CloseOtherTopic(b.topics, 1, sub2.id, event2);
    b.Close(sub2);
    var dispatched;
    afterOther, dispatched := b.Notify(event2);
    afterBoth, dispatched := b.Notify(event1);
  }
}
