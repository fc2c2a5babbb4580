/**
 * A reference implementation of the `IEventBus` contract, single-threaded:
 * the subscription registry (active subscriptions in registration order and
 * the counter their ids come from), the request-handler registry (at most
 * one handler per exact topic), the queries over them, and which
 * subscriptions a publish notifies in which order.
 *
 * The wall clock is a parameter (`now`) wherever an event is built. A request
 * handler is a function from the event to its result map, or to `None` when
 * the handler fails; subscription callbacks are not stored, because a
 * publish is modelled by the calls it plans, not by running them.
 */
module EventBus {
  import opened Optional
  import opened Variants
  import opened Events
  import opened Topics
  import opened Subscriptions
  import opened Delivery

  /** A request handler: the event in, the result map out, or `None` if it fails. */
  type RequestHandler = Event -> Option<VariantMap>

  /** The handler bound to one exact topic, with the id of its owner. */
  datatype HandlerEntry = HandlerEntry(handlerId: string, handler: RequestHandler)

  class Bus {
    /** The active subscriptions, in registration order. */
    var subs: seq<Subscription>
    /** The creation number the next subscription gets. */
    var nextSeq: nat
    /** Exact topic to the handler bound to it. */
    var handlers: map<string, HandlerEntry>

    ghost predicate Valid()
      reads this
    {
      WellFormed(subs, nextSeq)
    }

    constructor ()
      ensures Valid()
      ensures subs == [] && nextSeq == 0 && handlers == map[]
    {
      subs := [];
      nextSeq := 0;
      handlers := map[];
    }

    // ===== Publish/Subscribe =====

    /**
     * `subscribe`: always succeeds and returns an id no active subscription
     * holds; the new subscription is the last one registered.
     */
    method Subscribe(pattern: string, subscriberId: string, options: SubscriptionOptions := DefaultOptions())
      returns (id: string)
      requires Valid()
      modifies this
      ensures Valid()
      ensures id !in Ids(old(subs))
      ensures subs == old(subs) + [Subscription(id, old(nextSeq), pattern, subscriberId, options)]
      ensures nextSeq == old(nextSeq) + 1 && handlers == old(handlers)
    {
      NextIdIsFresh(subs, nextSeq);
      id := SubscriptionId(nextSeq);
      var s := Subscription(id, nextSeq, pattern, subscriberId, options);
      AppendWellFormed(subs, nextSeq, s);
      subs := subs + [s];
      nextSeq := nextSeq + 1;
    }

    /**
     * `unsubscribe`: true exactly when the id was active; afterwards it is
     * not, and every other subscription stays, in order.
     */
    method Unsubscribe(subscriptionId: string) returns (removed: bool)
      requires Valid()
      modifies this
      ensures Valid()
      ensures removed <==> subscriptionId in Ids(old(subs))
      ensures subs == WithoutId(old(subs), subscriptionId)
      ensures subscriptionId !in Ids(subs)
      ensures nextSeq == old(nextSeq) && handlers == old(handlers)
    {
      var current := subs;
      var kept: seq<Subscription> := [];
      removed := false;
      var i := 0;
      while i < |current|
        invariant 0 <= i <= |current|
        invariant kept == WithoutId(current[..i], subscriptionId)
        invariant removed <==> subscriptionId in Ids(current[..i])
      {
        assert current[..i + 1][..i] == current[..i];
        assert Ids(current[..i + 1]) == Ids(current[..i]) + [current[i].id];
        if current[i].id == subscriptionId {
          removed := true;
        } else {
          kept := kept + [current[i]];
        }
        i := i + 1;
      }
      assert current[..i] == current;
      FilterWellFormed(current, nextSeq, (s: Subscription) => s.id != subscriptionId);
      UnsubscribeRemovesExactlyId(current, subscriptionId);
      subs := kept;
    }

    /** `unsubscribeAll`: drops every subscription of `subscriberId` and no other. */
    method UnsubscribeAll(subscriberId: string)
      requires Valid()
      modifies this
      ensures Valid()
      ensures subs == WithoutOwner(old(subs), subscriberId)
      ensures OwnedBy(subs, subscriberId) == []
      ensures forall q :: q != subscriberId ==> OwnedBy(subs, q) == OwnedBy(old(subs), q)
      ensures nextSeq == old(nextSeq) && handlers == old(handlers)
    {
      var current := subs;
      var kept: seq<Subscription> := [];
      var i := 0;
      while i < |current|
        invariant 0 <= i <= |current|
        invariant kept == WithoutOwner(current[..i], subscriberId)
      {
        assert current[..i + 1][..i] == current[..i];
        if current[i].subscriberId != subscriberId {
          kept := kept + [current[i]];
        }
        i := i + 1;
      }
      assert current[..i] == current;
      FilterWellFormed(current, nextSeq, (s: Subscription) => s.subscriberId != subscriberId);
      forall q ensures OwnedBy(kept, subscriberId) == [] && (q != subscriberId ==> OwnedBy(kept, q) == OwnedBy(current, q)) {
        UnsubscribeAllOnlyOwner(current, subscriberId, q);
      }
      subs := kept;
    }

    /**
     * The subscriptions a publish of `topic` by `senderId` notifies, in call
     * order: matching ones, less the sender's own unless they receive own
     * events, by descending priority, ties in registration order.
     */
    method NotifiedSubscriptions(topic: string, senderId: string) returns (order: seq<Subscription>)
      requires Valid()
      ensures order == DeliveryOrder(subs, topic, senderId)
      ensures InDeliveryOrder(order)
    {
      var eligible: seq<Subscription> := [];
      var i := 0;
      while i < |subs|
        invariant 0 <= i <= |subs|
        invariant eligible == EligibleFor(subs[..i], topic, senderId)
      {
        assert subs[..i + 1][..i] == subs[..i];
        if Eligible(subs[i], topic, senderId) {
          eligible := eligible + [subs[i]];
        }
        i := i + 1;
      }
      assert subs[..i] == subs;
      order := SortByPriority(eligible);
      DeliveryOrderCharacterised(subs, topic, senderId, order);
    }

    /**
     * `publish`: builds the event and returns how many subscriptions it
     * notifies; each is called in delivery order, inline only when its
     * `async` option is off.
     */
    method Publish(now: int64, topic: string, data: VariantMap, senderId: string := "")
      returns (notified: nat, event: Event, plan: seq<Dispatch>)
      requires Valid()
      ensures event == Event(topic, senderId, data, now)
      ensures plan == DispatchPlan(DeliveryOrder(subs, topic, senderId), false)
      ensures notified == |plan| == |EligibleFor(subs, topic, senderId)|
    {
      event := Event(topic, senderId, data, now);
      var order := NotifiedSubscriptions(topic, senderId);
      plan := DispatchPlan(order, false);
      notified := |plan|;
    }

    /**
     * `publishSync`: the same subscriptions in the same order as `publish`,
     * every one called inline.
     */
    method PublishSync(now: int64, topic: string, data: VariantMap, senderId: string := "")
      returns (notified: nat, event: Event, plan: seq<Dispatch>)
      requires Valid()
      ensures event == Event(topic, senderId, data, now)
      ensures plan == DispatchPlan(DeliveryOrder(subs, topic, senderId), true)
      ensures forall i :: 0 <= i < |plan| ==> plan[i].inline
      ensures notified == |plan| == |EligibleFor(subs, topic, senderId)|
    {
      event := Event(topic, senderId, data, now);
      var order := NotifiedSubscriptions(topic, senderId);
      plan := DispatchPlan(order, true);
      notified := |plan|;
    }

    // ===== Request/Response =====

    /** `hasHandler`. */
    predicate HasHandler(topic: string)
      reads this
    {
      topic in handlers
    }

    /**
     * `registerHandler`: binds `topic` and returns true only if it had no
     * handler; otherwise returns false and leaves the existing binding.
     * Either way the topic has a handler afterwards.
     */
    method RegisterHandler(topic: string, handlerId: string, handler: RequestHandler) returns (registered: bool)
      requires Valid()
      modifies this
      ensures Valid()
      ensures registered <==> topic !in old(handlers)
      ensures registered ==> handlers == old(handlers)[topic := HandlerEntry(handlerId, handler)]
      ensures !registered ==> handlers == old(handlers)
      ensures HasHandler(topic)
      ensures subs == old(subs) && nextSeq == old(nextSeq)
    {
      registered := topic !in handlers;
      if registered {
        handlers := handlers[topic := HandlerEntry(handlerId, handler)];
      }
    }

    /** `unregisterHandler`: true exactly when `topic` had a handler; afterwards it has none. */
    method UnregisterHandler(topic: string) returns (removed: bool)
      requires Valid()
      modifies this
      ensures Valid()
      ensures removed <==> topic in old(handlers)
      ensures handlers == old(handlers) - {topic}
      ensures !HasHandler(topic)
      ensures subs == old(subs) && nextSeq == old(nextSeq)
    {
      removed := topic in handlers;
      handlers := handlers - {topic};
    }

    /** `unregisterAllHandlers`: drops every binding owned by `handlerId`, keeps the rest as they were. */
    method UnregisterAllHandlers(handlerId: string)
      requires Valid()
      modifies this
      ensures Valid()
      ensures forall t :: t in handlers <==> t in old(handlers) && old(handlers)[t].handlerId != handlerId
      ensures forall t :: t in handlers ==> handlers[t] == old(handlers)[t]
      ensures subs == old(subs) && nextSeq == old(nextSeq)
    {
      handlers := map t | t in handlers && handlers[t].handlerId != handlerId :: handlers[t];
    }

    /**
     * `request` without a timeout: `None` when no handler is bound to the
     * exact topic, otherwise what the handler returns for the event.
     */
    method Request(now: int64, topic: string, data: VariantMap := map[], senderId: string := "")
      returns (response: Option<VariantMap>)
      ensures topic !in handlers ==> response == None
      ensures topic in handlers ==> response == handlers[topic].handler(Event(topic, senderId, data, now))
    {
      if topic in handlers {
        response := handlers[topic].handler(Event(topic, senderId, data, now));
      } else {
        response := None;
      }
    }

    // ===== Query =====

    /** `subscriberCount`: how many active subscriptions have a pattern matching `topic`. */
    method SubscriberCount(topic: string) returns (count: nat)
      ensures count == |MatchingTopic(subs, topic)|
    {
      count := 0;
      var i := 0;
      while i < |subs|
        invariant 0 <= i <= |subs|
        invariant count == |MatchingTopic(subs[..i], topic)|
      {
        assert subs[..i + 1][..i] == subs[..i];
        if MatchesTopic(topic, subs[i].pattern) {
          count := count + 1;
        }
        i := i + 1;
      }
      assert subs[..i] == subs;
    }

    /** `subscriptionsFor`: the ids of the subscriber's active subscriptions, in registration order. */
    method SubscriptionsFor(subscriberId: string) returns (ids: seq<string>)
      ensures ids == Ids(OwnedBy(subs, subscriberId))
    {
      ids := [];
      var i := 0;
      while i < |subs|
        invariant 0 <= i <= |subs|
        invariant ids == Ids(OwnedBy(subs[..i], subscriberId))
      {
        assert subs[..i + 1][..i] == subs[..i];
        if subs[i].subscriberId == subscriberId {
          ids := ids + [subs[i].id];
        }
        i := i + 1;
      }
      assert subs[..i] == subs;
    }
  }
}
