/**
 * Client code that uses only the contracts of `EventBus.Bus`: a
 * request/response walkthrough and three subscription walkthroughs.
 */
module Scenarios {
  import opened Optional
  import opened Variants
  import opened Events
  import opened Subscriptions
  import opened EventBus

  /**
   * A second handler for a bound topic is refused, the first stays in
   * place, and once the topic is unbound it can be bound again.
   */
  method HandlerRegistration(f: RequestHandler, g: RequestHandler, now: int64)
  {
    var bus := new Bus();
    var none := bus.Request(now, "x");
    assert none == None;
    var first := bus.RegisterHandler("x", "h1", f);
    assert first;
    var second := bus.RegisterHandler("x", "h2", g);
    assert !second && bus.HasHandler("x");
    var answer := bus.Request(now, "x");
    assert answer == f(Event("x", "", map[], now));
    var unbound := bus.UnregisterHandler("x");
    assert unbound && !bus.HasHandler("x");
    var again := bus.RegisterHandler("x", "h2", g);
    assert again;
  }

  /** `subscriptionsFor` lists a subscriber's ids in registration order. */
  method SubscriptionsInOrder()
  {
    var bus := new Bus();
    var a := bus.Subscribe("orders/*", "p1", SubscriptionOptions(priority := 1));
    ghost var afterA := bus.subs;
    var b := bus.Subscribe("orders/created", "p2");
    ghost var afterB := bus.subs;
    var c := bus.Subscribe("orders/created", "p1");
    ghost var first, last := afterA[0], bus.subs[2];
    SubscribeAppendsToOwner([], first, "p1");
    assert OwnedBy(afterA, "p1") == [first];
    SubscribeAppendsToOwner(afterA, afterB[1], "p1");
    assert OwnedBy(afterB, "p1") == [first];
    SubscribeAppendsToOwner(afterB, last, "p1");
    assert OwnedBy(bus.subs, "p1") == [first, last];
    assert first.id == a && last.id == c;
    assert Ids([first, last]) == [a, c];
    var mine := bus.SubscriptionsFor("p1");
    assert mine == [a, c];
  }

  /** An unsubscribed id is gone and cannot be removed a second time. */
  method UnsubscribeOnce()
  {
    var bus := new Bus();
    var a := bus.Subscribe("orders/*", "p1");
    assert Ids(bus.subs)[0] == a;
    var removed := bus.Unsubscribe(a);
    assert removed;
    var twice := bus.Unsubscribe(a);
    assert !twice;
  }

  /** After `unsubscribeAll` the subscriber has nothing left and the others keep theirs. */
  method UnsubscribeAllKeepsOthers()
  {
    var bus := new Bus();
    var a := bus.Subscribe("orders/*", "p1");
    var b := bus.Subscribe("orders/created", "p2");
    SubscribeAppendsToOwner(bus.subs[..1], bus.subs[1], "p2");
    assert bus.subs[..1] == [bus.subs[0]];
    var before := bus.SubscriptionsFor("p2");
    assert before == [b];
    bus.UnsubscribeAll("p1");
    var mine := bus.SubscriptionsFor("p1");
    assert mine == [];
    var theirs := bus.SubscriptionsFor("p2");
    assert theirs == [b];
  }
}
