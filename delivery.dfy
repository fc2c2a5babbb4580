/**
 * Which subscriptions a publish notifies, and in what order (`publish`,
 * `publishSync`). A subscription is notified when its pattern matches the
 * topic, unless it belongs to the sender and did not ask to receive its own
 * events. Notified subscriptions are called in descending priority.
 *
 * Modelling choice: subscriptions of equal priority are called in
 * registration order.
 */
module Delivery {
  import opened Topics
  import opened Subscriptions

  /** Whether a publish of `topic` by `senderId` notifies `s`. */
  predicate Eligible(s: Subscription, topic: string, senderId: string)
  {
    MatchesTopic(topic, s.pattern) && (s.subscriberId != senderId || s.options.receiveOwnEvents)
  }

  /** The notified subscriptions, still in registration order. */
  function EligibleFor(subs: seq<Subscription>, topic: string, senderId: string): seq<Subscription>
  {
    Filter(subs, (s: Subscription) => Eligible(s, topic, senderId))
  }

  /** `a` is called before `b`: higher priority first, then earlier registration. */
  predicate Precedes(a: Subscription, b: Subscription)
  {
    a.options.priority > b.options.priority
    || (a.options.priority == b.options.priority && a.seqNo < b.seqNo)
  }

  /** Every subscription in `s` is called before every later one. */
  predicate InDeliveryOrder(s: seq<Subscription>)
  {
    forall i, j :: 0 <= i < j < |s| ==> Precedes(s[i], s[j])
  }

  /** Places `x` after every element of `s` whose priority is not lower. */
  function InsertByPriority(x: Subscription, s: seq<Subscription>): (r: seq<Subscription>)
    ensures multiset(r) == multiset(s) + multiset{x}
  {
    if s == [] then [x]
    else if s[0].options.priority >= x.options.priority then
      assert s == [s[0]] + s[1..];
      [s[0]] + InsertByPriority(x, s[1..])
    else [x] + s
  }

  /** Stable insertion sort by descending priority. */
  function SortByPriority(s: seq<Subscription>): (r: seq<Subscription>)
    ensures multiset(r) == multiset(s)
  {
    if s == [] then []
    else
      assert s == s[..|s| - 1] + [s[|s| - 1]];
      InsertByPriority(s[|s| - 1], SortByPriority(s[..|s| - 1]))
  }

  /** Inserting a later-registered subscription into an ordered list keeps it ordered. */
  lemma {:induction false} InsertInDeliveryOrder(x: Subscription, s: seq<Subscription>)
    requires InDeliveryOrder(s)
    requires forall y :: y in s ==> y.seqNo < x.seqNo
    ensures InDeliveryOrder(InsertByPriority(x, s))
  {
    if s != [] && s[0].options.priority >= x.options.priority {
      var rest := s[1..];
      assert forall y :: y in rest ==> y in s;
      InsertInDeliveryOrder(x, rest);
      var r' := InsertByPriority(x, rest);
      forall y | y in r' ensures Precedes(s[0], y) {
        assert y in multiset(r');
        if y != x {
          var k :| 0 <= k < |rest| && rest[k] == y;
          assert s[k + 1] == y;
        }
      }
    }
  }

  /** Sorting a list in registration order yields the delivery order. */
  lemma {:induction false} SortInDeliveryOrder(s: seq<Subscription>)
    requires InCreationOrder(s)
    ensures InDeliveryOrder(SortByPriority(s))
  {
    if s != [] {
      var init, x := s[..|s| - 1], s[|s| - 1];
      SortInDeliveryOrder(init);
      var sorted := SortByPriority(init);
      forall y | y in sorted ensures y.seqNo < x.seqNo {
        assert y in multiset(init);
        var k :| 0 <= k < |init| && init[k] == y;
      }
      InsertInDeliveryOrder(x, sorted);
    }
  }

  /** Two nonempty lists in delivery order with the same elements start alike. */
  lemma SameFirst(a: seq<Subscription>, b: seq<Subscription>)
    requires InDeliveryOrder(a) && InDeliveryOrder(b)
    requires a != [] && multiset(a) == multiset(b)
    ensures b != [] && a[0] == b[0]
  {
    assert a[0] in multiset(b);
    var k :| 0 <= k < |b| && b[k] == a[0];
    assert b[0] in multiset(a);
    var m :| 0 <= m < |a| && a[m] == b[0];
  }

  /** Two lists in delivery order with the same elements are the same list. */
  lemma {:induction false} DeliveryOrderUnique(a: seq<Subscription>, b: seq<Subscription>)
    requires InDeliveryOrder(a) && InDeliveryOrder(b)
    requires multiset(a) == multiset(b)
    ensures a == b
  {
    if a == [] {
      assert |b| == |multiset(b)| == 0;
    } else {
      SameFirst(a, b);
      assert a == [a[0]] + a[1..] && b == [b[0]] + b[1..];
      assert multiset(a[1..]) == multiset(a) - multiset{a[0]};
      assert multiset(b[1..]) == multiset(b) - multiset{b[0]};
      DeliveryOrderUnique(a[1..], b[1..]);
    }
  }

  /** The subscriptions a publish of `topic` by `senderId` notifies, in call order. */
  function DeliveryOrder(subs: seq<Subscription>, topic: string, senderId: string): (d: seq<Subscription>)
    ensures multiset(d) == multiset(EligibleFor(subs, topic, senderId))
    ensures |d| == |EligibleFor(subs, topic, senderId)|
    ensures forall s :: s in d <==> s in subs && Eligible(s, topic, senderId)
  {
    var e := EligibleFor(subs, topic, senderId);
    var d := SortByPriority(e);
    assert |d| == |multiset(d)| == |multiset(e)| == |e|;
    forall s ensures s in d <==> s in subs && Eligible(s, topic, senderId) {
      assert s in d <==> s in multiset(d);
      assert s in e <==> s in multiset(e);
    }
    d
  }

  /**
   * In a registry kept in registration order, the delivery order is the one
   * arrangement of the notified subscriptions by descending priority, ties
   * in registration order.
   */
  lemma DeliveryOrderCharacterised(subs: seq<Subscription>, topic: string, senderId: string, order: seq<Subscription>)
    requires InCreationOrder(subs)
    ensures InDeliveryOrder(DeliveryOrder(subs, topic, senderId))
    ensures InDeliveryOrder(order) && multiset(order) == multiset(EligibleFor(subs, topic, senderId))
            ==> order == DeliveryOrder(subs, topic, senderId)
  {
    var e := EligibleFor(subs, topic, senderId);
    FilterInCreationOrder(subs, (s: Subscription) => Eligible(s, topic, senderId));
    SortInDeliveryOrder(e);
    if InDeliveryOrder(order) && multiset(order) == multiset(e) {
      DeliveryOrderUnique(order, DeliveryOrder(subs, topic, senderId));
    }
  }

  /**
   * Turning on `receiveOwnEvents` for one of the sender's own matching
   * subscriptions makes the publish notify exactly one more subscription.
   */
  lemma ReceiveOwnEventsAddsOne(subs: seq<Subscription>, k: nat, topic: string, senderId: string)
    requires k < |subs| && subs[k].subscriberId == senderId
    requires MatchesTopic(topic, subs[k].pattern) && !subs[k].options.receiveOwnEvents
    ensures var own := subs[k].(options := subs[k].options.(receiveOwnEvents := true));
            |DeliveryOrder(subs[k := own], topic, senderId)| == |DeliveryOrder(subs, topic, senderId)| + 1
  {
    var own := subs[k].(options := subs[k].options.(receiveOwnEvents := true));
    FilterReplaceOne(subs, k, own, (s: Subscription) => Eligible(s, topic, senderId));
  }

  /**
   * A publish notifies at most the subscriptions `subscriberCount` counts,
   * and exactly that many when the sender owns none of them.
   */
  lemma DeliveryWithinMatching(subs: seq<Subscription>, topic: string, senderId: string)
    ensures |DeliveryOrder(subs, topic, senderId)| <= |MatchingTopic(subs, topic)|
    ensures (forall s :: s in subs ==> s.subscriberId != senderId)
            ==> DeliveryOrder(subs, topic, senderId) == SortByPriority(MatchingTopic(subs, topic))
  {
    var matching := (s: Subscription) => MatchesTopic(topic, s.pattern);
    var eligible := (s: Subscription) => Eligible(s, topic, senderId);
    FilterNarrowedLength(subs, matching, eligible);
    if forall s :: s in subs ==> s.subscriberId != senderId {
      FilterSameOn(subs, eligible, matching);
    }
  }

  /** When every subscription is notified, the notified list is the whole registry. */
  lemma AllEligible(subs: seq<Subscription>, topic: string, senderId: string)
    requires forall i :: 0 <= i < |subs| ==> Eligible(subs[i], topic, senderId)
    ensures EligibleFor(subs, topic, senderId) == subs
  {
    FilterAllKept(subs, (s: Subscription) => Eligible(s, topic, senderId));
  }

  /**
   * Three subscriptions registered in turn with priorities 5, 10 and 5 are
   * called highest priority first, then in registration order: 10, then the
   * first 5, then the second 5.
   */
  lemma PriorityOrderExample(subs: seq<Subscription>, topic: string, senderId: string)
    requires |subs| == 3 && InCreationOrder(subs)
    requires subs[0].options.priority == 5 && subs[1].options.priority == 10 && subs[2].options.priority == 5
    requires forall i :: 0 <= i < |subs| ==> Eligible(subs[i], topic, senderId)
    ensures DeliveryOrder(subs, topic, senderId) == [subs[1], subs[0], subs[2]]
  {
    var expected := [subs[1], subs[0], subs[2]];
    AllEligible(subs, topic, senderId);
    SwapFirstTwo(subs);
    assert InDeliveryOrder(expected) by {
      assert Precedes(subs[1], subs[0]) && Precedes(subs[1], subs[2]) && Precedes(subs[0], subs[2]);
    }
    DeliveryOrderCharacterised(subs, topic, senderId, expected);
  }

  /** Exchanging the first two of three elements keeps the same elements. */
  lemma SwapFirstTwo(s: seq<Subscription>)
    requires |s| == 3
    ensures multiset([s[1], s[0], s[2]]) == multiset(s)
  {
    assert s == [s[0], s[1], s[2]];
  }

  /** One planned handler call: which subscription, and whether the publisher waits for it. */
  datatype Dispatch = Dispatch(subscriptionId: string, inline: bool)

  /**
   * The calls a publish makes, in order. `publish` runs a subscription inline
   * only when its `async` option is off; `publishSync` (`blocking`) runs
   * every one inline.
   */
  function DispatchPlan(order: seq<Subscription>, blocking: bool): (plan: seq<Dispatch>)
    ensures |plan| == |order|
    ensures forall i :: 0 <= i < |plan| ==>
              plan[i].subscriptionId == order[i].id && (plan[i].inline <==> blocking || !order[i].options.async)
  {
    seq(|order|, i requires 0 <= i < |order| => Dispatch(order[i].id, blocking || !order[i].options.async))
  }

  /**
   * A publish in a well-formed registry plans each notified subscription
   * exactly once: no two planned calls go to the same subscription id.
   */
  lemma PlanCallsEachOnce(subs: seq<Subscription>, next: nat, topic: string, senderId: string, blocking: bool, i: nat, j: nat)
    requires WellFormed(subs, next)
    requires i < |DispatchPlan(DeliveryOrder(subs, topic, senderId), blocking)|
    requires j < |DispatchPlan(DeliveryOrder(subs, topic, senderId), blocking)|
    requires DispatchPlan(DeliveryOrder(subs, topic, senderId), blocking)[i].subscriptionId
          == DispatchPlan(DeliveryOrder(subs, topic, senderId), blocking)[j].subscriptionId
    ensures i == j
  {
    var order := DeliveryOrder(subs, topic, senderId);
    DeliveryOrderCharacterised(subs, topic, senderId, order);
    assert order[i] in subs && order[j] in subs;
    var a :| 0 <= a < |subs| && subs[a] == order[i];
    var b :| 0 <= b < |subs| && subs[b] == order[j];
    IdsUnique(subs, next, a, b);
  }

  /**
   * The subscriptions a publish calls are exactly the eligible ones: a
   * registered subscription gets a planned call if and only if its pattern
   * matches and it is not an own event it declined.
   */
  lemma PlanCoversEligible(subs: seq<Subscription>, next: nat, topic: string, senderId: string, blocking: bool, s: Subscription)
    requires WellFormed(subs, next) && s in subs
    ensures (exists k :: 0 <= k < |DispatchPlan(DeliveryOrder(subs, topic, senderId), blocking)|
                         && DispatchPlan(DeliveryOrder(subs, topic, senderId), blocking)[k].subscriptionId == s.id)
            <==> Eligible(s, topic, senderId)
  {
    var order := DeliveryOrder(subs, topic, senderId);
    var plan := DispatchPlan(order, blocking);
    var a :| 0 <= a < |subs| && subs[a] == s;
    if Eligible(s, topic, senderId) {
      var k :| 0 <= k < |order| && order[k] == s;
      assert plan[k].subscriptionId == s.id;
    }
    if k :| 0 <= k < |plan| && plan[k].subscriptionId == s.id {
      assert order[k] in subs;
      var b :| 0 <= b < |subs| && subs[b] == order[k];
      IdsUnique(subs, next, a, b);
    }
  }

  /** The ids of the calls in `plan` that run inline, in call order. */
  function InlineIds(plan: seq<Dispatch>): seq<string>
  {
    if plan == [] then []
    else InlineIds(plan[..|plan| - 1]) + if plan[|plan| - 1].inline then [plan[|plan| - 1].subscriptionId] else []
  }

  /** Whether `publish` runs a call to `s` inline: its `async` option is off. */
  predicate IsSync(s: Subscription)
  {
    !s.options.async
  }

  /** Helper: the plan of a list extended by one is the plan extended by one call. */
  lemma PlanOfAppend(order: seq<Subscription>, last: Subscription, blocking: bool)
    ensures DispatchPlan(order + [last], blocking)
         == DispatchPlan(order, blocking) + [Dispatch(last.id, blocking || !last.options.async)]
  {
  }

  /** Helper: `Ids` distributes over concatenation. */
  lemma IdsAppend(a: seq<Subscription>, b: seq<Subscription>)
    ensures Ids(a + b) == Ids(a) + Ids(b)
  {
  }

  /** `publishSync` runs every notified subscription inline, in delivery order. */
  lemma {:induction false} BlockingCallsAllInline(order: seq<Subscription>)
    ensures InlineIds(DispatchPlan(order, true)) == Ids(order)
  {
    if order != [] {
      var init, last := order[..|order| - 1], order[|order| - 1];
      assert order == init + [last];
      BlockingCallsAllInline(init);
      PlanOfAppend(init, last, true);
      IdsAppend(init, [last]);
    }
  }

  /**
   * `publish` runs inline exactly the notified subscriptions whose `async`
   * option is off, in delivery order.
   */
  lemma {:induction false} InlineCallsAreSync(order: seq<Subscription>)
    ensures InlineIds(DispatchPlan(order, false)) == Ids(Filter(order, IsSync))
  {
    if order != [] {
      var init, last := order[..|order| - 1], order[|order| - 1];
      assert order == init + [last];
      InlineCallsAreSync(init);
      PlanOfAppend(init, last, false);
      IdsAppend(Filter(init, IsSync), if IsSync(last) then [last] else []);
    }
  }
}
