/**
 * The subscription registry as values: subscription records, how their ids
 * are generated, and the registry operations `unsubscribe`,
 * `unsubscribeAll`, `subscriptionsFor` and `subscriberCount` as functions on
 * the list of active subscriptions, kept in registration order.
 *
 * Modelling choice: an id is "sub-" followed by the decimal creation number
 * of the subscription; the bus hands out creation numbers from a counter, so
 * ids never repeat.
 */
module Subscriptions {
  import opened Events
  import opened Topics

  /** One active subscription; `seqNo` is its creation number. */
  datatype Subscription = Subscription(
    id: string,
    seqNo: nat,
    pattern: string,
    subscriberId: string,
    options: SubscriptionOptions)

  // ----- Subscription ids -----

  function DigitChar(d: nat): (c: char)
    requires d < 10
    ensures '0' <= c <= '9'
  {
    ('0' as int + d) as char
  }

  /** The number a string of decimal digits denotes. */
  function DecimalValue(s: string): nat
    requires forall i :: 0 <= i < |s| ==> '0' <= s[i] <= '9'
  {
    if s == [] then 0 else DecimalValue(s[..|s| - 1]) * 10 + (s[|s| - 1] as int - '0' as int)
  }

  /** The decimal digits of `n`, which read back as `n`. */
  function Decimal(n: nat): (s: string)
    ensures |s| >= 1
    ensures forall i :: 0 <= i < |s| ==> '0' <= s[i] <= '9'
    ensures DecimalValue(s) == n
  {
    if n < 10 then [DigitChar(n)]
    else
      var s := Decimal(n / 10) + [DigitChar(n % 10)];
      assert s[..|s| - 1] == Decimal(n / 10);
      s
  }

  const IdPrefix: string := "sub-"

  /** The id of the subscription created `n`-th. */
  function SubscriptionId(n: nat): string
  {
    IdPrefix + Decimal(n)
  }

  /** Distinct creation numbers give distinct ids. */
  lemma SubscriptionIdInjective(a: nat, b: nat)
    requires SubscriptionId(a) == SubscriptionId(b)
    ensures a == b
  {
    assert SubscriptionId(a)[|IdPrefix|..] == Decimal(a);
    assert SubscriptionId(b)[|IdPrefix|..] == Decimal(b);
  }

  // ----- The registry invariant -----

  /** Creation numbers strictly increase along the list (registration order). */
  predicate InCreationOrder(subs: seq<Subscription>)
  {
    forall i, j :: 0 <= i < j < |subs| ==> subs[i].seqNo < subs[j].seqNo
  }

  /**
   * The registry invariant: every id is derived from its creation number,
   * every creation number is below the counter `next`, and the list is in
   * registration order.
   */
  predicate WellFormed(subs: seq<Subscription>, next: nat)
  {
    && (forall i :: 0 <= i < |subs| ==> subs[i].seqNo < next && subs[i].id == SubscriptionId(subs[i].seqNo))
    && InCreationOrder(subs)
  }

  /** In a well-formed registry every id is held by one subscription only. */
  lemma IdsUnique(subs: seq<Subscription>, next: nat, i: nat, j: nat)
    requires WellFormed(subs, next)
    requires i < |subs| && j < |subs| && subs[i].id == subs[j].id
    ensures i == j
  {
    SubscriptionIdInjective(subs[i].seqNo, subs[j].seqNo);
  }

  /** The next id the counter hands out is held by no active subscription. */
  lemma NextIdIsFresh(subs: seq<Subscription>, next: nat)
    requires WellFormed(subs, next)
    ensures SubscriptionId(next) !in Ids(subs)
  {
    if SubscriptionId(next) in Ids(subs) {
      var i :| 0 <= i < |subs| && Ids(subs)[i] == SubscriptionId(next);
      SubscriptionIdInjective(subs[i].seqNo, next);
    }
  }

  /** Registering one more subscription with the counter's number keeps the invariant. */
  lemma AppendWellFormed(subs: seq<Subscription>, next: nat, s: Subscription)
    requires WellFormed(subs, next)
    requires s.seqNo == next && s.id == SubscriptionId(next)
    ensures WellFormed(subs + [s], next + 1)
  {
  }

  // ----- Filtering, order-preserving -----

  /** The elements of `s` that satisfy `keep`, in their order in `s`. */
  function Filter(s: seq<Subscription>, keep: Subscription -> bool): (r: seq<Subscription>)
    ensures |r| <= |s|
    ensures forall x :: x in r <==> x in s && keep(x)
  {
    if s == [] then []
    else
      var init := s[..|s| - 1];
      assert forall x :: x in s <==> x in init || x == s[|s| - 1];
      Filter(init, keep) + if keep(s[|s| - 1]) then [s[|s| - 1]] else []
  }

  /** Filtering keeps a list in registration order. */
  lemma {:induction false} FilterInCreationOrder(subs: seq<Subscription>, keep: Subscription -> bool)
    requires InCreationOrder(subs)
    ensures InCreationOrder(Filter(subs, keep))
  {
    if subs != [] {
      var init := subs[..|subs| - 1];
      FilterInCreationOrder(init, keep);
      var r := Filter(init, keep);
      forall x | x in r ensures x.seqNo < subs[|subs| - 1].seqNo {
        var k :| 0 <= k < |init| && init[k] == x;
      }
    }
  }

  /** Filtering keeps the registry invariant. */
  lemma FilterWellFormed(subs: seq<Subscription>, next: nat, keep: Subscription -> bool)
    requires WellFormed(subs, next)
    ensures WellFormed(Filter(subs, keep), next)
  {
    FilterInCreationOrder(subs, keep);
    var r := Filter(subs, keep);
    forall i | 0 <= i < |r| ensures r[i].seqNo < next && r[i].id == SubscriptionId(r[i].seqNo) {
      assert r[i] in subs;
    }
  }

  /** Filtering with a test that every kept element already passes changes nothing. */
  lemma {:induction false} FilterAllKept(s: seq<Subscription>, keep: Subscription -> bool)
    requires forall x :: x in s ==> keep(x)
    ensures Filter(s, keep) == s
  {
    if s != [] {
      var init := s[..|s| - 1];
      assert forall x :: x in init ==> x in s;
      FilterAllKept(init, keep);
      assert s == init + [s[|s| - 1]];
    }
  }

  /** Filtering with a test that no element passes leaves nothing. */
  lemma {:induction false} FilterNoneKept(s: seq<Subscription>, keep: Subscription -> bool)
    requires forall x :: x in s ==> !keep(x)
    ensures Filter(s, keep) == []
  {
    if s != [] {
      var init := s[..|s| - 1];
      assert forall x :: x in init ==> x in s;
      FilterNoneKept(init, keep);
    }
  }

  /** A second filter with a stronger test is the same as filtering once with it. */
  lemma {:induction false} FilterNarrowed(s: seq<Subscription>, weak: Subscription -> bool, strong: Subscription -> bool)
    requires forall x :: strong(x) ==> weak(x)
    ensures Filter(Filter(s, weak), strong) == Filter(s, strong)
  {
    if s != [] {
      var init := s[..|s| - 1];
      FilterNarrowed(init, weak, strong);
      var f := Filter(s, weak);
      if weak(s[|s| - 1]) {
        assert f[..|f| - 1] == Filter(init, weak);
      } else {
        assert f == Filter(init, weak);
      }
    }
  }

  /** Two tests that agree on every element of `s` keep the same elements. */
  lemma {:induction false} FilterSameOn(s: seq<Subscription>, f: Subscription -> bool, g: Subscription -> bool)
    requires forall x :: x in s ==> f(x) == g(x)
    ensures Filter(s, f) == Filter(s, g)
  {
    if s != [] {
      var init := s[..|s| - 1];
      assert forall x :: x in init ==> x in s;
      FilterSameOn(init, f, g);
    }
  }

  /** Filtering with a stronger test keeps no more elements. */
  lemma {:induction false} FilterNarrowedLength(s: seq<Subscription>, weak: Subscription -> bool, strong: Subscription -> bool)
    requires forall x :: strong(x) ==> weak(x)
    ensures |Filter(s, strong)| <= |Filter(s, weak)|
  {
    if s != [] {
      FilterNarrowedLength(s[..|s| - 1], weak, strong);
    }
  }

  /** Replacing one rejected element by an accepted one keeps exactly one more element. */
  lemma {:induction false} FilterReplaceOne(s: seq<Subscription>, k: nat, v: Subscription, keep: Subscription -> bool)
    requires k < |s| && !keep(s[k]) && keep(v)
    ensures |Filter(s[k := v], keep)| == |Filter(s, keep)| + 1
  {
    var s' := s[k := v];
    var n := |s| - 1;
    if k == n {
      assert s'[..n] == s[..n];
    } else {
      FilterReplaceOne(s[..n], k, v, keep);
      assert s'[..n] == s[..n][k := v];
    }
  }

  // ----- Registry operations as functions -----

  /** The ids of a list of subscriptions, in the same order. */
  function Ids(subs: seq<Subscription>): (ids: seq<string>)
    ensures |ids| == |subs|
  {
    seq(|subs|, i requires 0 <= i < |subs| => subs[i].id)
  }

  /** The registry after `unsubscribe(id)`. */
  function WithoutId(subs: seq<Subscription>, id: string): seq<Subscription>
  {
    Filter(subs, (s: Subscription) => s.id != id)
  }

  /** The registry after `unsubscribeAll(subscriberId)`. */
  function WithoutOwner(subs: seq<Subscription>, subscriberId: string): seq<Subscription>
  {
    Filter(subs, (s: Subscription) => s.subscriberId != subscriberId)
  }

  /** The subscriptions owned by `subscriberId`, in registration order. */
  function OwnedBy(subs: seq<Subscription>, subscriberId: string): seq<Subscription>
  {
    Filter(subs, (s: Subscription) => s.subscriberId == subscriberId)
  }

  /** The subscriptions whose pattern matches `topic`, in registration order. */
  function MatchingTopic(subs: seq<Subscription>, topic: string): seq<Subscription>
  {
    Filter(subs, (s: Subscription) => MatchesTopic(topic, s.pattern))
  }

  /**
   * After `unsubscribe(id)` the id is gone and nothing else is: a second
   * `unsubscribe(id)` finds nothing to remove.
   */
  lemma UnsubscribeRemovesExactlyId(subs: seq<Subscription>, id: string)
    ensures id !in Ids(WithoutId(subs, id))
    ensures forall s :: s in WithoutId(subs, id) <==> s in subs && s.id != id
    ensures WithoutId(WithoutId(subs, id), id) == WithoutId(subs, id)
  {
    var r := WithoutId(subs, id);
    if id in Ids(r) {
      var i :| 0 <= i < |r| && Ids(r)[i] == id;
      assert r[i] in r;
    }
    FilterAllKept(r, (s: Subscription) => s.id != id);
  }

  /** In a well-formed registry, unsubscribing a present id removes exactly one subscription. */
  lemma {:induction false} UnsubscribeRemovesOne(subs: seq<Subscription>, next: nat, id: string)
    requires WellFormed(subs, next)
    requires id in Ids(subs)
    ensures |WithoutId(subs, id)| == |subs| - 1
  {
    var n := |subs| - 1;
    var init := subs[..n];
    assert WellFormed(init, next);
    if subs[n].id == id {
      assert id !in Ids(init) by {
        if id in Ids(init) {
          var i :| 0 <= i < |init| && Ids(init)[i] == id;
          IdsUnique(subs, next, i, n);
        }
      }
      forall x | x in init ensures x.id != id {
        var i :| 0 <= i < |init| && init[i] == x;
        assert Ids(init)[i] == x.id;
      }
      FilterAllKept(init, (s: Subscription) => s.id != id);
    } else {
      assert id in Ids(init) by {
        var i :| 0 <= i < |subs| && Ids(subs)[i] == id;
        assert i < n && Ids(init)[i] == id;
      }
      UnsubscribeRemovesOne(init, next, id);
    }
  }

  /**
   * After `unsubscribeAll(p)`, `subscriptionsFor(p)` is empty and every
   * other subscriber keeps exactly the subscriptions it had, in order.
   */
  lemma UnsubscribeAllOnlyOwner(subs: seq<Subscription>, p: string, q: string)
    ensures OwnedBy(WithoutOwner(subs, p), p) == []
    ensures q != p ==> OwnedBy(WithoutOwner(subs, p), q) == OwnedBy(subs, q)
  {
    FilterNoneKept(WithoutOwner(subs, p), (s: Subscription) => s.subscriberId == p);
    if q != p {
      FilterNarrowed(subs, (s: Subscription) => s.subscriberId != p, (s: Subscription) => s.subscriberId == q);
    }
  }

  /** A new subscription is listed last among its owner's and nowhere else. */
  lemma SubscribeAppendsToOwner(subs: seq<Subscription>, s: Subscription, q: string)
    ensures OwnedBy(subs + [s], q) == OwnedBy(subs, q) + if s.subscriberId == q then [s] else []
  {
  }
}
