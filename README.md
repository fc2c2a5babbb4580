# Event bus model

A Dafny model of the event bus interface of the mpf plugin SDK
(`include/mpf/interfaces/ieventbus.h`). Plugins of a host application talk to
each other through one bus in three ways: publish/subscribe with wildcard
topic patterns, request/response with at most one handler per exact topic,
and queries over the registries.

The header holds two kinds of content, and the model follows both:

- **Concrete value code**, modelled as functions: `Event::toVariantMap`,
  `Event::fromVariantMap`, `TopicStats::toVariantMap` and the defaults of
  `SubscriptionOptions`. A `QVariant` is the datatype `Variants.Variant`
  (null, bool, integer, string, list, nested map). A `QVariantMap` is a
  `map<string, Variant>`. The integer widths `qint64` and `int` are the
  newtypes `int64` and `int32`.
- **The abstract `IEventBus` contract**, for which the repository has no
  engine. The model gives it a reference implementation: the class
  `EventBus.Bus`. It keeps the active subscriptions in registration order,
  a creation counter that subscription ids come from, and a map from exact
  topic to request handler. The topic matcher is the pure function
  `Topics.MatchesTopic`. Which subscriptions a publish notifies, and in what
  order, is the pure function `Delivery.DeliveryOrder`.

Files and modules:

| file | module | contents |
|---|---|---|
| variants.dfy | `Optional`, `Variants` | `Option`; the variant type and Qt's `value`/`toString`/`toMap`/`toLongLong` reduced to kind checks |
| events.dfy | `Events` | `Event`, `SubscriptionOptions`, `TopicStats` and their variant-map conversions |
| topics.dfy | `Topics` | splitting on `/`, the matcher, its reference definition and wildcard lemmas |
| subscriptions.dfy | `Subscriptions` | subscription records, id generation, the registry invariant, registry operations as functions |
| delivery.dfy | `Delivery` | eligibility, the stable priority sort, the delivery order and the dispatch plan |
| bus.dfy | `EventBus` | the `Bus` class: every `IEventBus` operation as a method |
| scenarios.dfy | `Scenarios` | client walkthroughs that use only the `Bus` contracts |

Modelling choices for what the header leaves open:

- Subscriptions of equal priority are called in registration order.
- `**` counts as a wildcard only as the final pattern segment. A pattern
  with `**` anywhere else matches no topic.
- A final `**` also matches zero further segments, so the topic `orders`
  matches the pattern `orders/**`.
- The empty pattern matches nothing.
- A subscription id is `sub-` followed by the decimal creation number.
  Ids therefore never repeat.
- An event is "from the sender's own subscription" when the subscription's
  `subscriberId` equals the publish's `senderId`. This includes the case
  where both are empty.

## Model

| member | source | states |
|---|---|---|
| Events.EventToVariantMap | include/mpf/interfaces/ieventbus.h:21-39 | the map has exactly the keys topic, senderId, data, timestamp, and `fromVariantMap` of it gives back the same event (round trip) |
| Events.EventFromVariantMap | include/mpf/interfaces/ieventbus.h:31-39 | each field is read from its own key; a present value of the right kind (for timestamp, an integer in the 64-bit range) becomes the field; a missing key leaves the field at its default ("" / empty map / 0) |
| Events.EventMapRoundTrip | include/mpf/interfaces/ieventbus.h:21-39 | encoding a decoded map gives back that map exactly when the map is the encoding of some event (both directions) |
| Events.DecodeEmptyMap | include/mpf/interfaces/ieventbus.h:14-39 | decoding an empty map yields the default-constructed event (empty strings, empty data, timestamp 0) |
| Events.DefaultOptions | include/mpf/interfaces/ieventbus.h:45-50 | default options are async = true, priority = 0, receiveOwnEvents = false |
| Events.TopicStatsToVariantMap | include/mpf/interfaces/ieventbus.h:62-70 | the map has exactly the keys topic, subscriberCount, eventCount, lastEventTime |
| Events.TopicStatsEncodingInjective | include/mpf/interfaces/ieventbus.h:62-70 | the statistics encoding loses nothing: equal maps come from equal records |
| Topics.Split | include/mpf/interfaces/ieventbus.h:16 | a topic splits into at least one segment, none containing `/`, and joining the segments with `/` gives the topic back |
| Topics.SplitJoin | include/mpf/interfaces/ieventbus.h:16 | splitting the join of `/`-free segments gives back the segments (the other round trip) |
| Topics.MatchIsSpec | include/mpf/interfaces/ieventbus.h:79 | the recursive matcher agrees on all inputs with a positional reference definition: `*` accepts any one segment, a literal only itself, a final `**` any rest |
| Topics.SingleLevelWildcard | include/mpf/interfaces/ieventbus.h:79 | a pattern ending in `*` matches exactly the topics with one more segment whose prefix matches |
| Topics.MultiLevelWildcard | include/mpf/interfaces/ieventbus.h:79 | a pattern ending in `**` matches exactly the topics with zero or more further segments whose prefix matches |
| Topics.NonTrailingMultiLevel | include/mpf/interfaces/ieventbus.h:79 | a pattern with `**` before its final segment matches no topic (modelling choice) |
| Topics.LiteralPattern | include/mpf/interfaces/ieventbus.h:175 | a non-empty pattern without wildcard segments matches a topic if and only if the two strings are equal |
| Topics.SingleLevelExample | include/mpf/interfaces/ieventbus.h:79 | "orders/created" matches "orders/*" |
| Topics.SingleLevelIsOneSegmentExample | include/mpf/interfaces/ieventbus.h:79 | "orders/created/urgent" does not match "orders/*" |
| Topics.MultiLevelExample | include/mpf/interfaces/ieventbus.h:79 | "orders/created/urgent" matches "orders/**" |
| Topics.MultiLevelEmptyRestExample | include/mpf/interfaces/ieventbus.h:79 | "orders" matches "orders/**" (modelling choice: zero further segments) |
| Subscriptions.SubscriptionIdInjective | include/mpf/interfaces/ieventbus.h:118 | different creation numbers give different subscription ids |
| Subscriptions.NextIdIsFresh | include/mpf/interfaces/ieventbus.h:118 | the id the counter hands out next is held by no active subscription |
| Subscriptions.IdsUnique | include/mpf/interfaces/ieventbus.h:118 | in a well-formed registry no two subscriptions share an id |
| Subscriptions.UnsubscribeRemovesExactlyId | include/mpf/interfaces/ieventbus.h:125-128 | after removing an id it is absent, every other subscription is kept, and removing it again changes nothing |
| Subscriptions.UnsubscribeRemovesOne | include/mpf/interfaces/ieventbus.h:125-128 | removing an active id from a well-formed registry removes exactly one subscription |
| Subscriptions.UnsubscribeAllOnlyOwner | include/mpf/interfaces/ieventbus.h:130-133 | after unsubscribeAll(p), p owns nothing and every other subscriber's list is unchanged, order included |
| Subscriptions.SubscribeAppendsToOwner | include/mpf/interfaces/ieventbus.h:174 | a new subscription appears last in its owner's list and in no other list |
| Delivery.SortByPriority | include/mpf/interfaces/ieventbus.h:48 | the sorted list is a permutation of its input |
| Delivery.DeliveryOrder | include/mpf/interfaces/ieventbus.h:96-102 | a subscription is notified if and only if it is active, its pattern matches, and it is not the sender's own or it receives own events; the notified list is a permutation of those |
| Delivery.DeliveryOrderCharacterised | include/mpf/interfaces/ieventbus.h:48 | the delivery order is by descending priority, ties in registration order, and it is the only arrangement of the notified subscriptions that is |
| Delivery.DeliveryOrderUnique | include/mpf/interfaces/ieventbus.h:48 | two lists in delivery order with the same elements are equal |
| Delivery.ReceiveOwnEventsAddsOne | include/mpf/interfaces/ieventbus.h:49 | switching on receiveOwnEvents for one of the sender's own matching subscriptions notifies exactly one more subscription |
| Delivery.DeliveryWithinMatching | include/mpf/interfaces/ieventbus.h:96-102 | a publish notifies no more than subscriberCount; when the sender owns none of the subscriptions it notifies all matching ones |
| Delivery.PriorityOrderExample | include/mpf/interfaces/ieventbus.h:48 | subscriptions registered with priorities 5, 10, 5 are called 10 first, then the two 5s in registration order |
| Delivery.PlanCallsEachOnce | include/mpf/interfaces/ieventbus.h:96-102 | in a well-formed registry a publish plans at most one call per subscription id |
| Delivery.PlanCoversEligible | include/mpf/interfaces/ieventbus.h:96-102 | a registered subscription gets a planned call if and only if its pattern matches the topic and it is not the sender's own, unless it receives own events |
| Delivery.InlineCallsAreSync | include/mpf/interfaces/ieventbus.h:47 | the calls publish runs inline are exactly the notified subscriptions with async off, in delivery order |
| Delivery.BlockingCallsAllInline | include/mpf/interfaces/ieventbus.h:104-110 | publishSync runs every notified subscription inline, in delivery order |
| EventBus.Bus.constructor | include/mpf/interfaces/ieventbus.h:83-86 | a new bus has no subscriptions and no handlers |
| EventBus.Bus.Subscribe | include/mpf/interfaces/ieventbus.h:112-123 | always succeeds; the returned id is held by no active subscription; the subscription is appended with its pattern, owner and options |
| EventBus.Bus.Unsubscribe | include/mpf/interfaces/ieventbus.h:125-128 | returns true if and only if the id was active; afterwards the id is gone and all other subscriptions remain in order |
| EventBus.Bus.UnsubscribeAll | include/mpf/interfaces/ieventbus.h:130-133 | afterwards the subscriber owns nothing and every other subscriber keeps exactly its subscriptions |
| EventBus.Bus.NotifiedSubscriptions | include/mpf/interfaces/ieventbus.h:96-102 | returns the delivery order: descending priority, ties in registration order |
| EventBus.Bus.Publish | include/mpf/interfaces/ieventbus.h:96-102 | builds the event; the return value is the number of notified subscriptions; each is called in delivery order, inline only when not async |
| EventBus.Bus.PublishSync | include/mpf/interfaces/ieventbus.h:104-110 | the same subscriptions, order and count as publish, every call inline |
| EventBus.Bus.RegisterHandler | include/mpf/interfaces/ieventbus.h:137-143 | returns true and binds the topic if and only if it had no handler; otherwise returns false and the existing binding is unchanged; afterwards hasHandler(topic) holds |
| EventBus.Bus.UnregisterHandler | include/mpf/interfaces/ieventbus.h:145-148 | returns true if and only if the topic had a handler; afterwards it has none and other bindings are unchanged |
| EventBus.Bus.UnregisterAllHandlers | include/mpf/interfaces/ieventbus.h:150-153 | removes exactly the bindings owned by the handler id and leaves all others as they were |
| EventBus.Bus.Request | include/mpf/interfaces/ieventbus.h:155-162 | returns nullopt when no handler is bound to the exact topic, otherwise the handler's result for the event |
| EventBus.Bus.SubscriberCount | include/mpf/interfaces/ieventbus.h:171 | counts the active subscriptions whose pattern matches the topic |
| EventBus.Bus.SubscriptionsFor | include/mpf/interfaces/ieventbus.h:174 | returns the ids of the subscriber's active subscriptions, in registration order |

`hasHandler` (line 167) is the predicate `EventBus.Bus.HasHandler`. `matchesTopic` (line 175) is `Topics.MatchesTopic`. Neither has a contract of its own: their meaning is stated by the members above.

## Left out

- Statistics tracking is not modelled: `activeTopics` and `topicStats` (lines 172-173), and the per-publish updates of `eventCount` and `lastEventTime`. The header only declares these fields and gives them no behaviour, and the updates depend on the wall clock. Only the record and its `toVariantMap` are modelled.
- Asynchronous execution, thread pools, the blocking of `publishSync` and locking are not modelled; they are concurrency. `Publish` and `PublishSync` return the planned calls (`Delivery.Dispatch`), saying which run inline; they do not run them.
- Handler invocation is not modelled: subscription callbacks are not stored, because their effect is not observable through the interface. Exception isolation is modelled only as a request handler that returns `None` for a failure.
- EventBus.Bus.Request: `timeoutMs` (line 162) is not modelled, because it bounds a wait on another thread by wall-clock time. The model is `request` with no timeout.
- Events.EventFromVariantMap: a value of another kind than the field expects decodes to the field's default. Qt would convert it instead, for example a number to its decimal string in `toString`, or a numeric string to a number in `toLongLong`. A `timestamp` outside the 64-bit range also decodes to 0.
- Variants: floating-point `QVariant` values are not modelled.
- EventBus.Bus.Publish: the count is an unbounded `nat`; the overflow of the C++ `int` return value past 2^31 - 1 notified subscriptions is not modelled. The same holds for `PublishSync` and `SubscriberCount`.
- The clock is the parameter `now` of `Publish`, `PublishSync` and `Request`.
- `apiVersion()` (line 177) is a constant and is not modelled.
- `include/mpf/interfaces/inavigation.h` is not part of this model. It is a route table with no logic and is unrelated to the bus.
