/**
 * The value types of the event bus interface: an event and its conversion to
 * and from a variant map, the per-subscription delivery options with their
 * defaults, and the per-topic statistics record with its conversion to a
 * variant map.
 */
module Events {
  import opened Variants

  /** One published event. A default-constructed event has timestamp 0. */
  datatype Event = Event(topic: string, senderId: string, data: VariantMap, timestamp: int64 := 0)

  /** The four keys an event is stored under in a variant map. */
  function EventKeys(): set<string>
  {
    {"topic", "senderId", "data", "timestamp"}
  }

  /**
   * `Event::toVariantMap`: every field under its own name. Nothing is lost:
   * reading the map back gives the same event.
   */
  function EventToVariantMap(e: Event): (m: VariantMap)
    ensures m.Keys == EventKeys()
    ensures EventFromVariantMap(m) == e
  {
    map["topic" := VString(e.topic),
        "senderId" := VString(e.senderId),
        "data" := VMap(e.data),
        "timestamp" := VInt(e.timestamp as int)]
  }

  /**
   * `Event::fromVariantMap`: each field is read from its key; a missing key
   * (or a value of another kind) leaves the field at its default.
   */
  function EventFromVariantMap(m: VariantMap): (e: Event)
    ensures "topic" in m && m["topic"].VString? ==> e.topic == m["topic"].s
    ensures "topic" !in m ==> e.topic == ""
    ensures "senderId" in m && m["senderId"].VString? ==> e.senderId == m["senderId"].s
    ensures "senderId" !in m ==> e.senderId == ""
    ensures "data" in m && m["data"].VMap? ==> e.data == m["data"].entries
    ensures "data" !in m ==> e.data == map[]
    ensures "timestamp" in m && m["timestamp"].VInt? && -0x8000_0000_0000_0000 <= m["timestamp"].i < 0x8000_0000_0000_0000
            ==> e.timestamp as int == m["timestamp"].i
    ensures "timestamp" !in m ==> e.timestamp == 0
  {
    Event(AsString(Value(m, "topic")),
          AsString(Value(m, "senderId")),
          AsMap(Value(m, "data")),
          AsInt64(Value(m, "timestamp")))
  }

  /** The maps that `EventToVariantMap` can produce. */
  predicate IsEventMap(m: VariantMap)
  {
    && m.Keys == EventKeys()
    && m["topic"].VString?
    && m["senderId"].VString?
    && m["data"].VMap?
    && m["timestamp"].VInt?
    && -0x8000_0000_0000_0000 <= m["timestamp"].i < 0x8000_0000_0000_0000
  }

  /** Decoding then encoding gives back the map exactly when it is the encoding of some event. */
  lemma EventMapRoundTrip(m: VariantMap)
    ensures EventToVariantMap(EventFromVariantMap(m)) == m <==> IsEventMap(m)
  {
  }

  /** An empty map decodes to the default event. */
  lemma DecodeEmptyMap()
    ensures EventFromVariantMap(map[]) == Event("", "", map[])
  {
  }

  /** `SubscriptionOptions`. */
  datatype SubscriptionOptions = SubscriptionOptions(async: bool := true, priority: int32 := 0, receiveOwnEvents: bool := false)

  /** A default-constructed `SubscriptionOptions`. */
  function DefaultOptions(): (o: SubscriptionOptions)
    ensures o.async && o.priority == 0 && !o.receiveOwnEvents
  {
    SubscriptionOptions()
  }

  /** `TopicStats`; every counter starts at zero. */
  datatype TopicStats = TopicStats(topic: string, subscriberCount: int32 := 0, eventCount: int64 := 0, lastEventTime: int64 := 0)

  /** The four keys statistics are stored under in a variant map. */
  function TopicStatsKeys(): set<string>
  {
    {"topic", "subscriberCount", "eventCount", "lastEventTime"}
  }

  /** `TopicStats::toVariantMap`: every field under its own name. */
  function TopicStatsToVariantMap(s: TopicStats): (m: VariantMap)
    ensures m.Keys == TopicStatsKeys()
  {
    map["topic" := VString(s.topic),
        "subscriberCount" := VInt(s.subscriberCount as int),
        "eventCount" := VInt(s.eventCount as int),
        "lastEventTime" := VInt(s.lastEventTime as int)]
  }

  /** The statistics encoding loses nothing: distinct records give distinct maps. */
  lemma TopicStatsEncodingInjective(a: TopicStats, b: TopicStats)
    requires TopicStatsToVariantMap(a) == TopicStatsToVariantMap(b)
    ensures a == b
  {
  }
}
