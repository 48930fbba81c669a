/** The event endpoints: the business-hours predicate, publishing an event
    record through Redis pub/sub or a RabbitMQ exchange, and the two POST
    handlers that publish a demo event behind the business-hours gate. */
module EventDomain {

  import opened Common
  import opened Calendar
  import opened Config
  import opened Brokers
  import opened TimeRestrictions

  const OPENING: Time := Time(9, 0, 0, 0)
  const CLOSING: Time := Time(17, 0, 0, 0)

  /** `business_hours(timestamp)`: Monday to Friday (weekday 0 to 4), from
      09:00 to 17:00, both ends included. */
  predicate BusinessHours(t: Instant) {
    if Weekday(t) > 4 then false
    else if TimeBefore(TimeOf(t), OPENING) || TimeBefore(CLOSING, TimeOf(t)) then false
    else true
  }

  /** The predicate in plain arithmetic: a weekday and a time of day between
      nine and seventeen hours, inclusive. */
  lemma BusinessHoursExactly(t: Instant)
    ensures BusinessHours(t) <==>
      (Weekday(t) <= 4
       && 9 * MICROS_PER_HOUR <= t % MICROS_PER_DAY <= 17 * MICROS_PER_HOUR)
  {
    TimeBeforeIsChronological(TimeOf(t), OPENING);
    TimeBeforeIsChronological(CLOSING, TimeOf(t));
  }

  /** Saturday and Sunday are never business hours. */
  lemma WeekendIsClosed(t: Instant)
    requires Weekday(t) == 5 || Weekday(t) == 6
    ensures !BusinessHours(t)
  {
  }

  /** Within one day the weekday and the time of day split an instant. */
  lemma {:induction false} SameDay(day: nat, offset: nat)
    requires offset < MICROS_PER_DAY
    ensures Weekday(Days(day) + offset) == Weekday(Days(day))
    ensures (Days(day) + offset) % MICROS_PER_DAY == offset
  {
    var t := Days(day) + offset;
    assert t == day * MICROS_PER_DAY + offset;
    assert t / MICROS_PER_DAY == day && t % MICROS_PER_DAY == offset by {
      DivideByDay(day, offset);
    }
    assert Days(day) / MICROS_PER_DAY == day by {
      DivideByDay(day, 0);
    }
  }

  /** Division by the length of a day undoes `Days(day) + offset`. */
  lemma {:induction false} DivideByDay(day: nat, offset: nat)
    requires offset < MICROS_PER_DAY
    ensures (day * MICROS_PER_DAY + offset) / MICROS_PER_DAY == day
    ensures (day * MICROS_PER_DAY + offset) % MICROS_PER_DAY == offset
  {
  }

  /** On a weekday both boundary instants are allowed, and one microsecond
      beyond either is not. */
  lemma BusinessHoursBoundaries(day: nat)
    requires Weekday(Days(day)) <= 4
    ensures BusinessHours(Days(day) + 9 * MICROS_PER_HOUR)
    ensures BusinessHours(Days(day) + 17 * MICROS_PER_HOUR)
    ensures !BusinessHours(Days(day) + 9 * MICROS_PER_HOUR - 1)
    ensures !BusinessHours(Days(day) + 17 * MICROS_PER_HOUR + 1)
  {
    SameDay(day, 9 * MICROS_PER_HOUR);
    SameDay(day, 17 * MICROS_PER_HOUR);
    SameDay(day, 9 * MICROS_PER_HOUR - 1);
    SameDay(day, 17 * MICROS_PER_HOUR + 1);
    BusinessHoursExactly(Days(day) + 9 * MICROS_PER_HOUR);
    BusinessHoursExactly(Days(day) + 17 * MICROS_PER_HOUR);
    BusinessHoursExactly(Days(day) + 9 * MICROS_PER_HOUR - 1);
    BusinessHoursExactly(Days(day) + 17 * MICROS_PER_HOUR + 1);
  }

  /** The published record: when, what type, and the caller's data unchanged. */
  function EventRecord(eventType: string, data: Json, now: Instant): (e: Json)
    ensures e.JObj? && e.fields.Keys == {"timestamp", "type", "data"}
    ensures e.fields["type"] == JStr(eventType) && e.fields["data"] == data
    ensures e.fields["timestamp"] == JTime(now)
  {
    JObj(map["timestamp" := JTime(now), "type" := JStr(eventType), "data" := data])
  }

  function InvalidEventType(eventType: string): Exception {
    ValueError("Invalid event type: " + eventType)
  }

  const REDIS_CHANNEL: string := "events:event"
  const EXCHANGE: string := "events"
  /** `delivery_mode=2`: the broker persists the message. */
  const PERSISTENT: int := 2
  const CONTENT_TYPE: string := "application/json"

  /** `publish_redis_event`. `now` is the clock reading for the timestamp and
      `failure` the Redis server's answer to the publish. An unknown type
      raises before anything is published; a known one is published once on
      the events channel, or the client's error is raised. */
  method PublishRedisEvent(bus: RedisBus, eventType: string, data: Json, now: Instant, failure: Option<string>)
    returns (err: Option<Exception>)
    modifies bus
    ensures eventType !in EVENT_TYPES ==>
      err == Some(InvalidEventType(eventType)) && bus.published == old(bus.published)
    ensures eventType in EVENT_TYPES && failure.Some? ==>
      err == Some(TransportError(failure.value)) && bus.published == old(bus.published)
    ensures eventType in EVENT_TYPES && failure.None? ==>
      err.None? && bus.published == old(bus.published) + [(REDIS_CHANNEL, EventRecord(eventType, data, now))]
  {
    if eventType !in EVENT_TYPES {
      return Some(InvalidEventType(eventType));
    }
    var record := EventRecord(eventType, data, now);
    err := bus.Publish(REDIS_CHANNEL, record, failure);
  }

  /** The message `publish_rabbitmq_event` hands to the channel. */
  function RabbitmqMessage(eventType: string, data: Json, now: Instant): (op: BrokerOp)
    ensures op.BasicPublish? && op.exchange == EXCHANGE && op.routingKey == eventType
    ensures op.deliveryMode == PERSISTENT && op.contentType == CONTENT_TYPE
    ensures op.body == EventRecord(eventType, data, now)
  {
    BasicPublish(EXCHANGE, eventType, EventRecord(eventType, data, now), PERSISTENT, CONTENT_TYPE)
  }

  /** `publish_rabbitmq_event`. `channelFailure` is the pool's answer to
      `pika_client.channel()` and `failure` the broker's answer to the
      publish. An unknown type raises before a channel is asked for; a
      channel that cannot be had raises before the `try`, so nothing is
      given back; otherwise exactly one channel is borrowed and given back
      whatever the publish does, and a publish error is raised again. */
  method PublishRabbitmqEvent(client: PikaClient, eventType: string, data: Json, now: Instant,
                              channelFailure: Option<string>, failure: Option<string>)
    returns (err: Option<Exception>)
    modifies client
    ensures eventType !in EVENT_TYPES ==>
      && err == Some(InvalidEventType(eventType))
      && client.borrowed == old(client.borrowed) && client.returned == old(client.returned)
      && client.ops == old(client.ops)
    ensures eventType in EVENT_TYPES && channelFailure.Some? ==>
      && err == Some(TransportError(channelFailure.value))
      && client.borrowed == old(client.borrowed) && client.returned == old(client.returned)
      && client.ops == old(client.ops)
    ensures eventType in EVENT_TYPES && channelFailure.None? ==>
      client.borrowed == old(client.borrowed) + 1 && client.returned == old(client.returned) + 1
    ensures eventType in EVENT_TYPES && channelFailure.None? && failure.None? ==>
      err.None? && client.ops == old(client.ops) + [RabbitmqMessage(eventType, data, now)]
    ensures eventType in EVENT_TYPES && channelFailure.None? && failure.Some? ==>
      err == Some(TransportError(failure.value)) && client.ops == old(client.ops)
  {
    if eventType !in EVENT_TYPES {
      return Some(InvalidEventType(eventType));
    }
    err := client.Channel(channelFailure);
    if err.Some? {
      return;
    }
    err := client.Perform(RabbitmqMessage(eventType, data, now), failure);
    client.ReturnChannel();
  }

  const BUSINESS_HOURS_MSG: string := "Only available during business hours"
  const REDIS_EVENT_TYPE: string := "a-simple-event"
  const RABBITMQ_EVENT_TYPE: string := "a-complex-event"

  /** The demo payload both handlers publish for the caller. */
  function EventData(userId: string): (j: Json)
    ensures j.JObj? && j.fields.Keys == {"user_id", "a_field", "another_field"}
    ensures j.fields["user_id"] == JStr(userId)
  {
    JObj(map["user_id" := JStr(userId), "a_field" := JStr("a_value"), "another_field" := JStr("another_value")])
  }

  function Answer(status: int, key: string, text: string): (r: Response)
    ensures r.status == status && r.body.JObj? && r.body.fields.Keys == {key}
    ensures r.body.fields[key] == JStr(text)
  {
    Response(status, JObj(map[key := JStr(text)]))
  }

  /** `redis_event_post` for the caller `userId` at `now`; `failure` is the
      Redis server's answer to the publish. A publish error is not caught,
      so it leaves the handler (and Flask answers 500). */
  method RedisEventPost(bus: RedisBus, userId: string, now: Instant, failure: Option<string>)
    returns (r: Result<Response, Exception>)
    modifies bus
    ensures !BusinessHours(now) ==>
      r == Ok(Msg(503, BUSINESS_HOURS_MSG)) && bus.published == old(bus.published)
    ensures BusinessHours(now) && failure.Some? ==>
      r == Err(TransportError(failure.value)) && bus.published == old(bus.published)
    ensures BusinessHours(now) && failure.None? ==>
      && r == Ok(Answer(200, "message", "Redis event published"))
      && bus.published == old(bus.published) + [(REDIS_CHANNEL, EventRecord(REDIS_EVENT_TYPE, EventData(userId), now))]
  {
    var gate := Gate(BusinessHours, Some(BUSINESS_HOURS_MSG), now);
    if gate.Some? {
      return Ok(gate.value);
    }
    var err := PublishRedisEvent(bus, REDIS_EVENT_TYPE, EventData(userId), now, failure);
    if err.Some? {
      return Err(err.value);
    }
    r := Ok(Answer(200, "message", "Redis event published"));
  }

  /** `rabbitmq_event_post` for the caller `userId` at `now`; any error of
      the publish, the channel borrow included, becomes a 500 answer. */
  method RabbitmqEventPost(client: PikaClient, userId: string, now: Instant,
                           channelFailure: Option<string>, failure: Option<string>)
    returns (resp: Response)
    modifies client
    ensures !BusinessHours(now) || channelFailure.Some? ==>
      && client.borrowed == old(client.borrowed) && client.returned == old(client.returned)
      && client.ops == old(client.ops)
    ensures !BusinessHours(now) ==> resp == Msg(503, BUSINESS_HOURS_MSG)
    ensures BusinessHours(now) && channelFailure.Some? ==> resp == Answer(500, "error", "Failed to publish event")
    ensures BusinessHours(now) && channelFailure.None? ==>
      client.borrowed == old(client.borrowed) + 1 && client.returned == old(client.returned) + 1
    ensures BusinessHours(now) && channelFailure.None? && failure.None? ==>
      && resp == Answer(200, "message", "RabbitMQ event published")
      && client.ops == old(client.ops) + [RabbitmqMessage(RABBITMQ_EVENT_TYPE, EventData(userId), now)]
    ensures BusinessHours(now) && channelFailure.None? && failure.Some? ==>
      resp == Answer(500, "error", "Failed to publish event") && client.ops == old(client.ops)
  {
    var gate := Gate(BusinessHours, Some(BUSINESS_HOURS_MSG), now);
    if gate.Some? {
      return gate.value;
    }
    var err := PublishRabbitmqEvent(client, RABBITMQ_EVENT_TYPE, EventData(userId), now, channelFailure, failure);
    if err.Some? {
      return Answer(500, "error", "Failed to publish event");
    }
    resp := Answer(200, "message", "RabbitMQ event published");
  }
}
