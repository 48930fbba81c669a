/** The request hooks and start-up steps of the application package: the
    per-request context, the response headers, the handler for schema
    violations, and the RabbitMQ topology declared at start-up. */
module AppInit {

  import opened Common
  import opened Calendar
  import opened Config
  import opened BaseDocument
  import opened Brokers
  import opened EventDomain

  /** The request context `g` after `init_g_context`. */
  datatype RequestContext = RequestContext(utcNow: Instant, currentUser: Option<string>)

  /** `init_g_context`: one timestamp for the whole request, and no user
      until the token loader sets one. */
  function InitRequestContext(now: Instant): (g: RequestContext)
    ensures g.utcNow == now && g.currentUser.None?
  {
    RequestContext(now, None)
  }

  const USER_ID_HEADER: string := "Application-User-Id"
  const REQUEST_ID_HEADER: string := "Application-Request-Id"
  const UNAUTHENTICATED: string := "unauthenticated"

  /** `append_application_headers`. `user` is the id of `g.current_user`, if
      any; `requestId` is the request id the request-id extension assigned. */
  function AppendApplicationHeaders(headers: map<string, string>, user: Option<string>, requestId: string)
    : (h: map<string, string>)
    ensures h.Keys == headers.Keys + {USER_ID_HEADER, REQUEST_ID_HEADER}
    ensures user.Some? ==> h[USER_ID_HEADER] == user.value
    ensures user.None? ==> h[USER_ID_HEADER] == UNAUTHENTICATED
    ensures h[REQUEST_ID_HEADER] == requestId
    ensures forall k :: k in headers && k != USER_ID_HEADER && k != REQUEST_ID_HEADER ==> h[k] == headers[k]
  {
    headers[USER_ID_HEADER := if user.Some? then user.value else UNAUTHENTICATED][REQUEST_ID_HEADER := requestId]
  }

  /** The two header values tell an anonymous request from any user whose id
      is not the literal text "unauthenticated". */
  lemma HeaderIdentifiesUser(headers: map<string, string>, user: Option<string>, requestId: string)
    requires user.Some? ==> user.value != UNAUTHENTICATED
    ensures AppendApplicationHeaders(headers, user, requestId)[USER_ID_HEADER] == UNAUTHENTICATED <==> user.None?
  {
  }

  /** The `description` of a Bad Request error: a JSON-schema violation, or
      anything else. */
  datatype Description = SchemaViolation(message: string) | OtherDescription(text: string)

  datatype BadRequest = BadRequest(description: Description)

  /** The value a handler returns: a response of its own, or the error
      itself, which the framework then turns into its default answer. */
  datatype Handled = Answered(response: Response) | PassedOn(error: BadRequest)

  /** A document of the `errors` collection. `user` is the token identity,
      `None` when the request carried none. */
  datatype ErrorEntry = ErrorEntry(
    id: string, user: Option<string>, userAgent: string, time: Instant, endpoint: string, error: string)

  /** The `errors` collection, written with `insert_one`. */
  class ErrorLog {
    var entries: seq<ErrorEntry>

    constructor ()
      ensures entries == []
    {
      entries := [];
    }

    method Insert(e: ErrorEntry)
      modifies this
      ensures entries == old(entries) + [e]
    {
      entries := entries + [e];
    }
  }

  /** The endpoints whose schema errors are kept for debugging. */
  const LOGGED_ENDPOINTS: seq<string> := ["event.rabbitmq_event_post", "event.redis_event_post"]

  function BadObject(message: string): (r: Response)
    ensures r.status == 400 && r.body.JObj? && r.body.fields.Keys == {"msg", "schema_error"}
    ensures r.body.fields["msg"] == JStr("Bad Object") && r.body.fields["schema_error"] == JStr(message)
  {
    Response(400, JObj(map["msg" := JStr("Bad Object"), "schema_error" := JStr(message)]))
  }

  /** `handle_bad_request` for a request to `endpoint` from `user` with
      `userAgent`, at `now`. A schema violation is answered by 400 with its
      message, and logged under a fresh id when it comes from one of the
      event endpoints; any other error is handed back unchanged. */
  method HandleBadRequest(log: ErrorLog, ids: IdSource, error: BadRequest, endpoint: string,
                          user: Option<string>, userAgent: string, now: Instant)
    returns (h: Handled)
    requires ids.Valid()
    modifies log, ids
    ensures ids.Valid()
    ensures error.description.OtherDescription? ==>
      h == PassedOn(error) && log.entries == old(log.entries) && ids.issued == old(ids.issued)
    ensures error.description.SchemaViolation? ==> h == Answered(BadObject(error.description.message))
    ensures error.description.SchemaViolation? && endpoint !in LOGGED_ENDPOINTS ==>
      log.entries == old(log.entries) && ids.issued == old(ids.issued)
    ensures error.description.SchemaViolation? && endpoint in LOGGED_ENDPOINTS ==>
      exists id :: id !in old(ids.issued) && ids.issued == old(ids.issued) + {id}
        && log.entries == old(log.entries) + [ErrorEntry(id, user, userAgent, now, endpoint, error.description.message)]
  {
    if !error.description.SchemaViolation? {
      return PassedOn(error);
    }
    var message := error.description.message;
    if endpoint in LOGGED_ENDPOINTS {
      var id := ids.Generate();
      log.Insert(ErrorEntry(id, user, userAgent, now, endpoint, message));
    }
    h := Answered(BadObject(message));
  }

  const EXCHANGE_TYPE: string := "topic"

  /** `f'events.{event_type}'`. */
  function QueueName(eventType: string): string {
    EXCHANGE + "." + eventType
  }

  /** The declarations for each event type, in list order: a durable queue
      named after the type, then its binding under the type as routing key. */
  function Bindings(types: seq<string>): (ops: seq<BrokerOp>)
    ensures |ops| == 2 * |types|
    decreases |types|
  {
    if types == [] then []
    else
      var last := types[|types| - 1];
      Bindings(types[..|types| - 1]) + [QueueDeclare(QueueName(last), true), QueueBind(EXCHANGE, QueueName(last), last)]
  }

  /** The two declarations of the `i`-th event type sit at `2 * i` and
      `2 * i + 1`. */
  lemma {:induction false} BindingsAt(types: seq<string>, i: nat)
    requires i < |types|
    ensures Bindings(types)[2 * i] == QueueDeclare(QueueName(types[i]), true)
    ensures Bindings(types)[2 * i + 1] == QueueBind(EXCHANGE, QueueName(types[i]), types[i])
    decreases |types|
  {
    var init := types[..|types| - 1];
    if i < |types| - 1 {
      BindingsAt(init, i);
      assert init[i] == types[i];
    }
  }

  /** The declarations of the first `i + 1` event types extend those of the
      first `i` by the `i`-th type's queue and binding. */
  lemma TopologyStep(types: seq<string>, i: nat)
    requires i < |types|
    ensures var plan := Topology(types);
      && plan[..2 + 2 * i] == plan[..1 + 2 * i] + [QueueDeclare(QueueName(types[i]), true)]
      && plan[..3 + 2 * i] == plan[..1 + 2 * i] + [QueueDeclare(QueueName(types[i]), true), QueueBind(EXCHANGE, QueueName(types[i]), types[i])]
  {
    var plan := Topology(types);
    BindingsAt(types, i);
    assert plan[1 + 2 * i] == Bindings(types)[2 * i];
    assert plan[2 + 2 * i] == Bindings(types)[2 * i + 1];
    assert plan[..2 + 2 * i] == plan[..1 + 2 * i] + [plan[1 + 2 * i]];
    assert plan[..3 + 2 * i] == plan[..1 + 2 * i] + [plan[1 + 2 * i], plan[2 + 2 * i]];
  }

  /** Everything `setup_rabbitmq` declares: the durable topic exchange first,
      then the queues and bindings. */
  function Topology(types: seq<string>): (ops: seq<BrokerOp>)
    ensures |ops| == 1 + 2 * |types|
    ensures ops[0] == ExchangeDeclare(EXCHANGE, EXCHANGE_TYPE, true)
    ensures ops[1..] == Bindings(types)
  {
    [ExchangeDeclare(EXCHANGE, EXCHANGE_TYPE, true)] + Bindings(types)
  }

  /** Every event type the publisher accepts has a durable queue bound to the
      exchange under that type, so each published event reaches a queue. */
  lemma EveryEventTypeIsRouted(eventType: string)
    requires eventType in EVENT_TYPES
    ensures QueueDeclare(QueueName(eventType), true) in Topology(EVENT_TYPES)
    ensures QueueBind(EXCHANGE, QueueName(eventType), eventType) in Topology(EVENT_TYPES)
  {
    var i :| 0 <= i < |EVENT_TYPES| && EVENT_TYPES[i] == eventType;
    var ops := Topology(EVENT_TYPES);
    BindingsAt(EVENT_TYPES, i);
    assert ops[1 + 2 * i] == QueueDeclare(QueueName(eventType), true);
    assert ops[2 + 2 * i] == QueueBind(EXCHANGE, QueueName(eventType), eventType);
  }

  /** Call `k` of a run is the first one the broker refuses. */
  predicate FailsFirstAt(answer: nat -> Option<string>, k: nat) {
    answer(k).Some? && forall j: nat :: j < k ==> answer(j).None?
  }

  /** One iteration of `setup_rabbitmq`'s loop: the queue of the event type
      is declared, then bound; `first` and `second` are the broker's answers
      to the two calls, and a refusal stops the iteration. */
  method DeclareAndBind(client: PikaClient, eventType: string, first: Option<string>, second: Option<string>)
    returns (err: Option<Exception>)
    modifies client
    ensures client.borrowed == old(client.borrowed) && client.returned == old(client.returned)
    ensures first.Some? ==> err == Some(TransportError(first.value)) && client.ops == old(client.ops)
    ensures first.None? && second.Some? ==>
      err == Some(TransportError(second.value)) && client.ops == old(client.ops) + [QueueDeclare(QueueName(eventType), true)]
    ensures first.None? && second.None? ==>
      err.None? && client.ops == old(client.ops) + [QueueDeclare(QueueName(eventType), true), QueueBind(EXCHANGE, QueueName(eventType), eventType)]
  {
    var name := QueueName(eventType);
    err := client.Perform(QueueDeclare(name, true), first);
    if err.Some? {
      return;
    }
    err := client.Perform(QueueBind(EXCHANGE, name, eventType), second);
  }

  /** `setup_rabbitmq`. `channelFailure` is the pool's answer to
      `pika_client.channel()`, which is called before the `try`: when it
      raises, the error leaves at once and nothing is borrowed, declared or
      given back. `answer(k)` is the broker's answer to the `k`-th
      declaration of the run (`Some(message)` when it raises). Otherwise one
      channel is borrowed and given back whatever happens, and the
      declarations are carried out in order up to the first refusal, whose
      error is raised again. */
  method SetupRabbitmq(client: PikaClient, channelFailure: Option<string>, answer: nat -> Option<string>)
    returns (err: Option<Exception>)
    modifies client
    ensures channelFailure.Some? ==>
      && err == Some(TransportError(channelFailure.value))
      && client.borrowed == old(client.borrowed) && client.returned == old(client.returned)
      && client.ops == old(client.ops)
    ensures channelFailure.None? ==>
      client.borrowed == old(client.borrowed) + 1 && client.returned == old(client.returned) + 1
    ensures channelFailure.None? && err.None? ==>
      && client.ops == old(client.ops) + Topology(EVENT_TYPES)
      && forall k: nat :: k < |Topology(EVENT_TYPES)| ==> answer(k).None?
    ensures channelFailure.None? && err.Some? ==>
      exists k: nat :: k < |Topology(EVENT_TYPES)| && FailsFirstAt(answer, k)
        && err == Some(TransportError(answer(k).value))
        && client.ops == old(client.ops) + Topology(EVENT_TYPES)[..k]
  {
    err := client.Channel(channelFailure);
    if err.Some? {
      return;
    }
    err := Declare(client, EVENT_TYPES, answer);
    client.ReturnChannel();
  }

  /** The declarations on the borrowed channel, for the event types `types`. */
  method Declare(client: PikaClient, types: seq<string>, answer: nat -> Option<string>) returns (err: Option<Exception>)
    modifies client
    ensures client.borrowed == old(client.borrowed) && client.returned == old(client.returned)
    ensures err.None? ==>
      && client.ops == old(client.ops) + Topology(types)
      && forall k: nat :: k < |Topology(types)| ==> answer(k).None?
    ensures err.Some? ==>
      exists k: nat :: k < |Topology(types)| && FailsFirstAt(answer, k)
        && err == Some(TransportError(answer(k).value))
        && client.ops == old(client.ops) + Topology(types)[..k]
  {
    ghost var plan := Topology(types);
    ghost var start := client.ops;
    err := client.Perform(ExchangeDeclare(EXCHANGE, EXCHANGE_TYPE, true), answer(0));
    if err.Some? {
      assert FailsFirstAt(answer, 0) && client.ops == start + plan[..0];
    } else {
      assert client.ops == start + plan[..1];
      var i := 0;
      while i < |types|
        invariant 0 <= i <= |types|
        invariant client.borrowed == old(client.borrowed) && client.returned == old(client.returned)
        invariant client.ops == start + plan[..1 + 2 * i]
        invariant forall k: nat :: k < 1 + 2 * i ==> answer(k).None?
        invariant err.None?
      {
        TopologyStep(types, i);
        err := DeclareAndBind(client, types[i], answer(1 + 2 * i), answer(2 + 2 * i));
        if err.Some? {
          if answer(1 + 2 * i).Some? {
            assert FailsFirstAt(answer, 1 + 2 * i) && client.ops == start + plan[..1 + 2 * i];
          } else {
            assert FailsFirstAt(answer, 2 + 2 * i) && client.ops == start + plan[..2 + 2 * i];
          }
          break;
        }
        i := i + 1;
      }
      if err.None? {
        assert plan[..1 + 2 * |types|] == plan;
      }
    }
  }
}
