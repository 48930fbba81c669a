/** In-memory stand-ins for the two message transports the application talks
    to: the Redis client (pub/sub) and the flask-pika client (a pool of
    RabbitMQ channels). Messages are kept as JSON values, not as the bytes
    orjson would produce. */
module Brokers {

  import opened Common

  /** The Redis client: every message published, with its channel, in order. */
  class RedisBus {
    var published: seq<(string, Json)>

    constructor ()
      ensures published == []
    {
      published := [];
    }

    /** `redis_client.publish(channel, message)`. The server's answer is the
        parameter `failure`: `Some(message)` when the call raises (a lost
        connection, say), and then nothing is published. */
    method Publish(channel: string, message: Json, failure: Option<string>) returns (err: Option<Exception>)
      modifies this
      ensures failure.None? ==> err.None? && published == old(published) + [(channel, message)]
      ensures failure.Some? ==> err == Some(TransportError(failure.value)) && published == old(published)
    {
      if failure.Some? {
        return Some(TransportError(failure.value));
      }
      published := published + [(channel, message)];
      err := None;
    }
  }

  /** What a channel is asked to do; properties of a published message are
      its delivery mode and content type. */
  datatype BrokerOp =
    | BasicPublish(exchange: string, routingKey: string, body: Json, deliveryMode: int, contentType: string)
    | ExchangeDeclare(exchange: string, exchangeType: string, durable: bool)
    | QueueDeclare(queue: string, durable: bool)
    | QueueBind(exchange: string, queue: string, routingKey: string)

  /** The flask-pika client: how many channels were borrowed from the pool and
      how many given back, and every operation the broker carried out. */
  class PikaClient {
    var borrowed: nat
    var returned: nat
    var ops: seq<BrokerOp>

    constructor ()
      ensures borrowed == 0 && returned == 0 && ops == []
    {
      borrowed, returned, ops := 0, 0, [];
    }

    /** Channels borrowed and not yet given back. */
    function Outstanding(): int
      reads this
    {
      borrowed - returned
    }

    /** `pika_client.channel()`. `failure` is the pool's answer: `Some(message)`
        when no channel can be had (the broker is unreachable), and then none
        is borrowed. */
    method Channel(failure: Option<string>) returns (err: Option<Exception>)
      modifies this
      ensures returned == old(returned) && ops == old(ops)
      ensures failure.None? ==> err.None? && borrowed == old(borrowed) + 1
      ensures failure.Some? ==> err == Some(TransportError(failure.value)) && borrowed == old(borrowed)
    {
      if failure.Some? {
        return Some(TransportError(failure.value));
      }
      borrowed := borrowed + 1;
      err := None;
    }

    /** `pika_client.return_channel(channel)`. */
    method ReturnChannel()
      modifies this
      ensures returned == old(returned) + 1 && borrowed == old(borrowed) && ops == old(ops)
    {
      returned := returned + 1;
    }

    /** One call on a borrowed channel. The broker's answer is the parameter
        `failure`: `Some(message)` when the call raises, and then nothing is
        carried out. */
    method Perform(op: BrokerOp, failure: Option<string>) returns (err: Option<Exception>)
      modifies this
      ensures borrowed == old(borrowed) && returned == old(returned)
      ensures failure.None? ==> err.None? && ops == old(ops) + [op]
      ensures failure.Some? ==> err == Some(TransportError(failure.value)) && ops == old(ops)
    {
      if failure.Some? {
        return Some(TransportError(failure.value));
      }
      ops := ops + [op];
      err := None;
    }
  }
}
