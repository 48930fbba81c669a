/** The two receive loops of the websocket service. `websocket_listener`
    waits for the client to go away; `pubsub_listener` relays messages from a
    Redis pub/sub channel to the client through a callback. The loops run
    forever in the service; here the channel and the client each hold the
    finite sequence of what they will deliver, and a loop also ends when that
    is used up. */
module WebsocketUtils {

  import opened Common

  /** What the application does to a client connection. */
  datatype WsAction = Accept | SendJson(body: Json) | Close(code: int)

  /** The outcome of one `receive_bytes()` from the client: data, one of the
      three disconnect exceptions, or any other exception. */
  datatype Receive = Data | Gone | Fault(message: string)

  /** A client connection: what it will deliver, and everything done to it. */
  class WebSocket {
    var incoming: seq<Receive>
    var actions: seq<WsAction>

    constructor (incoming: seq<Receive>)
      ensures this.incoming == incoming && actions == []
    {
      this.incoming := incoming;
      actions := [];
    }

    method ReceiveBytes() returns (r: Receive)
      requires incoming != []
      modifies this
      ensures r == old(incoming)[0] && incoming == old(incoming)[1..] && actions == old(actions)
    {
      r := incoming[0];
      incoming := incoming[1..];
    }

    method Perform(a: WsAction)
      modifies this
      ensures actions == old(actions) + [a] && incoming == old(incoming)
    {
      actions := actions + [a];
    }
  }

  /** How `websocket_listener` ended. */
  datatype ListenerEnd = ClientGone | Raised(message: string) | Waiting

  /** The number of receives before the first one that is not data. */
  function DataRun(incoming: seq<Receive>): (n: nat)
    ensures n <= |incoming|
    ensures forall k :: 0 <= k < n ==> incoming[k] == Data
    ensures n < |incoming| ==> incoming[n] != Data
    decreases |incoming|
  {
    if incoming == [] || incoming[0] != Data then 0 else 1 + DataRun(incoming[1..])
  }

  /** `websocket_listener`: received data is ignored; a disconnect ends the
      loop; any other exception escapes it. Nothing is sent. */
  method WebsocketListener(ws: WebSocket) returns (end: ListenerEnd)
    modifies ws
    ensures ws.actions == old(ws.actions)
    ensures var n := DataRun(old(ws.incoming));
      if n == |old(ws.incoming)| then end == Waiting && ws.incoming == []
      else
        && ws.incoming == old(ws.incoming)[n + 1..]
        && (old(ws.incoming)[n] == Gone ==> end == ClientGone)
        && (old(ws.incoming)[n].Fault? ==> end == Raised(old(ws.incoming)[n].message))
  {
    ghost var all := ws.incoming;
    ghost var i := 0;
    while ws.incoming != []
      invariant 0 <= i <= DataRun(all)
      invariant ws.incoming == all[i..] && ws.actions == old(ws.actions)
      decreases |ws.incoming|
    {
      var r := ws.ReceiveBytes();
      if r == Gone {
        return ClientGone;
      } else if r.Fault? {
        return Raised(r.message);
      }
      DataRunStep(all, i);
      i := i + 1;
    }
    DataRunEnd(all, i);
    end := Waiting;
  }

  lemma DataRunStep(all: seq<Receive>, i: nat)
    requires i < |all| && all[i] == Data && i <= DataRun(all)
    ensures i + 1 <= DataRun(all)
  {
  }

  lemma DataRunEnd(all: seq<Receive>, i: nat)
    requires i == |all| && i <= DataRun(all)
    ensures DataRun(all) == |all|
  {
  }

  /** The result of one `channel.get_message(...)` call, with what the
      iteration then runs into: nothing within the timeout (`None`), a
      message whose type is anything but 'message' (its type and content
      play no part), a message of type 'message' with its payload, any
      other exception, or a client disconnect. */
  datatype Inbound = Timeout | Control | Payload(data: Json) | Broken(message: string) | Disconnect

  /** What the callback does with a payload: return a value, or raise. */
  datatype Reply = Returned(value: Json) | CallbackRaised(message: string)

  /** A Redis pub/sub subscription: the results of its coming `get_message`
      calls, and the timeout each call was made with. */
  class PubSubChannel {
    var pending: seq<Inbound>
    var timeouts: seq<int>

    constructor (pending: seq<Inbound>)
      ensures this.pending == pending && timeouts == []
    {
      this.pending := pending;
      timeouts := [];
    }

    method GetMessage(timeout: int) returns (m: Inbound)
      requires pending != []
      modifies this
      ensures m == old(pending)[0] && pending == old(pending)[1..]
      ensures timeouts == old(timeouts) + [timeout]
    {
      m := pending[0];
      pending := pending[1..];
      timeouts := timeouts + [timeout];
    }
  }

  /** `get_message`'s default timeout in `pubsub_listener`, in seconds. */
  const DEFAULT_TIMEOUT: int := 60

  /** What one iteration sends for a received item. */
  function Step(m: Inbound, callback: Json -> Reply): (sent: seq<WsAction>)
    ensures |sent| <= 1
    ensures sent != [] <==> m.Payload? && callback(m.data).Returned? && Truthy(callback(m.data).value)
    ensures sent != [] ==> sent[0] == SendJson(callback(m.data).value)
  {
    if m.Payload? && callback(m.data).Returned? && Truthy(callback(m.data).value)
    then [SendJson(callback(m.data).value)]
    else []
  }

  /** Everything `pubsub_listener` sends for the items, up to the first
      disconnect. */
  function Relay(items: seq<Inbound>, callback: Json -> Reply): seq<WsAction>
    decreases |items|
  {
    if items == [] || items[0] == Disconnect then []
    else Step(items[0], callback) + Relay(items[1..], callback)
  }

  /** How many items `pubsub_listener` takes: all of them up to and including
      the first disconnect. */
  function Consumed(items: seq<Inbound>): (n: nat)
    ensures n <= |items|
    decreases |items|
  {
    if items == [] then 0
    else if items[0] == Disconnect then 1
    else 1 + Consumed(items[1..])
  }

  /** The count ends on the first disconnect, or takes everything when
      there is none. */
  lemma {:induction false} ConsumedUpToDisconnect(items: seq<Inbound>)
    ensures var n := Consumed(items);
      && (Disconnect in items <==> n > 0 && items[n - 1] == Disconnect)
      && (forall k :: 0 <= k < n - 1 ==> items[k] != Disconnect)
      && (Disconnect !in items ==> n == |items|)
    decreases |items|
  {
    if items != [] && items[0] != Disconnect {
      ConsumedUpToDisconnect(items[1..]);
      assert items == [items[0]] + items[1..];
    }
  }

  /** `n` copies of `x`. */
  function Repeat<T>(x: T, n: nat): (s: seq<T>)
    ensures |s| == n && forall k :: 0 <= k < n ==> s[k] == x
  {
    seq(n, _ => x)
  }

  lemma RepeatOnce<T>(s: seq<T>, x: T, n: nat)
    ensures s + Repeat(x, n) + [x] == s + Repeat(x, n + 1)
  {
    assert Repeat(x, n) + [x] == Repeat(x, n + 1);
  }

  /** `pubsub_listener(channel, callback, channel_id, websocket, timeout)`. The
      channel id only appears in log lines and is left out. Each receive
      waits up to `timeout`; a payload is handed to the callback and a truthy
      reply sent; everything else that is not a disconnect is skipped. */
  method PubsubListener(channel: PubSubChannel, callback: Json -> Reply, ws: WebSocket, timeout: int)
    returns (disconnected: bool)
    modifies channel, ws
    ensures disconnected <==> Disconnect in old(channel.pending)
    ensures ws.actions == old(ws.actions) + Relay(old(channel.pending), callback)
    ensures ws.incoming == old(ws.incoming)
    ensures channel.pending == old(channel.pending)[Consumed(old(channel.pending))..]
    ensures channel.timeouts == old(channel.timeouts) + Repeat(timeout, Consumed(old(channel.pending)))
  {
    ghost var items := channel.pending;
    ghost var sent: seq<WsAction> := [];
    var i := 0;
    disconnected := false;
    while channel.pending != []
      invariant 0 <= i <= |items| && channel.pending == items[i..]
      invariant forall k :: 0 <= k < i ==> items[k] != Disconnect
      invariant ws.actions == old(ws.actions) + sent
      invariant Relay(items, callback) == sent + Relay(items[i..], callback)
      invariant Consumed(items) == i + Consumed(items[i..])
      invariant ws.incoming == old(ws.incoming)
      invariant channel.timeouts == old(channel.timeouts) + Repeat(timeout, i)
      decreases |items| - i
    {
      var m := channel.GetMessage(timeout);
      RepeatOnce(old(channel.timeouts), timeout, i);
      if m == Disconnect {
        RelayStopsAt(items, i, callback);
        assert Consumed(items) == i + 1;
        disconnected := true;
        i := i + 1;
        break;
      }
      RelayGoesOn(items, i, sent, callback);
      Forward(m, callback, ws);
      sent := sent + Step(m, callback);
      i := i + 1;
    }
    if !disconnected {
      assert items[i..] == [];
      assert Consumed(items) == i;
      assert Disconnect !in items by {
        assert forall k :: 0 <= k < |items| ==> items[k] != Disconnect;
      }
    }
  }

  /** One iteration past the receive: a payload goes to the callback and a
      truthy reply is sent; anything else is skipped. */
  method Forward(m: Inbound, callback: Json -> Reply, ws: WebSocket)
    modifies ws
    ensures ws.actions == old(ws.actions) + Step(m, callback) && ws.incoming == old(ws.incoming)
  {
    if m.Payload? {
      var reply := callback(m.data);
      if reply.Returned? && Truthy(reply.value) {
        ws.Perform(SendJson(reply.value));
      }
    }
  }

  /** The relay and the count at a disconnect. */
  lemma RelayStopsAt(items: seq<Inbound>, i: nat, callback: Json -> Reply)
    requires i < |items| && items[i] == Disconnect
    ensures Relay(items[i..], callback) == [] && Consumed(items[i..]) == 1
    ensures Disconnect in items
  {
  }

  /** The relay and the count past an item that is not a disconnect. */
  lemma RelayGoesOn(items: seq<Inbound>, i: nat, sent: seq<WsAction>, callback: Json -> Reply)
    requires i < |items| && items[i] != Disconnect
    requires Relay(items, callback) == sent + Relay(items[i..], callback)
    ensures Relay(items, callback) == (sent + Step(items[i], callback)) + Relay(items[i + 1..], callback)
    ensures Consumed(items[i..]) == 1 + Consumed(items[i + 1..])
  {
    var rest := items[i..];
    assert rest[0] == items[i] && rest[1..] == items[i + 1..];
    assert Relay(rest, callback) == Step(items[i], callback) + Relay(items[i + 1..], callback);
    assert Consumed(rest) == 1 + Consumed(items[i + 1..]);
  }

  /** A payload whose callback raises, or any other failure, does not end
      the relay: the items after it are still relayed. */
  lemma {:induction false} FailureDoesNotStop(before: seq<Inbound>, message: string, after: seq<Inbound>, callback: Json -> Reply)
    requires Disconnect !in before
    ensures Relay(before + [Broken(message)] + after, callback) == Relay(before, callback) + Relay(after, callback)
    decreases |before|
  {
    if before == [] {
      assert [Broken(message)] + after == [Broken(message)] + after;
      assert ([Broken(message)] + after)[1..] == after;
    } else {
      FailureDoesNotStop(before[1..], message, after, callback);
      assert (before + [Broken(message)] + after)[1..] == before[1..] + [Broken(message)] + after;
    }
  }

  /** Nothing after a disconnect is relayed. */
  lemma {:induction false} DisconnectStops(before: seq<Inbound>, after: seq<Inbound>, callback: Json -> Reply)
    requires Disconnect !in before
    ensures Relay(before + [Disconnect] + after, callback) == Relay(before, callback)
    decreases |before|
  {
    if before != [] {
      DisconnectStops(before[1..], after, callback);
      assert (before + [Disconnect] + after)[1..] == before[1..] + [Disconnect] + after;
    }
  }

  /** The callback's replies to the payloads before the first disconnect. */
  function Replies(items: seq<Inbound>, callback: Json -> Reply): seq<Json>
    decreases |items|
  {
    if items == [] || items[0] == Disconnect then []
    else if items[0].Payload? && callback(items[0].data).Returned?
    then [callback(items[0].data).value] + Replies(items[1..], callback)
    else Replies(items[1..], callback)
  }

  /** The truthy values, in order. */
  function TruthyOnly(js: seq<Json>): (t: seq<Json>)
    ensures |t| <= |js|
    ensures forall k :: 0 <= k < |t| ==> Truthy(t[k])
    decreases |js|
  {
    if js == [] then []
    else (if Truthy(js[0]) then [js[0]] else []) + TruthyOnly(js[1..])
  }

  /** A send of each value, in order. */
  function Sends(js: seq<Json>): (a: seq<WsAction>)
    ensures |a| == |js| && forall k :: 0 <= k < |js| ==> a[k] == SendJson(js[k])
  {
    seq(|js|, k requires 0 <= k < |js| => SendJson(js[k]))
  }

  /** An independent description of the relay: the callback's replies, in
      the order the payloads came, with the falsy ones (`None` among them)
      left out, each sent as JSON. */
  lemma {:induction false} RelayIsTruthyReplies(items: seq<Inbound>, callback: Json -> Reply)
    ensures Relay(items, callback) == Sends(TruthyOnly(Replies(items, callback)))
    decreases |items|
  {
    if items != [] && items[0] != Disconnect {
      RelayIsTruthyReplies(items[1..], callback);
      var rest := Replies(items[1..], callback);
      if items[0].Payload? && callback(items[0].data).Returned? {
        var v := callback(items[0].data).value;
        assert ([v] + rest)[1..] == rest;
        assert TruthyOnly([v] + rest) == (if Truthy(v) then [v] else []) + TruthyOnly(rest);
        SendsAppend(if Truthy(v) then [v] else [], TruthyOnly(rest));
      }
    }
  }

  lemma SendsAppend(a: seq<Json>, b: seq<Json>)
    ensures Sends(a + b) == Sends(a) + Sends(b)
  {
  }
}
