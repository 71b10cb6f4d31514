/** What libmosquitto reports to a client, and the callbacks a client makes of it. */
module MqttEvents {

  /** The arguments of the six libmosquitto callbacks. */
  datatype NetEvent =
    | OnConnect(rc: int)
    | OnDisconnect(rc: int)
    | OnPublish(mid: int)
    | OnMessage(mid: int, topic: string, payload: string, qos: int, retain: int)
    | OnSubscribe(mid: int, grantedQos: seq<int>)
    | OnUnsubscribe(mid: int)

  /** A call of one of the six user callbacks, with its arguments. */
  datatype Call =
    | ConnectCallback(rc: int)
    | DisconnectCallback(rc: int)
    | PublishCallback(messageId: int)
    | MessageCallback(messageId: int, topic: string, payload: string, qos: int, retain: bool)
    | SubscribeCallback(messageId: int)
    | UnsubscribeCallback(messageId: int)

  /** Which of the user callbacks are set. */
  datatype Callbacks = Callbacks(
    connect: bool,
    disconnect: bool,
    publish: bool,
    message: bool,
    subscribe: bool,
    unsubscribe: bool
  )

  /** `static_cast<MqttQos>`: the enumeration is stored in one unsigned byte. */
  function ToMqttQos(qos: int): (r: int)
    ensures 0 <= r < 256 && (r - qos) % 256 == 0
    ensures 0 <= qos < 256 ==> r == qos
  {
    qos % 256
  }

  /** The call that the single-threaded client makes for one network event. */
  function DirectCall(callbacks: Callbacks, e: NetEvent): seq<Call> {
    match e
    case OnConnect(rc) => if callbacks.connect then [ConnectCallback(rc)] else []
    case OnDisconnect(rc) => if callbacks.disconnect then [DisconnectCallback(rc)] else []
    case OnPublish(mid) => if callbacks.publish then [PublishCallback(mid)] else []
    case OnMessage(mid, topic, payload, qos, retain) =>
      if callbacks.message then [MessageCallback(mid, topic, payload, ToMqttQos(qos), retain != 0)] else []
    case OnSubscribe(mid, _) => if callbacks.subscribe then [SubscribeCallback(mid)] else []
    case OnUnsubscribe(mid) => if callbacks.unsubscribe then [UnsubscribeCallback(mid)] else []
  }

  /** The callback for this kind of event is set. */
  predicate IsSet(callbacks: Callbacks, e: NetEvent) {
    match e
    case OnConnect(_) => callbacks.connect
    case OnDisconnect(_) => callbacks.disconnect
    case OnPublish(_) => callbacks.publish
    case OnMessage(_, _, _, _, _) => callbacks.message
    case OnSubscribe(_, _) => callbacks.subscribe
    case OnUnsubscribe(_) => callbacks.unsubscribe
  }

  /** The call is of the event's kind and tells what the event told: everything but the
      granted QoS, the QoS of a message as one byte, its retain flag as a boolean. */
  predicate Tells(call: Call, e: NetEvent) {
    match (call, e)
    case (ConnectCallback(rc), OnConnect(rc')) => rc == rc'
    case (DisconnectCallback(rc), OnDisconnect(rc')) => rc == rc'
    case (PublishCallback(mid), OnPublish(mid')) => mid == mid'
    case (MessageCallback(mid, topic, payload, qos, retain), OnMessage(mid', topic', payload', qos', retain')) =>
      && mid == mid' && topic == topic' && payload == payload'
      && 0 <= qos < 256 && (qos - qos') % 256 == 0
      && (retain <==> retain' != 0)
    case (SubscribeCallback(mid), OnSubscribe(mid', _)) => mid == mid'
    case (UnsubscribeCallback(mid), OnUnsubscribe(mid')) => mid == mid'
    case _ => false
  }

  /** One call that tells the event, if a callback is set for it, and otherwise none. */
  lemma DirectCallTells(callbacks: Callbacks, e: NetEvent)
    ensures var calls := DirectCall(callbacks, e);
            if IsSet(callbacks, e) then |calls| == 1 && Tells(calls[0], e) else calls == []
  {
  }

  function DirectCalls(callbacks: Callbacks, events: seq<NetEvent>): seq<Call> {
    if events == [] then []
    else DirectCalls(callbacks, events[..|events| - 1]) + DirectCall(callbacks, events[|events| - 1])
  }

  lemma {:induction false} DirectCallsConcat(callbacks: Callbacks, a: seq<NetEvent>, b: seq<NetEvent>)
    ensures DirectCalls(callbacks, a + b) == DirectCalls(callbacks, a) + DirectCalls(callbacks, b)
  {
    if b == [] {
      assert a + b == a;
    } else {
      var front, last := b[..|b| - 1], b[|b| - 1];
      assert a + b == (a + front) + [last] && b == front + [last];
      DirectCallsConcat(callbacks, a, front);
      DirectCallsGrow(callbacks, a + front, last);
      DirectCallsGrow(callbacks, front, last);
      Associative(DirectCalls(callbacks, a), DirectCalls(callbacks, front), DirectCall(callbacks, last));
    }
  }

  lemma DirectCallsGrow(callbacks: Callbacks, events: seq<NetEvent>, e: NetEvent)
    ensures DirectCalls(callbacks, events + [e]) == DirectCalls(callbacks, events) + DirectCall(callbacks, e)
  {
    assert (events + [e])[..|events|] == events;
  }

  lemma Associative(a: seq<Call>, b: seq<Call>, c: seq<Call>)
    ensures a + (b + c) == (a + b) + c
  {
  }

  /** What a callback stores in the flag. */
  function FlagAfter(flag: bool, e: NetEvent): bool {
    match e
    case OnConnect(rc) => rc == 0
    case OnDisconnect(_) => false
    case _ => flag
  }

  /** What the direct client's flag holds after these events. */
  function DirectFlag(events: seq<NetEvent>): bool {
    if events == [] then false else FlagAfter(DirectFlag(events[..|events| - 1]), events[|events| - 1])
  }

  lemma DirectFlagGrows(events: seq<NetEvent>, e: NetEvent)
    ensures DirectFlag(events + [e]) == FlagAfter(DirectFlag(events), e)
  {
    assert (events + [e])[..|events|] == events;
  }
}
