/** `MqttClientSingleThread`: libmosquitto's callbacks run inside `loop` and call the
    user's callbacks at once. The base class is a field. */
module MqttClientSingleThread {
  import opened Mqtt
  import opened Wrappers
  import opened MqttEvents
  import opened MqttHandle
  import opened MqttClient

  /** What `mosquitto_loop` returned: success; CONN_LOST or NO_CONN; anything else. */
  datatype LoopRc = LoopSuccess | LoopLost | LoopFailure

  class MqttClientSingleThread<P> {
    const base: MqttClient<P>
    const callbacks: Callbacks
    var connected: bool
    ghost var calls: seq<Call>  // of the user's callbacks

    ghost function View(): Client
      reads this, base
    {
      base.View(connected)
    }

    constructor (callbacks: Callbacks)
      ensures fresh(base) && this.callbacks == callbacks
      ensures View() == INITIAL && base.published == [] && calls == []
    {
      this.callbacks := callbacks;
      base := new MqttClient<P>();
      connected, calls := false, [];
    }

    /** `loop`, after the callbacks that `mosquitto_loop` made. A lost connection is noted
        in the flag; no callback tells of it. */
    method Loop(rc: LoopRc) returns (r: Outcome<()>)
      modifies this`connected, base`session
      ensures r.Throws? <==> base.mosq.Null? || rc.LoopFailure?
      ensures View() == if r.Returns? && rc.LoopLost? then Mqtt.OnDisconnect(old(View())) else old(View())
      ensures connected == (old(connected) && (r.Throws? || !rc.LoopLost?))
    {
      if base.mosq == Null {
        return Throws;
      }
      if rc == LoopLost {
        base.session := Closed;
        connected := false;
        return Returns(());
      }
      if rc != LoopSuccess {
        return Throws;
      }
      return Returns(());
    }

    method OnConnect(code: int, rc: nat -> Rc)
      modifies this, base`session, base`requests
      ensures View() == Mqtt.OnConnect(old(View()), code, rc)
      ensures connected == (code == 0) == FlagAfter(old(connected), NetEvent.OnConnect(code))
      ensures calls == old(calls) + DirectCall(callbacks, NetEvent.OnConnect(code))
    {
      base.session := Connack(code);
      base.Replay(rc);
      connected := code == 0;
      if callbacks.connect {
        calls := calls + [ConnectCallback(code)];
      }
    }

    method OnDisconnect(code: int)
      modifies this, base`session
      ensures View() == Mqtt.OnDisconnect(old(View()))
      ensures !connected && connected == FlagAfter(old(connected), NetEvent.OnDisconnect(code))
      ensures calls == old(calls) + DirectCall(callbacks, NetEvent.OnDisconnect(code))
    {
      base.session := Closed;
      connected := false;
      if callbacks.disconnect {
        calls := calls + [DisconnectCallback(code)];
      }
    }

    method OnPublish(mid: int)
      modifies this`calls
      ensures calls == old(calls) + DirectCall(callbacks, NetEvent.OnPublish(mid))
    {
      if callbacks.publish {
        calls := calls + [PublishCallback(mid)];
      }
    }

    method OnMessage(mid: int, topic: string, payload: string, qos: int, retain: int)
      modifies this`calls
      ensures calls == old(calls) + DirectCall(callbacks, NetEvent.OnMessage(mid, topic, payload, qos, retain))
    {
      if callbacks.message {
        calls := calls + [MessageCallback(mid, topic, payload, ToMqttQos(qos), retain != 0)];
      }
    }

    method OnSubscribe(mid: int, grantedQos: seq<int>)
      modifies this`calls
      ensures calls == old(calls) + DirectCall(callbacks, NetEvent.OnSubscribe(mid, grantedQos))
    {
      if callbacks.subscribe {
        calls := calls + [SubscribeCallback(mid)];
      }
    }

    method OnUnsubscribe(mid: int)
      modifies this`calls
      ensures calls == old(calls) + DirectCall(callbacks, NetEvent.OnUnsubscribe(mid))
    {
      if callbacks.unsubscribe {
        calls := calls + [UnsubscribeCallback(mid)];
      }
    }
  }
}
