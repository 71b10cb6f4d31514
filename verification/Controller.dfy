/** `Controller`: an object whose methods update two maps, two sets and a queue in
    place, and own an MQTT client.

    Every method is proved to do what the function of the same name in
    `ControllerModel` says. The clock and the return codes of libmosquitto are
    parameters; the histories are a ghost field. */
module Controller {
  import opened Json
  import opened Mqtt
  import opened Wrappers
  import opened ControllerModel
  import opened ControllerTelemetry
  import opened MqttClient
  import opened MqttClientSingleThread
  import opened MqttEvents

  datatype Payload = Telemetry(batch: Batch) | Attributes(values: Values)

  class Controller {
    const mqttClient: MqttClientSingleThread<Payload>
    var telemetryData: Values
    var taintedTelemetryKeys: set<Key>
    var attributeData: Values
    var taintedAttributeKeys: set<Key>
    var pendingTelemetry: seq<Batch>
    ghost var log: Log
    ghost var actions: seq<Action>  // the calls and events so far

    ghost function View(): System
      reads this, mqttClient, mqttClient.base
    {
      System(State(telemetryData, taintedTelemetryKeys, attributeData, taintedAttributeKeys, pendingTelemetry,
                   mqttClient.View()),
             log)
    }

    /** What the client has published is what the log calls accepted. */
    ghost predicate Consistent()
      reads this, mqttClient, mqttClient.base
    {
      && PublishedTelemetry(mqttClient.base.published) == WithFate(log.handled, Accepted)
      && PublishedAttributes(mqttClient.base.published) == AcceptedAttributes(log.attributeSends)
    }

    /** Moreover the object is in the state that the model's run of its history ends in,
        so that all that is proved of runs holds of it. */
    ghost predicate Valid()
      reads this, mqttClient, mqttClient.base
    {
      Consistent() && View() == Run(actions)
    }

    constructor ()
      ensures Valid() && fresh(mqttClient) && fresh(mqttClient.base)
      ensures View() == START && actions == []
    {
      mqttClient := new MqttClientSingleThread<Payload>(Callbacks(true, false, false, true, false, false));
      telemetryData, taintedTelemetryKeys := map[], {};
      attributeData, taintedAttributeKeys := map[], {};
      pendingTelemetry := [];
      log := Log([], [], [], [], [], false);
      actions := [];
    }

    /** Notes a call or an event whose effect is complete. */
    ghost method Record(a: Action, before: System)
      requires Consistent() && before == Run(actions) && View() == Step(before, a)
      modifies this`actions
      ensures Valid() && actions == old(actions) + [a]
    {
      assert (actions + [a])[..|actions|] == actions;
      actions := actions + [a];
    }

    method PublishTelemetry(key: Key, value: Json)
      requires Valid() && !log.dead
      modifies this
      ensures Valid() && actions == old(actions) + [TelemetryCall(key, value)]
      ensures View() == ControllerModel.PublishTelemetry(old(View()), key, value)
      ensures if key in old(telemetryData) && JsonEq(old(telemetryData)[key], value)
              then telemetryData == old(telemetryData) && taintedTelemetryKeys == old(taintedTelemetryKeys)
              else telemetryData == old(telemetryData)[key := value] &&
                   taintedTelemetryKeys == old(taintedTelemetryKeys) + {key}
    {
      if key !in telemetryData {
        telemetryData := telemetryData[key := value];
        taintedTelemetryKeys := taintedTelemetryKeys + {key};
      } else if !JsonEq(telemetryData[key], value) {
        telemetryData := telemetryData[key := value];
        taintedTelemetryKeys := taintedTelemetryKeys + {key};
      }
      log := log.(passed := log.passed + [Passed(key, value)]);
      Record(TelemetryCall(key, value), old(View()));
    }

    method SetAttribute(key: Key, value: Json)
      requires Valid() && !log.dead
      modifies this
      ensures Valid() && actions == old(actions) + [AttributeCall(key, value)]
      ensures View() == ControllerModel.SetAttribute(old(View()), key, value)
      ensures if key in old(attributeData) && JsonEq(old(attributeData)[key], value)
              then attributeData == old(attributeData) && taintedAttributeKeys == old(taintedAttributeKeys)
              else attributeData == old(attributeData)[key := value] &&
                   taintedAttributeKeys == old(taintedAttributeKeys) + {key}
    {
      if key !in attributeData {
        attributeData := attributeData[key := value];
        taintedAttributeKeys := taintedAttributeKeys + {key};
      } else if !JsonEq(attributeData[key], value) {
        attributeData := attributeData[key := value];
        taintedAttributeKeys := taintedAttributeKeys + {key};
      }
      log := log.(passedAttributes := log.passedAttributes + [Passed(key, value)]);
      Record(AttributeCall(key, value), old(View()));
    }

    /** `for (key : keys) out[key] = data[key]`, in any order; `data[key]` inserts a
        null for a missing key. */
    static method Collect(data: Values, keys: set<Key>) returns (data': Values, out: Values)
      ensures data' == Filled(data, keys)
      ensures out == Restrict(data', keys)
      ensures out.Keys == keys
    {
      data', out := data, map[];
      var rest := keys;
      ghost var done: set<Key> := {};
      while rest != {}
        invariant done + rest == keys
        invariant data'.Keys == data.Keys + done
        invariant forall k | k in data' :: data'[k] == if k in data then data[k] else Null
        invariant out.Keys == done
        invariant forall k | k in out :: out[k] == data'[k]
        decreases rest
      {
        var key :| key in rest;
        var value: Json;
        data', value := Index(data', key);
        out := out[key := value];
        rest := rest - {key};
        done := done + {key};
      }
      CollectedIs(data, keys, data', out);
    }

    /** `operator[]` of an unordered_map. */
    static method Index(data: Values, key: Key) returns (data': Values, value: Json)
      ensures data' == if key in data then data else data[key := Null]
      ensures value == data'[key]
    {
      data' := if key in data then data else data[key := Null];
      value := data'[key];
    }

    static lemma CollectedIs(data: Values, keys: set<Key>, data': Values, out: Values)
      requires data'.Keys == data.Keys + keys && out.Keys == keys
      requires forall k | k in data' :: data'[k] == if k in data then data[k] else Null
      requires forall k | k in out :: out[k] == data'[k]
      ensures data' == Filled(data, keys)
      ensures out == Restrict(data', keys)
    {
    }

    method SendTelemetry(batch: Batch, rc: Rc) returns (r: Outcome<()>)
      requires Consistent()
      modifies this`pendingTelemetry, this`log, mqttClient.base`published
      ensures Consistent()
      ensures (View(), r) == ControllerModel.SendTelemetry(old(View()), batch, rc)
    {
      if mqttClient.connected {
        r := PublishBatch(batch, rc);
        if r.Throws? {
          return Throws;
        }
      } else {
        pendingTelemetry := pendingTelemetry + [batch];
      }
      log := log.(emitted := log.emitted + [batch]);
      return Returns(());
    }

    /** One telemetry payload given to `publish`, with its fate if that does not throw. */
    method PublishBatch(batch: Batch, rc: Rc) returns (r: Outcome<()>)
      requires Consistent()
      modifies this`log, mqttClient.base`published
      ensures Consistent()
      ensures r == if rc.Failure? then Throws else Returns(())
      ensures log == if rc.Failure? then old(log)
                     else old(log).(handled := old(log).handled + [Handled(batch, FateOf(rc))])
    {
      ghost var published, handled := mqttClient.base.published, log.handled;
      var sent := mqttClient.base.Publish(TELEMETRY_TOPIC, Telemetry(batch), rc);
      if sent.Throws? {
        return Throws;
      }
      PublishedGrows(published, TELEMETRY_TOPIC, Telemetry(batch));
      WithFateGrows(handled, Handled(batch, FateOf(rc)));
      log := log.(handled := handled + [Handled(batch, FateOf(rc))]);
      return Returns(());
    }

    method SendAttributes(values: Values, rc: Rc) returns (r: Outcome<()>)
      requires Consistent()
      modifies this`log, mqttClient.base`published
      ensures Consistent()
      ensures (View(), r) == ControllerModel.SendAttributes(old(View()), values, rc)
      ensures log.dead == old(log.dead)
    {
      if mqttClient.connected {
        var sent := mqttClient.base.Publish(ATTRIBUTES_TOPIC, Attributes(values), rc);
        if sent.Throws? {
          return Throws;
        }
        ghost var send := AttributeSend(values, FateOf(rc));
        log := log.(attributeSends := log.attributeSends + [send]);
        PublishedGrows(old(mqttClient.base.published), ATTRIBUTES_TOPIC, Attributes(values));
        AcceptedAttributesGrows(old(log.attributeSends), send);
      }
      return Returns(());
    }

    method Send(now: int, env: SendEnv) returns (r: Outcome<bool>)
      requires Valid() && !log.dead
      modifies this, mqttClient.base`published
      ensures Valid() && actions == old(actions) + [SendCall(now, env)]
      ensures (View(), r) == ControllerModel.Send(old(View()), now, env)
    {
      r := SendTainted(now, env);
      Record(SendCall(now, env), old(View()));
    }

    /** The body of `send`. */
    method SendTainted(now: int, env: SendEnv) returns (r: Outcome<bool>)
      requires Consistent()
      modifies this, mqttClient.base`published
      ensures Consistent() && actions == old(actions)
      ensures (View(), r) == ControllerModel.Send(old(View()), now, env)
    {
      var dataToSend := false;

      if taintedTelemetryKeys != {} {
        var values: Values;
        telemetryData, values := Collect(telemetryData, taintedTelemetryKeys);
        var sent := SendTelemetry(Batch(values, now * 1000), env.telemetry);
        if sent.Throws? {
          return Throws;
        }
        taintedTelemetryKeys := {};
        dataToSend := true;
      }
      assert View() == FlushTelemetry(old(View()), now, env.telemetry).0;

      if taintedAttributeKeys != {} {
        var values: Values;
        attributeData, values := Collect(attributeData, taintedAttributeKeys);
        var sent := SendAttributes(values, env.attributes);
        if sent.Throws? {
          return Throws;
        }
        taintedAttributeKeys := {};
        dataToSend := true;
      }

      return Returns(dataToSend);
    }

    /** The libmosquitto connect callback: the client replays its subscriptions, stores
        the flag and calls `OnMqttConnect`. */
    method HandleConnect(code: int, env: ConnectEnv) returns (r: Outcome<()>)
      requires Valid() && !log.dead
      modifies this, mqttClient, mqttClient.base
      ensures Valid() && actions == old(actions) + [ConnectEvent(code, env)]
      ensures View() == Connect(old(View()), code, env)
      ensures r.Throws? <==> log.dead
    {
      mqttClient.OnConnect(code, env.replay);
      r := OnMqttConnect(code, env);
      if r.Throws? {
        log := log.(dead := true);
      }
      Record(ConnectEvent(code, env), old(View()));
    }

    /** The disconnect callback. */
    method HandleDisconnect(code: int)
      requires Valid() && !log.dead
      modifies this, mqttClient, mqttClient.base
      ensures Valid() && actions == old(actions) + [DisconnectEvent]
      ensures View() == Disconnect(old(View()))
      ensures !mqttClient.connected && pendingTelemetry == old(pendingTelemetry) && log == old(log)
    {
      mqttClient.OnDisconnect(code);
      Record(DisconnectEvent, old(View()));
    }

    /** `loop`, after the callbacks it made: a lost connection acts like a disconnect. */
    method Loop(rc: LoopRc) returns (r: Outcome<()>)
      requires Valid() && !log.dead
      modifies this, mqttClient, mqttClient.base
      ensures Valid()
      ensures r.Throws? <==> mqttClient.base.mosq.Null? || rc.LoopFailure?
      ensures View() == if r.Returns? && rc.LoopLost? then Disconnect(old(View())) else old(View())
      ensures mqttClient.connected == (old(mqttClient.connected) && (r.Throws? || !rc.LoopLost?))
    {
      r := mqttClient.Loop(rc);
      if r.Returns? && rc.LoopLost? {
        Record(DisconnectEvent, old(View()));
      }
    }

    method OnMqttConnect(code: int, env: ConnectEnv) returns (r: Outcome<()>)
      requires Consistent()
      modifies this`pendingTelemetry, this`log, mqttClient.base
      ensures Consistent()
      ensures (View(), r) == ControllerModel.OnMqttConnect(old(View()), code, env)
      ensures log.dead == old(log.dead)
    {
      if code != 0 {
        return Returns(());
      }

      r := mqttClient.base.Subscribe(RPC_FILTER, 2, env.subscribe);
      if r.Throws? {
        return Throws;
      }

      if attributeData != map[] {
        var _, values := Collect(attributeData, attributeData.Keys);
        assert Filled(attributeData, attributeData.Keys) == attributeData;
        assert values == attributeData;
        r := SendAttributes(values, env.attributes);
        if r.Throws? {
          return Throws;
        }
      }

      r := DrainPending(env.drain);
    }

    /** The loop over the pending queue. A throw leaves the payload it failed on, and
        all behind it, in the queue. */
    method DrainPending(rc: nat -> Rc) returns (r: Outcome<()>)
      requires Consistent()
      modifies this`pendingTelemetry, this`log, mqttClient.base`published
      ensures Consistent()
      ensures (View(), r) == Drain(old(View()), rc, 0)
      ensures log.dead == old(log.dead)
    {
      var i := 0;
      while pendingTelemetry != []
        invariant Consistent() && log.dead == old(log.dead)
        invariant Drain(View(), rc, i) == Drain(old(View()), rc, 0)
        decreases |pendingTelemetry|
      {
        r := PublishFront(rc(i));
        if r.Throws? {
          return Throws;
        }
        i := i + 1;
      }
      return Returns(());
    }

    /** Publish the front of the queue, and pop it if that did not throw. */
    method PublishFront(rc: Rc) returns (r: Outcome<()>)
      requires Consistent() && pendingTelemetry != []
      modifies this`pendingTelemetry, this`log, mqttClient.base`published
      ensures Consistent()
      ensures r == if rc.Failure? then Throws else Returns(())
      ensures View() == if rc.Failure? then old(View()) else FrontHandled(old(View()), rc)
      ensures log.dead == old(log.dead)
    {
      r := PublishBatch(pendingTelemetry[0], rc);
      if r.Returns? {
        pendingTelemetry := pendingTelemetry[1..];
      }
    }
  }

  // ----- the published messages, by topic -----

  ghost function PublishedTelemetry(published: seq<Message<Payload>>): seq<Batch> {
    if published == [] then []
    else
      var n := |published| - 1;
      var m := published[n];
      var before := PublishedTelemetry(published[..n]);
      if m.topic == TELEMETRY_TOPIC && m.payload.Telemetry? then before + [m.payload.batch] else before
  }

  ghost function PublishedAttributes(published: seq<Message<Payload>>): seq<Values> {
    if published == [] then []
    else
      var n := |published| - 1;
      var m := published[n];
      var before := PublishedAttributes(published[..n]);
      if m.topic == ATTRIBUTES_TOPIC && m.payload.Attributes? then before + [m.payload.values] else before
  }

  ghost function AcceptedAttributes(sends: seq<AttributeSend>): seq<Values> {
    if sends == [] then []
    else
      var n := |sends| - 1;
      var before := AcceptedAttributes(sends[..n]);
      if sends[n].fate.Accepted? then before + [sends[n].values] else before
  }

  lemma PublishedGrows(published: seq<Message<Payload>>, topic: Topic, payload: Payload)
    ensures var after := published + [Message(topic, payload)];
            && PublishedTelemetry(after) == PublishedTelemetry(published) +
               (if topic == TELEMETRY_TOPIC && payload.Telemetry? then [payload.batch] else [])
            && PublishedAttributes(after) == PublishedAttributes(published) +
               (if topic == ATTRIBUTES_TOPIC && payload.Attributes? then [payload.values] else [])
  {
    assert (published + [Message(topic, payload)])[..|published|] == published;
  }

  lemma AcceptedAttributesGrows(sends: seq<AttributeSend>, send: AttributeSend)
    ensures AcceptedAttributes(sends + [send]) ==
            AcceptedAttributes(sends) + if send.fate.Accepted? then [send.values] else []
  {
    assert (sends + [send])[..|sends|] == sends;
  }
}
