/** What the controller promises about attributes, about recovery after an outage and
    about its one subscription, over every run. */
module ControllerConnection {
  import opened Json
  import opened Mqtt
  import opened Wrappers
  import opened ControllerModel
  import opened ControllerTelemetry

  // ----- attributes -----

  lemma AttributeSendGrows(sends: seq<AttributeSend>, send: AttributeSend)
    ensures AttributeView(sends + [send]) ==
            if send.fate.Accepted? then AttributeView(sends) + send.values else AttributeView(sends)
    ensures forall key :: Stale(sends + [send], key) ==
                          if key in send.values then send.fate.Dropped? else Stale(sends, key)
  {
    assert (sends + [send])[..|sends|] == sends;
  }

  /** The broker has the value of every key that is neither tainted nor stale. */
  ghost predicate Synced(sys: System) {
    forall key | key in sys.s.attributes && key !in sys.s.taintedAttributes && !Stale(sys.log.attributeSends, key) ::
      AgreeAt(AttributeView(sys.log.attributeSends), sys.s.attributes, key)
  }

  ghost predicate AttributeInv(sys: System) {
    var view := AttributeView(sys.log.attributeSends);
    && sys.s.taintedAttributes <= sys.s.attributes.Keys
    && view.Keys <= sys.s.attributes.Keys
    && (sys.s.client.connected && !sys.log.dead ==> Synced(sys))
  }

  lemma FlushAttributesExact(sys: System, rc: Rc)
    requires sys.s.taintedAttributes <= sys.s.attributes.Keys
    ensures var (after, r) := FlushAttributes(sys, rc);
            var send := AttributeSend(Restrict(sys.s.attributes, sys.s.taintedAttributes), FateOf(rc));
            && (sys.s.taintedAttributes == {} || r.Throws? ==> after == sys)
            && (sys.s.taintedAttributes != {} && r.Returns? ==>
                  && after.s == sys.s.(taintedAttributes := {})
                  && after.log == if sys.s.client.connected
                                  then sys.log.(attributeSends := sys.log.attributeSends + [send])
                                  else sys.log)
  {
    assert Filled(sys.s.attributes, sys.s.taintedAttributes) == sys.s.attributes;
  }

  lemma FlushKeepsAttributes(sys: System, rc: Rc)
    requires AttributeInv(sys)
    ensures AttributeInv(FlushAttributes(sys, rc).0)
  {
    var (after, r) := FlushAttributes(sys, rc);
    FlushAttributesExact(sys, rc);
    if sys.s.taintedAttributes != {} && r.Returns? && sys.s.client.connected {
      DeltaKeepsAttributes(sys, after, rc);
    }
  }

  /** Of an accepted delta its keys are right; of a dropped one they are stale. */
  lemma DeltaKeepsAttributes(sys: System, after: System, rc: Rc)
    requires AttributeInv(sys)
    requires var delta := Restrict(sys.s.attributes, sys.s.taintedAttributes);
             && after.s == sys.s.(taintedAttributes := {})
             && after.log == sys.log.(attributeSends := sys.log.attributeSends + [AttributeSend(delta, FateOf(rc))])
    ensures AttributeInv(after)
  {
    var sends, delta := sys.log.attributeSends, Restrict(sys.s.attributes, sys.s.taintedAttributes);
    AttributeSendGrows(sends, AttributeSend(delta, FateOf(rc)));
    if sys.s.client.connected && !sys.log.dead {
      forall key | key in sys.s.attributes && !Stale(after.log.attributeSends, key)
        ensures AgreeAt(AttributeView(after.log.attributeSends), sys.s.attributes, key)
      {
        if key !in delta {
          assert key !in sys.s.taintedAttributes && !Stale(sends, key);
          assert AgreeAt(AttributeView(sends), sys.s.attributes, key);
        }
      }
    }
  }

  /** The telemetry part of a `send` leaves the attributes alone. */
  lemma FlushTelemetryFrame(sys: System, now: int, rc: Rc)
    ensures var after := FlushTelemetry(sys, now, rc).0;
            && after.s.attributes == sys.s.attributes && after.s.taintedAttributes == sys.s.taintedAttributes
            && after.s.client == sys.s.client
            && after.log.attributeSends == sys.log.attributeSends && after.log.dead == sys.log.dead
  {
  }

  /** An accepted connect resends every attribute, unless there are none or it throws
      before. */
  lemma ConnectResends(sys: System, env: ConnectEnv)
    requires !sys.log.dead
    ensures var after := Connect(sys, 0, env);
            var resent := if sys.s.attributes == map[] then sys.log.attributeSends
                          else sys.log.attributeSends + [AttributeSend(sys.s.attributes, FateOf(env.attributes))];
            && (after.log.attributeSends == sys.log.attributeSends || after.log.attributeSends == resent)
            && (!after.log.dead ==>
                  && !env.subscribe.Failure?
                  && after.log.attributeSends == resent
                  && after.s.client ==
                     Subscribe(OnConnect(sys.s.client, 0, env.replay), RPC_FILTER, 2, env.subscribe).0)
  {
    var flagged := sys.(s := sys.s.(client := OnConnect(sys.s.client, 0, env.replay)));
    var (client, r1) := Subscribe(flagged.s.client, RPC_FILTER, 2, env.subscribe);
    var subscribed := flagged.(s := flagged.s.(client := client));
    var (resent, r2) := if sys.s.attributes == map[] then (subscribed, Returns(()))
                        else SendAttributes(subscribed, sys.s.attributes, env.attributes);
    if r1.Returns? && r2.Returns? {
      var _ := DrainExact(resent, env.drain, 0);
    }
  }

  /** Each accepted connect whose attribute publish goes out makes the broker's view
      equal to the whole map, whatever was dropped before. */
  lemma ConnectSyncsAttributes(sys: System, env: ConnectEnv)
    requires AttributeInv(sys) && !sys.log.dead && !Connect(sys, 0, env).log.dead
    requires env.attributes.Success?
    ensures AttributeView(Connect(sys, 0, env).log.attributeSends) == sys.s.attributes
    ensures forall key | key in sys.s.attributes :: !Stale(Connect(sys, 0, env).log.attributeSends, key)
  {
    ConnectResends(sys, env);
    var view := AttributeView(sys.log.attributeSends);
    if sys.s.attributes == map[] {
      assert view == map[];
    } else {
      AttributeSendGrows(sys.log.attributeSends, AttributeSend(sys.s.attributes, Accepted));
      assert view + sys.s.attributes == sys.s.attributes;
    }
  }

  lemma ConnectKeepsAttributes(sys: System, code: int, env: ConnectEnv)
    requires AttributeInv(sys) && !sys.log.dead
    ensures AttributeInv(Connect(sys, code, env))
  {
    var after := Connect(sys, code, env);
    var _ := ConnectFrame(sys, code, env);
    if code == 0 {
      ConnectResends(sys, env);
      if after.log.attributeSends != sys.log.attributeSends {
        AttributeSendGrows(sys.log.attributeSends, AttributeSend(sys.s.attributes, FateOf(env.attributes)));
      }
      if !after.log.dead && env.attributes.Success? {
        ConnectSyncsAttributes(sys, env);
      }
    }
  }

  lemma StepKeepsAttributes(sys: System, a: Action)
    requires AttributeInv(sys)
    ensures AttributeInv(Step(sys, a))
  {
    if !sys.log.dead {
      match a
      case TelemetryCall(_, _) =>
      case AttributeCall(_, _) =>
      case DisconnectEvent =>
      case ConnectEvent(code, env) => ConnectKeepsAttributes(sys, code, env);
      case SendCall(now, env) =>
        var (first, r) := FlushTelemetry(sys, now, env.telemetry);
        FlushTelemetryFrame(sys, now, env.telemetry);
        assert AttributeInv(first);
        if r.Returns? {
          FlushKeepsAttributes(first, env.attributes);
        }
    }
  }

  /** Attribute convergence: in every run, while connected, the broker's merged view has
      the map's value of every untainted key, unless the last payload that mentions this
      very key was dropped. (Sends made offline clear the taint without publishing; the
      resend on connect makes up for them.) The view never holds a key that the map does
      not. */
  lemma {:induction false} AttributesConverge(actions: seq<Action>)
    ensures AttributeInv(Run(actions))
  {
    if actions != [] {
      AttributesConverge(actions[..|actions| - 1]);
      StepKeepsAttributes(Run(actions[..|actions| - 1]), actions[|actions| - 1]);
    }
  }

  /** A refused connect replays the record and lowers the flag; it sends nothing and
      leaves queue, data and taints as they were. */
  lemma RefusedConnectSendsNothing(sys: System, code: int, env: ConnectEnv)
    requires code != 0
    ensures var after := Connect(sys, code, env);
            && after.log == sys.log
            && after.s == sys.s.(client := after.s.client)
            && !after.s.client.connected && after.s.client.session.Closed?
            && after.s.client.record == sys.s.client.record
  {
    ClosedStaysClosed(Requests(sys.s.client.record, 3), env.replay);
  }

  // ----- recovery -----

  ghost predicate AllSucceed(env: ConnectEnv) {
    env.subscribe.Success? && env.attributes.Success? && forall i: nat :: env.drain(i).Success?
  }

  /** With a broker that takes everything, a connect does not throw; the whole queue is
      accepted. */
  lemma GoodConnect(sys: System, env: ConnectEnv)
    requires AllSucceed(env) && !sys.log.dead
    ensures var after := Connect(sys, 0, env);
            && !after.log.dead && after.s.client.connected && after.s.pending == []
            && after.log.handled == sys.log.handled + HandedOver(sys.s.pending, env.drain, 0)
  {
    var flagged := sys.(s := sys.s.(client := OnConnect(sys.s.client, 0, env.replay)));
    var client := Subscribe(flagged.s.client, RPC_FILTER, 2, env.subscribe).0;
    var subscribed := flagged.(s := flagged.s.(client := client));
    var (resent, r2) := if sys.s.attributes == map[] then (subscribed, Returns(()))
                        else SendAttributes(subscribed, sys.s.attributes, env.attributes);
    var n := DrainExact(resent, env.drain, 0);
    assert !env.drain(0 + n).Failure?;
    assert sys.s.pending[..n] == sys.s.pending && sys.s.pending[n..] == [];
  }

  /** Recoverability: from any reachable state in which no callback died, an accepted
      connect and a `send`, with a broker that takes everything, leave nothing tainted,
      nothing pending, the broker's attributes equal to the map whatever was dropped, and
      its telemetry equal to what had been or was to be delivered: the map itself exactly
      at the keys that `DeliveryAgreesIff` names, so all of it if nothing was dropped. */
  lemma {:induction false} ConnectAndSendRecover(actions: seq<Action>, env: ConnectEnv, now: int, sendEnv: SendEnv)
    requires !Run(actions).log.dead
    requires AllSucceed(env) && sendEnv.telemetry.Success? && sendEnv.attributes.Success?
    ensures var before, sys := Run(actions), Run(actions + [ConnectEvent(0, env)] + [SendCall(now, sendEnv)]);
            && !sys.log.dead && sys.s.client.connected
            && sys.s.taintedTelemetry == {} && sys.s.taintedAttributes == {} && sys.s.pending == []
            && sys.s.telemetry == before.s.telemetry && sys.s.attributes == before.s.attributes
            && AttributeView(sys.log.attributeSends) == sys.s.attributes
            && TelemetryView(sys.log) == Delivered(before)
            && (forall key :: AgreeAt(TelemetryView(sys.log), sys.s.telemetry, key)
                              <==> !LostKey(before.log.handled, key) || Covered(before, key))
            && (NothingDropped(before.log) ==> TelemetryView(sys.log) == sys.s.telemetry)
  {
    var connected := actions + [ConnectEvent(0, env)];
    ConnectRecovers(actions, env);
    SendRecovers(connected, now, sendEnv);
    DeliveredWhenConnected(Run(connected + [SendCall(now, sendEnv)]));
    forall key
      ensures AgreeAt(Delivered(Run(actions)), Run(actions).s.telemetry, key)
              <==> !LostKey(Run(actions).log.handled, key) || Covered(Run(actions), key)
    {
      DeliveryAgreesIff(actions, key);
    }
    if NothingDropped(Run(actions).log) {
      DeltaLogRefinesTheMap(actions);
    }
  }

  lemma ConnectRecovers(actions: seq<Action>, env: ConnectEnv)
    requires !Run(actions).log.dead && AllSucceed(env)
    ensures var before, sys := Run(actions), Run(actions + [ConnectEvent(0, env)]);
            && !sys.log.dead && sys.s.client.connected && sys.s.pending == []
            && sys.s.telemetry == before.s.telemetry && sys.s.attributes == before.s.attributes
            && Delivered(sys) == Delivered(before)
            && AttributeView(sys.log.attributeSends) == sys.s.attributes
  {
    assert (actions + [ConnectEvent(0, env)])[..|actions|] == actions;
    AttributesConverge(actions);
    GoodConnect(Run(actions), env);
    GoodConnectKeeps(Run(actions), env);
  }

  lemma {:induction false} SendRecovers(actions: seq<Action>, now: int, env: SendEnv)
    requires var sys := Run(actions);
             && !sys.log.dead && sys.s.client.connected && sys.s.pending == []
             && AttributeView(sys.log.attributeSends) == sys.s.attributes
    requires env.telemetry.Success? && env.attributes.Success?
    ensures var before, sys := Run(actions), Run(actions + [SendCall(now, env)]);
            && sys.s == before.s.(taintedTelemetry := {}, taintedAttributes := {})
            && !sys.log.dead
            && Delivered(sys) == Delivered(before)
            && AttributeView(sys.log.attributeSends) == sys.s.attributes
  {
    assert (actions + [SendCall(now, env)])[..|actions|] == actions;
    AttributesConverge(actions);
    SendKeepsTelemetry(actions, now, env);
    GoodSend(Run(actions), now, env);
  }

  lemma GoodConnectKeeps(sys: System, env: ConnectEnv)
    requires AllSucceed(env) && !sys.log.dead && AttributeInv(sys)
    ensures var after := Connect(sys, 0, env);
            && after.s.telemetry == sys.s.telemetry && after.s.attributes == sys.s.attributes
            && Delivered(after) == Delivered(sys)
            && AttributeView(after.log.attributeSends) == sys.s.attributes
  {
    GoodConnect(sys, env);
    ConnectSyncsAttributes(sys, env);
    var _ := ConnectFrame(sys, 0, env);
    AcceptedAll(sys.log.handled, sys.s.pending, env.drain);
    var sent := WithFate(sys.log.handled, Accepted) + sys.s.pending;
    assert sent + [] == sent;
  }

  lemma AcceptedAll(handled: seq<Handled>, batches: seq<Batch>, rc: nat -> Rc)
    requires forall i: nat :: rc(i).Success?
    ensures WithFate(handled + HandedOver(batches, rc, 0), Accepted) == WithFate(handled, Accepted) + batches
  {
    var more := HandedOver(batches, rc, 0);
    WithFateConcat(handled, more);
    NothingDroppedMeans(more);
    assert Batches(more) == batches;
  }

  /** A connected `send` that goes through, when the broker's attributes are the map. */
  lemma GoodSend(sys: System, now: int, env: SendEnv)
    requires sys.s.client.connected && env.telemetry.Success? && env.attributes.Success?
    requires sys.s.taintedTelemetry <= sys.s.telemetry.Keys && sys.s.taintedAttributes <= sys.s.attributes.Keys
    requires AttributeView(sys.log.attributeSends) == sys.s.attributes
    requires sys.s.pending == []
    ensures var after := Send(sys, now, env).0;
            && after.s == sys.s.(taintedTelemetry := {}, taintedAttributes := {})
            && after.log.dead == sys.log.dead
            && Delivered(after) == Delivered(sys)
            && AttributeView(after.log.attributeSends) == sys.s.attributes
  {
    FlushTelemetryExact(sys, now, env.telemetry);
    FlushTelemetryFrame(sys, now, env.telemetry);
    var first := FlushTelemetry(sys, now, env.telemetry).0;
    FlushAttributesExact(first, env.attributes);
    if sys.s.taintedAttributes != {} {
      var delta := Restrict(sys.s.attributes, sys.s.taintedAttributes);
      AttributeSendGrows(sys.log.attributeSends, AttributeSend(delta, Accepted));
      assert sys.s.attributes + delta == sys.s.attributes;
    }
    if sys.s.taintedTelemetry != {} {
      AcceptedDelivers(sys, Batch(Restrict(sys.s.telemetry, sys.s.taintedTelemetry), now * 1000));
    }
  }

  /** Tainted keys are always keys of the maps, so `send` never changes the maps. */
  lemma SendKeepsTheMaps(actions: seq<Action>, now: int, env: SendEnv)
    ensures var sys := Run(actions);
            var after := Send(sys, now, env).0;
            && sys.s.taintedTelemetry <= sys.s.telemetry.Keys
            && sys.s.taintedAttributes <= sys.s.attributes.Keys
            && after.s.telemetry == sys.s.telemetry
            && after.s.attributes == sys.s.attributes
  {
    var sys := Run(actions);
    SendKeepsTelemetry(actions, now, env);
    AttributesConverge(actions);
    FlushTelemetryFrame(sys, now, env.telemetry);
    FlushAttributesExact(FlushTelemetry(sys, now, env.telemetry).0, env.attributes);
  }

  /** Telemetry is different: a publish answered NO_CONN while connected loses its
      values for good. After this run nothing is tainted or pending, the broker has
      nothing, and no later `send` has anything to do. */
  lemma NoConnLosesTelemetry(env: ConnectEnv)
    requires AllSucceed(env)
    ensures var lossy := SendCall(0, SendEnv(NoConn, Success));
            var sys := Run([ConnectEvent(0, env), TelemetryCall("k", Int(1)), lossy]);
            && sys.s.telemetry == map["k" := Int(1)]
            && sys.s.taintedTelemetry == {} && sys.s.pending == []
            && TelemetryView(sys.log) == map[]
            && forall now, sendEnv :: Send(sys, now, sendEnv) == (sys, Returns(false))
  {
    var a, b, c := ConnectEvent(0, env), TelemetryCall("k", Int(1)), SendCall(0, SendEnv(NoConn, Success));
    assert [a][..0] == [] && [a, b][..1] == [a] && [a, b, c][..2] == [a, b];
    assert Run([]) == START;
    GoodConnect(START, env);
    var _ := ConnectFrame(START, 0, env);
    ConnectResends(START, env);
    var s1 := Run([a]);
    assert s1 == Connect(START, 0, env);
    var s2 := Run([a, b]);
    assert s2 == PublishTelemetry(s1, "k", Int(1));
    var s3 := Run([a, b, c]);
    FlushTelemetryExact(s2, 0, NoConn);
    SendFrame(s2, 0, SendEnv(NoConn, Success));
    assert WithFate([Handled(Batch(map["k" := Int(1)], 0), Dropped)], Accepted) == [] by {
      assert [Handled(Batch(map["k" := Int(1)], 0), Dropped)][..0] == [];
    }
    assert Restrict(map["k" := Int(1)], {"k"}) == map["k" := Int(1)];
  }

  /** The drain loses it too. Here the value is sent offline and waits in the queue; the
      connect is accepted, but the publish of the drain answers NO_CONN. */
  lemma DrainLosesTelemetry(env: ConnectEnv)
    requires env.subscribe.Success? && env.attributes.Success? && forall i: nat :: env.drain(i).NoConn?
    ensures var sent := SendCall(0, SendEnv(Success, Success));
            var sys := Run([TelemetryCall("k", Int(1)), sent, ConnectEvent(0, env)]);
            && !sys.log.dead && sys.s.client.connected
            && sys.s.telemetry == map["k" := Int(1)]
            && sys.s.taintedTelemetry == {} && sys.s.pending == []
            && TelemetryView(sys.log) == map[]
            && forall now, sendEnv :: Send(sys, now, sendEnv) == (sys, Returns(false))
  {
    var a, b, c := TelemetryCall("k", Int(1)), SendCall(0, SendEnv(Success, Success)), ConnectEvent(0, env);
    assert [a][..0] == [] && [a, b][..1] == [a] && [a, b, c][..2] == [a, b];
    assert Run([]) == START;
    var s1 := Run([a]);
    assert s1 == PublishTelemetry(START, "k", Int(1));
    assert s1.s.telemetry == map["k" := Int(1)] && s1.s.taintedTelemetry == {"k"};
    FlushTelemetryExact(s1, 0, Success);
    SendFrame(s1, 0, SendEnv(Success, Success));
    var s2 := Run([a, b]);
    assert s2 == Send(s1, 0, SendEnv(Success, Success)).0;
    assert Restrict(s1.s.telemetry, {"k"}) == map["k" := Int(1)];
    var batch := Batch(map["k" := Int(1)], 0);
    assert s2.s.pending == [] + [batch];
    OneBatchDropped(s2, batch, env);
  }

  /** A connect with no attributes and one pending batch, dropped by the drain. */
  lemma OneBatchDropped(sys: System, batch: Batch, env: ConnectEnv)
    requires env.subscribe.Success? && forall i: nat :: env.drain(i).NoConn?
    requires !sys.log.dead && sys.s.attributes == map[]
    requires sys.s.pending == [batch] && sys.log.handled == []
    ensures var after := Connect(sys, 0, env);
            && !after.log.dead
            && after.s == sys.s.(pending := [], client := after.s.client)
            && after.s.client.connected
            && TelemetryView(after.log) == map[]
  {
    var client := Subscribe(OnConnect(sys.s.client, 0, env.replay), RPC_FILTER, 2, env.subscribe).0;
    var subscribed := sys.(s := sys.s.(client := client));
    var n := DrainExact(subscribed, env.drain, 0);
    assert !env.drain(0 + n).Failure?;
    var handled := [] + HandedOver([batch][..1], env.drain, 0);
    assert handled == [Handled(batch, Dropped)];
    assert WithFate([Handled(batch, Dropped)], Accepted) == [] by {
      assert [Handled(batch, Dropped)][..0] == [];
    }
  }

  // ----- the RPC subscription -----

  /** Accepted connects among the actions. */
  function Accepts(actions: seq<Action>): nat {
    if actions == [] then 0
    else
      var n := |actions| - 1;
      Accepts(actions[..n]) + if actions[n].ConnectEvent? && actions[n].code == 0 then 1 else 0
  }

  /** Requests replayed on refused connects: one for each connect accepted so far. */
  function RefusedRequests(actions: seq<Action>): nat {
    if actions == [] then 0
    else
      var n := |actions| - 1;
      RefusedRequests(actions[..n]) +
      if actions[n].ConnectEvent? && actions[n].code != 0 then Accepts(actions[..n]) else 0
  }

  function RpcRecord(n: nat): Record {
    [[], [], seq(n, _ => RPC_FILTER)]
  }

  lemma RpcRequests(n: nat)
    ensures Requests(RpcRecord(n), 3) == seq(n, _ => Request(RPC_FILTER, 2))
  {
    var record := RpcRecord(n);
    assert Requests(record, 0) == [];
    assert Requests(record, 1) == [];
    assert Requests(record, 2) == [];
    assert Tagged(record[2], 2) == seq(n, _ => Request(RPC_FILTER, 2));
  }

  lemma ConnectRecord(sys: System, code: int, env: ConnectEnv, n: nat)
    requires sys.s.client.record == RpcRecord(n)
    requires !sys.log.dead && !Connect(sys, code, env).log.dead
    ensures var client := Connect(sys, code, env).s.client;
            && client.record == RpcRecord(if code == 0 then n + 1 else n)
            && client.requests == sys.s.client.requests + n + if code == 0 then 1 else 0
  {
    RpcRequests(n);
    if code == 0 {
      ConnectResends(sys, env);
      var client := Connect(sys, 0, env).s.client;
      assert client.record[2] == RpcRecord(n + 1)[2];
      assert client.record == RpcRecord(n + 1);
    }
  }

  /** 1 + 2 + ... + n. */
  function Triangle(n: nat): nat {
    if n == 0 then 0 else Triangle(n - 1) + n
  }

  lemma {:induction false} TriangleClosedForm(n: nat)
    ensures 2 * Triangle(n) == n * (n + 1)
  {
    if n > 0 {
      TriangleClosedForm(n - 1);
    }
  }

  lemma {:induction false} RecordAndRequests(actions: seq<Action>)
    requires !Run(actions).log.dead
    ensures var client := Run(actions).s.client;
            && client.record == RpcRecord(Accepts(actions))
            && client.requests == Triangle(Accepts(actions)) + RefusedRequests(actions)
  {
    if actions == [] {
      assert RpcRecord(0)[2] == [];
    } else {
      var k := |actions| - 1;
      RecordAndRequests(actions[..k]);
      if actions[k].ConnectEvent? {
        ConnectRecord(Run(actions[..k]), actions[k].code, actions[k].connectEnv, Accepts(actions[..k]));
      } else {
        OtherActionsKeepTheRecord(Run(actions[..k]), actions[k]);
      }
    }
  }

  /** The exact cost of reconnecting. After n accepted connects the record holds exactly
      n copies of the one RPC filter, at QoS 2, and nothing else; and n(n+1)/2 subscribe
      requests have been made, plus one for each copy replayed on a refused connect. */
  lemma {:induction false} ReconnectCost(actions: seq<Action>)
    requires !Run(actions).log.dead
    ensures var n, client := Accepts(actions), Run(actions).s.client;
            && client.record == RpcRecord(n)
            && 2 * client.requests == n * (n + 1) + 2 * RefusedRequests(actions)
  {
    RecordAndRequests(actions);
    TriangleClosedForm(Accepts(actions));
  }

  lemma OtherActionsKeepTheRecord(sys: System, a: Action)
    requires !a.ConnectEvent?
    ensures Step(sys, a).s.client == sys.s.client ||
            (a.DisconnectEvent? && Step(sys, a).s.client == OnDisconnect(sys.s.client))
  {
    if a.SendCall? {
      SendFrame(sys, a.now, a.sendEnv);
      FlushTelemetryFrame(sys, a.now, a.sendEnv.telemetry);
    }
  }

  lemma {:induction false} ApplySame(filters: map<Topic, Qos>, n: nat, rc: nat -> Rc)
    ensures Apply(Open(filters), seq(n, _ => Request(RPC_FILTER, 2)), rc) ==
            if exists i: nat :: i < n && rc(i).Success? then Open(filters[RPC_FILTER := 2]) else Open(filters)
  {
    if n > 0 {
      var requests := seq(n, _ => Request(RPC_FILTER, 2));
      assert requests[..n - 1] == seq(n - 1, _ => Request(RPC_FILTER, 2));
      ApplySame(filters, n - 1, rc);
      if rc(n - 1).Success? {
        assert n - 1 < n && rc(n - 1).Success?;
      } else if i: nat :| i < n && rc(i).Success? {
        assert i < n - 1 && rc(i).Success?;
      }
    }
  }

  /** The broker after the replay of `n` copies of the filter and the request for one more. */
  lemma RpcSession(c: Client, n: nat, env: ConnectEnv)
    requires c.record == RpcRecord(n)
    ensures Subscribe(OnConnect(c, 0, env.replay), RPC_FILTER, 2, env.subscribe).0.session ==
            if env.subscribe.Success? || exists i: nat :: i < n && env.replay(i).Success?
            then Open(map[RPC_FILTER := 2])
            else Open(map[])
  {
    RpcRequests(n);
    ApplySame(map[], n, env.replay);
    assert map[][RPC_FILTER := 2] == map[RPC_FILTER := 2][RPC_FILTER := 2];
  }

  /** Idempotence: however many copies are recorded, after an accepted connect the broker
      holds the one RPC filter at QoS 2, exactly if at least one of the replayed requests
      or the new one succeeded; otherwise it holds nothing. */
  lemma BrokerHoldsRpcFilterIff(actions: seq<Action>, env: ConnectEnv)
    requires var sys := Run(actions + [ConnectEvent(0, env)]); !sys.log.dead
    ensures var session := Run(actions + [ConnectEvent(0, env)]).s.client.session;
            session ==
            if env.subscribe.Success? || exists i: nat :: i < Accepts(actions) && env.replay(i).Success?
            then Open(map[RPC_FILTER := 2])
            else Open(map[])
  {
    var all := actions + [ConnectEvent(0, env)];
    assert all[..|all| - 1] == actions;
    var before := Run(actions);
    RecordAndRequests(actions);
    ConnectResends(before, env);
    RpcSession(before.s.client, Accepts(actions), env);
  }

  /** Every accepted connect gets at least its own subscription through. */
  ghost predicate Subscribes(actions: seq<Action>) {
    forall i | 0 <= i < |actions| ::
      actions[i].ConnectEvent? && actions[i].code == 0 ==> actions[i].connectEnv.subscribe.Success?
  }

  /** Then being connected means that the broker holds just that filter at QoS 2. */
  lemma {:induction false} ConnectedMeansSubscribed(actions: seq<Action>)
    requires !Run(actions).log.dead && Subscribes(actions)
    ensures var client := Run(actions).s.client;
            client.session == if client.connected then Open(map[RPC_FILTER := 2]) else Closed
  {
    if actions != [] {
      var k := |actions| - 1;
      var before, a := Run(actions[..k]), actions[k];
      ConnectedMeansSubscribed(actions[..k]);
      if a.ConnectEvent? {
        assert actions[..k] + [a] == actions;
        var _ := ConnectFrame(before, a.code, a.connectEnv);
        if a.code == 0 {
          BrokerHoldsRpcFilterIff(actions[..k], a.connectEnv);
        } else {
          ReconnectCost(actions[..k]);
          ClosedStaysClosed(Requests(before.s.client.record, 3), a.connectEnv.replay);
        }
      } else {
        OtherActionsKeepTheRecord(before, a);
      }
    }
  }
}
