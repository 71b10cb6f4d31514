/** What the controller holds and where its flag stands, over every run, in terms of the
    calls and events themselves; and exactly how a connect and an offline `send` end. */
module ControllerHistory {
  import opened Json
  import opened Mqtt
  import opened Wrappers
  import opened ControllerModel
  import opened ControllerTelemetry
  import opened ControllerConnection

  // ----- the maps -----

  /** Pass number `i` is the last one for this key. */
  ghost predicate LastPassed(passed: seq<Passed>, key: Key, i: nat) {
    i < |passed| && passed[i].key == key && forall j | i < j < |passed| :: passed[j].key != key
  }

  lemma {:induction false} HistoryEndsWithLast(passed: seq<Passed>, key: Key)
    ensures History(passed, key) != [] <==> exists i: nat :: LastPassed(passed, key, i)
    ensures forall i: nat | LastPassed(passed, key, i) ::
              var h := History(passed, key); h != [] && h[|h| - 1] == passed[i].value
  {
    if passed != [] {
      var n := |passed| - 1;
      HistoryEndsWithLast(passed[..n], key);
      if passed[n].key == key {
        assert LastPassed(passed, key, n);
      } else {
        forall i: nat ensures LastPassed(passed, key, i) <==> LastPassed(passed[..n], key, i) {}
      }
    }
  }

  /** A map that holds what was passed to it. */
  ghost predicate Holds(data: Values, passed: seq<Passed>, key: Key) {
    var h := History(passed, key);
    && (key in data <==> h != [])
    && (key in data ==> data[key] in h && JsonEq(data[key], h[|h| - 1]))
  }

  lemma SetAttributeHolds(sys: System, k: Key, value: Json, key: Key)
    requires Holds(sys.s.attributes, sys.log.passedAttributes, key)
    ensures var after := SetAttribute(sys, k, value);
            Holds(after.s.attributes, after.log.passedAttributes, key)
  {
    HistoryGrows(sys.log.passedAttributes, Passed(k, value), key);
    JsonEqReflexive(value);
  }

  /** Only `setAttribute` touches the attributes and what was passed for them. */
  lemma AttributesFrame(actions: seq<Action>, a: Action)
    requires !a.AttributeCall?
    ensures var before, after := Run(actions), Step(Run(actions), a);
            && after.s.attributes == before.s.attributes
            && after.log.passedAttributes == before.log.passedAttributes
  {
    match a
    case SendCall(now, env) =>
      SendKeepsTheMaps(actions, now, env);
      FlushTelemetryExact(Run(actions), now, env.telemetry);
      SendFrame(Run(actions), now, env);
    case ConnectEvent(code, env) =>
      var _ := ConnectFrame(Run(actions), code, env);
    case _ =>
  }

  lemma {:induction false} RunHolds(actions: seq<Action>, key: Key)
    ensures Holds(Run(actions).s.attributes, Run(actions).log.passedAttributes, key)
  {
    if actions != [] {
      var front, a := actions[..|actions| - 1], actions[|actions| - 1];
      RunHolds(front, key);
      if a.AttributeCall? {
        SetAttributeHolds(Run(front), a.key, a.value, key);
      } else {
        AttributesFrame(front, a);
      }
    }
  }

  /** Over every run the attribute map has exactly the keys that `setAttribute` was called
      with, each with a value passed for it that equals, as JSON, the last one. */
  lemma AttributesAreLastPassed(actions: seq<Action>, key: Key)
    ensures var sys := Run(actions);
            var passed := sys.log.passedAttributes;
            && (key in sys.s.attributes <==> exists i: nat :: LastPassed(passed, key, i))
            && (key in sys.s.attributes ==> sys.s.attributes[key] in History(passed, key))
            && forall i: nat | LastPassed(passed, key, i) ::
                 key in sys.s.attributes && JsonEq(sys.s.attributes[key], passed[i].value)
  {
    RunHolds(actions, key);
    HistoryEndsWithLast(Run(actions).log.passedAttributes, key);
  }

  /** The same of telemetry. */
  lemma TelemetryIsLastPassed(actions: seq<Action>, key: Key)
    ensures var sys := Run(actions);
            && (key in sys.s.telemetry <==> exists i: nat :: LastPassed(sys.log.passed, key, i))
            && forall i: nat | LastPassed(sys.log.passed, key, i) ::
                 key in sys.s.telemetry && JsonEq(sys.s.telemetry[key], sys.log.passed[i].value)
  {
    RunKeepsKeys(actions);
    assert KeyInv(Run(actions), key);
    HistoryEndsWithLast(Run(actions).log.passed, key);
  }

  /** The values passed in these calls, in order. */
  function TelemetryCalls(actions: seq<Action>): seq<Passed> {
    if actions == [] then []
    else
      var before, a := TelemetryCalls(actions[..|actions| - 1]), actions[|actions| - 1];
      if a.TelemetryCall? then before + [Passed(a.key, a.value)] else before
  }

  function AttributeCalls(actions: seq<Action>): seq<Passed> {
    if actions == [] then []
    else
      var before, a := AttributeCalls(actions[..|actions| - 1]), actions[|actions| - 1];
      if a.AttributeCall? then before + [Passed(a.key, a.value)] else before
  }

  /** As long as no callback has died, what was passed is what the calls say. */
  lemma {:induction false} PassedIsCalled(actions: seq<Action>)
    requires !Run(actions).log.dead
    ensures Run(actions).log.passed == TelemetryCalls(actions)
    ensures Run(actions).log.passedAttributes == AttributeCalls(actions)
  {
    if actions != [] {
      var front, a := actions[..|actions| - 1], actions[|actions| - 1];
      PassedIsCalled(front);
      if a.ConnectEvent? {
        var _ := ConnectFrame(Run(front), a.code, a.connectEnv);
      } else if a.SendCall? {
        FlushTelemetryExactOfRun(front, a.now, a.sendEnv.telemetry);
        SendFrame(Run(front), a.now, a.sendEnv);
      }
    }
  }

  lemma FlushTelemetryExactOfRun(actions: seq<Action>, now: int, rc: Rc)
    ensures var before, after := Run(actions), FlushTelemetry(Run(actions), now, rc).0;
            && after.log.passed == before.log.passed && after.log.passedAttributes == before.log.passedAttributes
            && after.log.dead == before.log.dead
  {
    TaintedAreKeysOfRun(actions);
    FlushTelemetryExact(Run(actions), now, rc);
  }

  /** One call sets one key: it taints the key and stores the value exactly if there was
      none or it differs as JSON, and leaves everything about the other keys alone. */
  lemma CallSetsOneKey(sys: System, key: Key, value: Json, other: Key)
    ensures var s, s' := sys.s, SetAttribute(sys, key, value).s;
            var news := key !in s.attributes || !JsonEq(s.attributes[key], value);
            && s' == s.(attributes := s'.attributes, taintedAttributes := s'.taintedAttributes)
            && key in s'.attributes && s'.attributes[key] == (if news then value else s.attributes[key])
            && (key in s'.taintedAttributes <==> news || key in s.taintedAttributes)
            && (other != key ==> AgreeAt(s'.attributes, s.attributes, other))
            && (other != key ==> (other in s'.taintedAttributes <==> other in s.taintedAttributes))
    ensures var s, s' := sys.s, PublishTelemetry(sys, key, value).s;
            var news := key !in s.telemetry || !JsonEq(s.telemetry[key], value);
            && s' == s.(telemetry := s'.telemetry, taintedTelemetry := s'.taintedTelemetry)
            && key in s'.telemetry && s'.telemetry[key] == (if news then value else s.telemetry[key])
            && (key in s'.taintedTelemetry <==> news || key in s.taintedTelemetry)
            && (other != key ==> AgreeAt(s'.telemetry, s.telemetry, other))
            && (other != key ==> (other in s'.taintedTelemetry <==> other in s.taintedTelemetry))
  {
  }

  // ----- the flag -----

  predicate IsLink(a: Action) {
    a.ConnectEvent? || a.DisconnectEvent?
  }

  ghost predicate UpSince(actions: seq<Action>, i: nat) {
    && i < |actions| && actions[i].ConnectEvent? && actions[i].code == 0
    && forall j | i < j < |actions| :: !IsLink(actions[j])
  }

  ghost predicate Up(actions: seq<Action>) {
    exists i: nat :: UpSince(actions, i)
  }

  lemma UpGrows(actions: seq<Action>)
    requires actions != []
    ensures var n := |actions| - 1;
            Up(actions) <==> if IsLink(actions[n]) then actions[n].ConnectEvent? && actions[n].code == 0
                             else Up(actions[..n])
  {
    var n := |actions| - 1;
    forall i: nat | i < n ensures UpSince(actions, i) <==> UpSince(actions[..n], i) && !IsLink(actions[n]) {}
    assert UpSince(actions, n) <==> actions[n].ConnectEvent? && actions[n].code == 0;
  }

  lemma StepFlag(sys: System, a: Action)
    requires !Step(sys, a).log.dead
    ensures Step(sys, a).s.client.connected <==>
            if IsLink(a) then a.ConnectEvent? && a.code == 0 else sys.s.client.connected
  {
    if a.ConnectEvent? {
      var _ := ConnectFrame(sys, a.code, a.connectEnv);
    } else {
      OtherActionsKeepTheRecord(sys, a);
    }
  }

  /** Over every run the flag is up exactly if the last connect, disconnect or lost
      connection was an accepted connect. */
  lemma {:induction false} ConnectedIff(actions: seq<Action>)
    requires !Run(actions).log.dead
    ensures Run(actions).s.client.connected <==> Up(actions)
  {
    if actions != [] {
      var n := |actions| - 1;
      ConnectedIff(actions[..n]);
      StepFlag(Run(actions[..n]), actions[n]);
      UpGrows(actions);
    }
  }

  /** What is sent after a disconnect, with no accepted connect in between, is kept: the
      telemetry batch goes to the end of the queue, nothing is given to publish, and `send`
      does not throw. */
  lemma {:induction false} SendAfterDisconnectQueues(actions: seq<Action>, more: seq<Action>, now: int, env: SendEnv)
    requires forall i | 0 <= i < |more| :: more[i].ConnectEvent? ==> more[i].code != 0
    requires !Run(actions + [DisconnectEvent] + more).log.dead
    ensures var before := Run(actions + [DisconnectEvent] + more);
            var (after, r) := Send(before, now, env);
            var batch := Batch(Restrict(before.s.telemetry, before.s.taintedTelemetry), now * 1000);
            && !before.s.client.connected && r.Returns?
            && after.s.pending == before.s.pending + (if before.s.taintedTelemetry == {} then [] else [batch])
            && after.log.handled == before.log.handled && after.log.attributeSends == before.log.attributeSends
            && after.s.taintedTelemetry == {} && after.s.taintedAttributes == {}
  {
    var all := actions + [DisconnectEvent] + more;
    var n := |actions|;
    assert all[n] == DisconnectEvent;
    forall i: nat ensures !UpSince(all, i) {
      if n < i < |all| {
        assert all[i] == more[i - n - 1];
      }
    }
    ConnectedIff(all);
    OfflineSend(all, now, env);
  }

  lemma {:induction false} OfflineSend(actions: seq<Action>, now: int, env: SendEnv)
    requires !Run(actions).s.client.connected
    ensures var before := Run(actions);
            var (after, r) := Send(before, now, env);
            var batch := Batch(Restrict(before.s.telemetry, before.s.taintedTelemetry), now * 1000);
            && r.Returns?
            && after.s.pending == before.s.pending + (if before.s.taintedTelemetry == {} then [] else [batch])
            && after.log.handled == before.log.handled && after.log.attributeSends == before.log.attributeSends
            && after.s.taintedTelemetry == {} && after.s.taintedAttributes == {}
  {
    var before := Run(actions);
    AttributesConverge(actions);
    TaintedAreKeysOfRun(actions);
    FlushTelemetryExact(before, now, env.telemetry);
    FlushTelemetryFrame(before, now, env.telemetry);
    FlushAttributesExact(FlushTelemetry(before, now, env.telemetry).0, env.attributes);
    if before.s.taintedTelemetry == {} {
      assert before.s.pending + [] == before.s.pending;
    }
  }

  // ----- a connect -----

  /** How an accepted connect ends. It subscribes first; if that throws nothing else
      happens. Then it resends all attributes, if there are any; if that throws the queue is
      not touched. Then it hands over the queue from the front, up to the first batch whose
      publish throws. Any throw ends the run. */
  lemma ConnectExact(sys: System, env: ConnectEnv) returns (n: nat)
    requires !sys.log.dead
    ensures n <= |sys.s.pending|
    ensures var after := Connect(sys, 0, env);
            var resends := sys.s.attributes != map[];
            var sends := sys.log.attributeSends +
                         (if resends then [AttributeSend(sys.s.attributes, FateOf(env.attributes))] else []);
            && after.s == sys.s.(pending := sys.s.pending[n..], client := after.s.client)
            && after.s.client.record[2] ==
               sys.s.client.record[2] + (if env.subscribe.Failure? then [] else [RPC_FILTER])
            && (if env.subscribe.Failure? || (resends && env.attributes.Failure?) then
                  n == 0 && after.log == sys.log.(dead := true)
                else
                  && (forall i: nat | i < n :: !env.drain(i).Failure?)
                  && (n < |sys.s.pending| ==> env.drain(n).Failure?)
                  && after.log == sys.log.(attributeSends := sends,
                                           handled := sys.log.handled + HandedOver(sys.s.pending[..n], env.drain, 0),
                                           dead := n < |sys.s.pending|))
  {
    n := 0;
    var flagged := sys.(s := sys.s.(client := OnConnect(sys.s.client, 0, env.replay)));
    var (client, r1) := Subscribe(flagged.s.client, RPC_FILTER, 2, env.subscribe);
    var subscribed := flagged.(s := flagged.s.(client := client));
    if r1.Returns? {
      var (resent, r2) := if sys.s.attributes == map[] then (subscribed, Returns(()))
                          else SendAttributes(subscribed, sys.s.attributes, env.attributes);
      if r2.Returns? {
        n := DrainExact(resent, env.drain, 0);
        if sys.s.attributes == map[] {
          assert sys.log.attributeSends + [] == sys.log.attributeSends;
        }
      }
    }
  }

  // ----- what the histories say -----

  ghost predicate LastMention(sends: seq<AttributeSend>, key: Key, i: nat) {
    i < |sends| && key in sends[i].values && forall j | i < j < |sends| :: key !in sends[j].values
  }

  lemma {:induction false} StaleIff(sends: seq<AttributeSend>, key: Key)
    ensures Stale(sends, key) <==> exists i: nat :: LastMention(sends, key, i) && sends[i].fate.Dropped?
  {
    if sends != [] {
      var n := |sends| - 1;
      StaleIff(sends[..n], key);
      if key in sends[n].values {
        assert LastMention(sends, key, n);
      } else {
        forall i: nat ensures LastMention(sends, key, i) <==> LastMention(sends[..n], key, i) {}
      }
    }
  }

  ghost predicate LastAccepted(sends: seq<AttributeSend>, key: Key, i: nat) {
    && i < |sends| && key in sends[i].values && sends[i].fate.Accepted?
    && forall j | i < j < |sends| :: !(key in sends[j].values && sends[j].fate.Accepted?)
  }

  /** The broker's merged attributes hold, for each key, the last accepted value. */
  lemma {:induction false} AttributeViewIsLastAccepted(sends: seq<AttributeSend>, key: Key)
    ensures key in AttributeView(sends) <==> exists i: nat :: LastAccepted(sends, key, i)
    ensures forall i: nat | LastAccepted(sends, key, i) ::
              key in AttributeView(sends) && AttributeView(sends)[key] == sends[i].values[key]
  {
    if sends != [] {
      var n := |sends| - 1;
      AttributeViewIsLastAccepted(sends[..n], key);
      if key in sends[n].values && sends[n].fate.Accepted? {
        assert LastAccepted(sends, key, n);
      } else {
        forall i: nat ensures LastAccepted(sends, key, i) <==> LastAccepted(sends[..n], key, i) {}
      }
    }
  }

  ghost predicate LastGiven(handled: seq<Handled>, key: Key, i: nat) {
    && i < |handled| && key in handled[i].batch.values
    && forall j | i < j < |handled| :: key !in handled[j].batch.values
  }

  lemma {:induction false} LostKeyIff(handled: seq<Handled>, key: Key)
    ensures LostKey(handled, key) <==> exists i: nat :: LastGiven(handled, key, i) && handled[i].fate.Dropped?
  {
    if handled != [] {
      var n := |handled| - 1;
      LostKeyIff(handled[..n], key);
      if key in handled[n].batch.values {
        assert LastGiven(handled, key, n);
      } else {
        forall i: nat ensures LastGiven(handled, key, i) <==> LastGiven(handled[..n], key, i) {}
      }
    }
  }

  /** Telemetry, attributes and RPC requests do not share topics. */
  lemma TopicsDiffer()
    ensures TELEMETRY_TOPIC != ATTRIBUTES_TOPIC
    ensures !(RPC_TOPIC <= TELEMETRY_TOPIC) && !(RPC_TOPIC <= ATTRIBUTES_TOPIC) && RPC_TOPIC <= RPC_FILTER
  {
    assert TELEMETRY_TOPIC[14] == 't' && ATTRIBUTES_TOPIC[14] == 'a' && RPC_TOPIC[14] == 'r';
  }
}
