/** The store-and-forward controller as a state machine on values: its fields, the
    ghost histories that its promises are about, and one function per method. */
module ControllerModel {
  import opened Json
  import opened Mqtt
  import opened Wrappers

  type Key = string
  type Values = map<Key, Json>

  // The topics of the build configuration
  const TELEMETRY_TOPIC: Topic := "v1/devices/me/telemetry"
  const ATTRIBUTES_TOPIC: Topic := "v1/devices/me/attributes"
  const RPC_TOPIC: Topic := "v1/devices/me/rpc/request"
  const RPC_FILTER: Topic := RPC_TOPIC + "/+"

  /** A telemetry payload: the changed values and the time of the `send`. */
  datatype Batch = Batch(values: Values, ts: int)

  /** What became of a payload given to `publish`: it went out, or publish returned
      false and nobody kept it. */
  datatype Fate = Accepted | Dropped

  datatype Handled = Handled(batch: Batch, fate: Fate)

  /** An attribute payload given to `publish`: the tainted part or the whole map. */
  datatype AttributeSend = AttributeSend(values: Values, fate: Fate)

  datatype Passed = Passed(key: Key, value: Json)

  datatype State = State(
    telemetry: Values,
    taintedTelemetry: set<Key>,
    attributes: Values,
    taintedAttributes: set<Key>,
    pending: seq<Batch>,
    client: Client
  )

  datatype Log = Log(
    passed: seq<Passed>,           // every publishTelemetry call
    passedAttributes: seq<Passed>, // every setAttribute call
    emitted: seq<Batch>,           // every batch that send() handed off
    handled: seq<Handled>,         // every batch given to publish, with its fate
    attributeSends: seq<AttributeSend>,
    dead: bool                     // an exception left a libmosquitto callback
  )

  datatype System = System(s: State, log: Log)

  const START: System :=
    System(State(map[], {}, map[], {}, [], Mqtt.INITIAL), Log([], [], [], [], [], false))

  // ----- setting values -----

  /** The value stored by `publishTelemetry` and `setAttribute`, and whether the key
      becomes tainted: only a value that differs, as JSON, replaces the old one. */
  predicate Changes(data: Values, key: Key, value: Json) {
    key !in data || !JsonEq(data[key], value)
  }

  function PublishTelemetry(sys: System, key: Key, value: Json): System {
    var s := sys.s;
    var s' := if Changes(s.telemetry, key, value)
              then s.(telemetry := s.telemetry[key := value], taintedTelemetry := s.taintedTelemetry + {key})
              else s;
    System(s', sys.log.(passed := sys.log.passed + [Passed(key, value)]))
  }

  function SetAttribute(sys: System, key: Key, value: Json): System {
    var s := sys.s;
    var s' := if Changes(s.attributes, key, value)
              then s.(attributes := s.attributes[key := value], taintedAttributes := s.taintedAttributes + {key})
              else s;
    System(s', sys.log.(passedAttributes := sys.log.passedAttributes + [Passed(key, value)]))
  }

  // ----- send -----

  /** `map[key]` for each of these keys: a missing one is inserted with null. */
  function Filled(data: Values, keys: set<Key>): Values {
    map k: Key | k in data.Keys + keys :: if k in data then data[k] else Null
  }

  function Restrict(data: Values, keys: set<Key>): Values {
    map k: Key | k in keys && k in data :: data[k]
  }

  function FateOf(rc: Rc): Fate {
    if rc.Success? then Accepted else Dropped
  }

  function SendTelemetry(sys: System, batch: Batch, rc: Rc): (System, Outcome<()>) {
    if sys.s.client.connected then
      if rc.Failure? then (sys, Throws)
      else (sys.(log := sys.log.(emitted := sys.log.emitted + [batch],
                                 handled := sys.log.handled + [Handled(batch, FateOf(rc))])),
            Returns(()))
    else
      (System(sys.s.(pending := sys.s.pending + [batch]), sys.log.(emitted := sys.log.emitted + [batch])),
       Returns(()))
  }

  function SendAttributes(sys: System, values: Values, rc: Rc): (System, Outcome<()>) {
    if sys.s.client.connected then
      if rc.Failure? then (sys, Throws)
      else (sys.(log := sys.log.(attributeSends := sys.log.attributeSends + [AttributeSend(values, FateOf(rc))])),
            Returns(()))
    else (sys, Returns(()))
  }

  function FlushTelemetry(sys: System, now: int, rc: Rc): (System, Outcome<()>) {
    var s := sys.s;
    if s.taintedTelemetry == {} then (sys, Returns(()))
    else
      var data := Filled(s.telemetry, s.taintedTelemetry);
      var batch := Batch(Restrict(data, s.taintedTelemetry), now * 1000);
      var (sent, r) := SendTelemetry(sys.(s := s.(telemetry := data)), batch, rc);
      if r.Throws? then (sent, Throws) else (sent.(s := sent.s.(taintedTelemetry := {})), Returns(()))
  }

  function FlushAttributes(sys: System, rc: Rc): (System, Outcome<()>) {
    var s := sys.s;
    if s.taintedAttributes == {} then (sys, Returns(()))
    else
      var data := Filled(s.attributes, s.taintedAttributes);
      var (sent, r) := SendAttributes(sys.(s := s.(attributes := data)), Restrict(data, s.taintedAttributes), rc);
      if r.Throws? then (sent, Throws) else (sent.(s := sent.s.(taintedAttributes := {})), Returns(()))
  }

  /** The return codes of the at most two publishes of one `send`. */
  datatype SendEnv = SendEnv(telemetry: Rc, attributes: Rc)

  function Send(sys: System, now: int, env: SendEnv): (System, Outcome<bool>) {
    var anything := sys.s.taintedTelemetry != {} || sys.s.taintedAttributes != {};
    var (first, r1) := FlushTelemetry(sys, now, env.telemetry);
    if r1.Throws? then (first, Throws)
    else
      var (second, r2) := FlushAttributes(first, env.attributes);
      if r2.Throws? then (second, Throws) else (second, Returns(anything))
  }

  // ----- connect and disconnect -----

  /** The front of the queue has been given to `publish`, which returned. */
  function FrontHandled(sys: System, rc: Rc): System
    requires sys.s.pending != []
  {
    System(sys.s.(pending := sys.s.pending[1..]),
           sys.log.(handled := sys.log.handled + [Handled(sys.s.pending[0], FateOf(rc))]))
  }

  /** The drain of the queue: publish the front, then pop it. `rc(i)` answers the
      i-th publish of this drain. */
  function Drain(sys: System, rc: nat -> Rc, i: nat): (System, Outcome<()>)
    decreases |sys.s.pending|
  {
    if sys.s.pending == [] then (sys, Returns(()))
    else if rc(i).Failure? then (sys, Throws)
    else Drain(FrontHandled(sys, rc(i)), rc, i + 1)
  }

  /** The return codes of one on_connect: the replay, the RPC subscription, the
      attributes and the drain. */
  datatype ConnectEnv = ConnectEnv(replay: nat -> Rc, subscribe: Rc, attributes: Rc, drain: nat -> Rc)

  /** `onMqttConnect`, the user callback. */
  function OnMqttConnect(sys: System, code: int, env: ConnectEnv): (System, Outcome<()>) {
    if code != 0 then (sys, Returns(()))
    else
      var (client, r1) := Subscribe(sys.s.client, RPC_FILTER, 2, env.subscribe);
      var subscribed := sys.(s := sys.s.(client := client));
      if r1.Throws? then (subscribed, Throws)
      else
        var (resent, r2) :=
          if sys.s.attributes == map[] then (subscribed, Returns(()))
          else SendAttributes(subscribed, sys.s.attributes, env.attributes);
        if r2.Throws? then (resent, Throws) else Drain(resent, env.drain, 0)
  }

  /** The whole of a libmosquitto connect callback. An exception that leaves it ends
      the run. */
  function Connect(sys: System, code: int, env: ConnectEnv): System {
    var flagged := sys.(s := sys.s.(client := OnConnect(sys.s.client, code, env.replay)));
    var (after, r) := OnMqttConnect(flagged, code, env);
    if r.Throws? then after.(log := after.log.(dead := true)) else after
  }

  function Disconnect(sys: System): System {
    sys.(s := sys.s.(client := OnDisconnect(sys.s.client)))
  }

  // ----- runs -----

  datatype Action =
    | TelemetryCall(key: Key, value: Json)
    | AttributeCall(key: Key, value: Json)
    | SendCall(now: int, sendEnv: SendEnv)
    | ConnectEvent(code: int, connectEnv: ConnectEnv)
    | DisconnectEvent

  function Step(sys: System, a: Action): System {
    if sys.log.dead then sys
    else match a
      case TelemetryCall(key, value) => PublishTelemetry(sys, key, value)
      case AttributeCall(key, value) => SetAttribute(sys, key, value)
      case SendCall(now, env) => Send(sys, now, env).0
      case ConnectEvent(code, env) => Connect(sys, code, env)
      case DisconnectEvent => Disconnect(sys)
  }

  function Run(actions: seq<Action>): System {
    if actions == [] then START
    else Step(Run(actions[..|actions| - 1]), actions[|actions| - 1])
  }

  // ----- what the histories mean -----

  function Batches(handled: seq<Handled>): seq<Batch> {
    seq(|handled|, i requires 0 <= i < |handled| => handled[i].batch)
  }

  /** The batches with this fate, in order. */
  function WithFate(handled: seq<Handled>, fate: Fate): seq<Batch> {
    if handled == [] then []
    else
      var n := |handled| - 1;
      var before := WithFate(handled[..n], fate);
      if handled[n].fate == fate then before + [handled[n].batch] else before
  }

  /** The map that results from applying the batches one after the other. */
  function Fold(batches: seq<Batch>): Values {
    if batches == [] then map[]
    else Fold(batches[..|batches| - 1]) + batches[|batches| - 1].values
  }

  /** The values that the batches hold for one key. */
  function ValuesFor(batches: seq<Batch>, key: Key): seq<Json> {
    if batches == [] then []
    else
      var n := |batches| - 1;
      var before := ValuesFor(batches[..n], key);
      if key in batches[n].values then before + [batches[n].values[key]] else before
  }

  /** The values that the application passed for one key. */
  function History(passed: seq<Passed>, key: Key): seq<Json> {
    if passed == [] then []
    else
      var n := |passed| - 1;
      var before := History(passed[..n], key);
      if passed[n].key == key then before + [passed[n].value] else before
  }

  /** The broker's view of the telemetry: what it was sent, latest value first. */
  function TelemetryView(log: Log): Values {
    Fold(WithFate(log.handled, Accepted))
  }

  /** The broker's view of the attributes: every accepted payload merged in order. */
  function AttributeView(sends: seq<AttributeSend>): Values {
    if sends == [] then map[]
    else
      var n := |sends| - 1;
      var before := AttributeView(sends[..n]);
      if sends[n].fate.Accepted? then before + sends[n].values else before
  }

  /** The last attribute payload given to publish that mentions this key was dropped. */
  predicate Stale(sends: seq<AttributeSend>, key: Key) {
    sends != [] &&
    (var n := |sends| - 1;
     if key in sends[n].values then sends[n].fate.Dropped? else Stale(sends[..n], key))
  }
}
