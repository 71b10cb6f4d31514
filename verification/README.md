# A verified model of ThingsMQTT

ThingsMQTT is a Lua library, written in C++, that reports telemetry and attributes to a
ThingsBoard server over MQTT. This project models its three stateful parts in Dafny and
proves what they promise, over every run.

**Store and forward** (`ControllerModel`, `ControllerTelemetry`, `ControllerConnection`,
`ControllerHistory`, `Controller`). The controller keeps the latest value of each key and the set of keys that
changed. `send` emits only the changed part. While offline, telemetry goes to a queue that
the next connect drains; attributes are not kept, and the whole map is resent on connect.
`ControllerModel` is the state machine on values, one function per method, with the
histories that the promises are about. The class `Controller` updates its fields in place;
each method is proved to do what its function says, and `Valid()` says that the object is
always in a state `Run(actions)`, so every theorem about runs is a theorem about the object.

**The MQTT client** (`Mqtt`, `MqttSubscriptions`, `MqttHandle`, `MqttClient`, `MqttEvents`,
`MqttClientSingleThread`, `ThreadSafeQueue`, `MqttClientThreadSafe`, `MqttClientInterleaved`). The base class owns the
library handle and the record of subscriptions that is replayed on reconnect. One client calls
the user's callbacks directly; the other encodes them as tagged events, queues them under a
mutex and dispatches them later from another thread. The queue's code is run one machine step
at a time by any number of threads and shown linearizable; the second client, its two threads also
run one machine step at a time, is shown to refine the first.

**JSON and Lua** (`Json`, `Lua`, `LuaUtils`, `Walks`, `LuaTable`, `LuaToJson`, `LuaRoundTrip`). The
two conversions are programs on the Lua stack. They are proved against functions on values; the
tables on which the second never ends, and the values that survive a round trip, are characterised
exactly.

Everything outside is an oracle or a parameter: the return codes of libmosquitto, the events it
reports, the clock, the order in which `items()` and `lua_next` visit keys, the narrowing of a
double to a float, the way Lua writes a number (`LuaRoundTrip.SaneIsPossible` shows that what is
assumed of these can be met). The broker is a table of filters for the current
session, by MQTT 3.1.1 sections 3.8.4 (an identical filter replaces the subscription), 3.10.4
(unsubscribe) and 3.1.2.4 (a clean session), and the log of what `publish` accepted. An exception
that leaves a libmosquitto callback ends the run (`dead`).

## Where the code falls short of its documentation

- `publish` answered NO_CONN while the flag is still up loses telemetry for good, in two places:
  `send` ignores the answer and clears the taint (`NoConnLosesTelemetry`), and the drain on connect
  ignores it and pops (`DrainLosesTelemetry`). `DeliveryAgreesIff` says, for every run and every key,
  exactly when what is delivered agrees with the map. `SendKeepsDeliveryIff` and
  `ConnectKeepsDeliveryIff` say exactly when one such step is harmless, and `OtherStepsKeepDelivery`
  that no other step does harm. Attributes recover from a drop at the next connect
  (`ConnectSyncsAttributes`).
- The live QoS of a topic need not be the one that a reconnect restores: subscribing again at a
  lower QoS holds until the replay raises it (`DowngradeIsUndoneByReconnect`), and
  `SubscribeKeepsMeaningIff` gives the exact condition.
- `lua-docs/thingsmqtt.lua` lets a telemetry value be anything, but an array or object inside
  another always ends in a Lua error, because the recursive call passes index -1 and then indexes
  past its own push (`NestedArrayThrows`, `NestedObjectThrows`). Booleans come back as numbers,
  an empty array as an object. `RoundTripIff` is the complete answer.
- Every reconnect adds one more copy of the RPC filter to the record and replays all of them:
  n(n+1)/2 requests after n connects (`ReconnectCost`).
- `configure` lets a failure of `mosquitto_new` with an errno other than ENOMEM and EINVAL pass and
  gives the null handle to the next calls of libmosquitto, whose outcome the repository does not
  say. That happens exactly if such an attempt comes before the first that succeeds
  (`FirstDecisiveAttemptWins`).
- On a table that has two different keys written the same way, say `5` and `"5"`,
  `lua_value_to_json` may never return, because it converts the number key in place and `lua_next`
  goes on from the string key. `ObjectLoopRunsForeverIff` says exactly when. It depends on the order
  in which the table is visited (`TwinOrderDecides`); in the other order a value is lost.
- The comment on `send` says that it returns true if telemetry was sent. It returns true whenever
  anything was tainted, attributes included, even if the payload was queued, dropped or ignored.

## Model

| member | source | states |
|---|---|---|
| Json.JsonEqReflexive | src/nlohmann/json.hpp:23622-23691 | a value equals itself, for JSON of any nesting |
| Json.JsonEqSymmetric | src/nlohmann/json.hpp:23622-23691 | equality across number kinds is symmetric |
| Json.JsonEqIsIdentity | src/nlohmann/json.hpp:23622-23691 | for JSON of any nesting in which no number is compared with a number of another kind, equality is identity |
| Json.NumbersEqIff | src/nlohmann/json.hpp:23662-23685 | numbers of any two kinds are equal exactly if their values agree, two integers modulo 2^64 |
| Json.JsonEqIff | src/nlohmann/json.hpp:23622-23691 | in general two values are equal exactly if one becomes the other by writing some numbers in the other's kind |
| Json.JsonEqNotTransitive | src/nlohmann/json.hpp:23662-23685 | mixed number kinds make equality not transitive: a concrete triple |
| Controller.Controller.PublishTelemetry | src/controller.cpp:43-57 | a value equal as JSON to the stored one changes nothing; any other is stored under its key and taints it; the object stays in a state of the model's run |
| Controller.Controller.SetAttribute | src/controller.cpp:59-73 | the same for attributes |
| ControllerHistory.AttributesAreLastPassed | src/controller.cpp:59-73 | every run: the attribute map has exactly the keys passed, each with a value passed for it that equals the last one |
| ControllerHistory.TelemetryIsLastPassed | src/controller.cpp:43-57 | every run: the telemetry map has exactly the keys passed, each equal to the last value passed |
| ControllerHistory.PassedIsCalled | src/controller.cpp:43-73 | every run: what was passed is what the calls say, in order |
| ControllerHistory.CallSetsOneKey | src/controller.cpp:43-73 | one call stores and taints exactly if the key is new or the value differs, and leaves the other keys and the rest of the state alone |
| Controller.Controller.Collect | src/controller.cpp:80-83 | the loop over the tainted keys, in any order, builds the map restricted to them; a missing key would be inserted as null |
| Controller.Controller.SendTelemetry | src/controller.cpp:132-140 | connected: published with its fate, or a throw that changes nothing; offline: queued |
| Controller.Controller.SendAttributes | src/controller.cpp:142-150 | connected: published with its fate, or a throw that changes nothing; offline: nothing happens |
| Controller.Controller.Send | src/controller.cpp:75-116 | the whole new state and result, for both publishes under any return codes |
| Controller.Controller.OnMqttConnect | src/controller.cpp:152-176 | subscribe, resend all attributes, drain, each stopped by a throw |
| Controller.Controller.DrainPending | src/controller.cpp:170-175 | the loop does what the recursive drain says, throw included |
| Controller.Controller.HandleConnect | src/mqtt/mqtt-client-singlethread.cpp:40-59 | replay, flag, then the controller's callback; an escaping exception ends the run |
| Controller.Controller.HandleDisconnect | src/mqtt/mqtt-client-singlethread.cpp:61-71 | the flag is down afterwards, the session gone, all else kept |
| Controller.Controller.Loop | src/controller.cpp:118-120 | a lost connection lowers the flag like a disconnect, any other outcome changes nothing; when it throws |
| ControllerHistory.ConnectedIff | src/mqtt/mqtt-client-singlethread.cpp:40-71 | every run: the flag is up exactly if the last connect, disconnect or lost connection was an accepted connect |
| ControllerHistory.SendAfterDisconnectQueues | src/controller.cpp:132-150 | what is sent after a disconnect, with no accepted connect since, is appended to the queue and nothing is published |
| ControllerHistory.ConnectExact | src/controller.cpp:152-176 | how an accepted connect ends under any return codes: subscribe, then resend, then drain, each only if the one before did not throw |
| ControllerTelemetry.DrainExact | src/controller.cpp:170-175 | the drain hands over a prefix in order, each batch with its own fate; it stops only at the first failing publish, which stays queued with all behind it |
| ControllerTelemetry.StoreAndForward | src/controller.cpp:132-140 | every run, any return codes: handled then pending is exactly what was emitted, in order; connected means nothing pending; without drops accepted then pending is what was emitted |
| ControllerTelemetry.EveryBatchHasOneFate | src/controller.cpp:78-97 | every run: each emitted batch is in exactly one of accepted, dropped, pending |
| ControllerTelemetry.DeliveredIsSubsequenceOfPassed | src/controller.cpp:43-57 | every run and key: delivered values sit at strictly increasing positions of the passed ones; untainted and not dropped last means the last one equals the last passed |
| ControllerTelemetry.EmittedFoldsToTheMap | src/controller.cpp:78-97 | every run: the fold of all emitted batches overlaid with the tainted part is the map |
| ControllerTelemetry.DeliveryAgreesIff | src/controller.cpp:78-97 | every run and key: accepted, pending and tainted together hold the map's value exactly if the last publish that mentioned the key was not dropped, or the key is still to be sent, or the broker has the value all the same |
| ControllerTelemetry.DeltaLogRefinesTheMap | src/controller.cpp:78-97 | every run without drops: accepted, pending and tainted together fold to the map |
| ControllerConnection.SendKeepsTheMaps | src/controller.cpp:81-106 | every run: tainted keys are keys of their maps, so send never changes telemetry or attributes |
| ControllerTelemetry.SendKeepsDeliveryIff | src/controller.cpp:132-140 | any send keeps delivery equal to the map exactly if it is offline, or publish did not report NO_CONN, or the broker had those values already |
| ControllerTelemetry.ConnectKeepsDeliveryIff | src/controller.cpp:170-175 | any connect keeps it exactly if each key whose last batch in the drain was dropped is still to be sent or has its value at the broker |
| ControllerTelemetry.OtherStepsKeepDelivery | src/controller.cpp:43-73 | every other call or event keeps it |
| ControllerTelemetry.FlushTelemetryExact | src/controller.cpp:78-97 | the telemetry part of send is nothing at all or one batch of exactly the tainted values, stamped in milliseconds |
| ControllerConnection.FlushAttributesExact | src/controller.cpp:99-113 | the attribute part of send is nothing at all or one payload of exactly the tainted values, published while connected and forgotten while offline |
| ControllerTelemetry.SendOutcome | src/controller.cpp:75-116 | every run: returning leaves no taint; true means something was tainted, false that nothing at all happened; the exact condition for a throw |
| ControllerTelemetry.ThrowLeavesNoTrace | src/controller.cpp:90-94 | a throw from the telemetry publish leaves the whole state as it was |
| ControllerTelemetry.TaintGrowsUntilSend | src/controller.cpp:43-57 | calls and network events other than send never untaint a key |
| ControllerTelemetry.NextBatchCoversThrownOne | src/controller.cpp:78-97 | after such a throw the next batch handed off holds at least the same keys, whatever came between |
| ControllerConnection.AttributesConverge | src/controller.cpp:142-150 | every run: while connected the broker's merged attributes have the map's value of every untainted key, unless the last payload that mentions this key was dropped |
| ControllerHistory.AttributeViewIsLastAccepted | src/controller.cpp:142-150 | the broker's merged attributes hold for each key the last accepted value |
| ControllerHistory.StaleIff | src/controller.cpp:142-150 | a key is stale exactly if the last payload that mentions it was dropped |
| ControllerHistory.LostKeyIff | src/controller.cpp:132-140 | a key is lost exactly if the last telemetry batch given to publish that mentions it was dropped |
| ControllerConnection.ConnectSyncsAttributes | src/controller.cpp:161-168 | an accepted connect whose attribute publish goes out makes the broker's view the whole map, whatever was lost before |
| ControllerConnection.RefusedConnectSendsNothing | src/controller.cpp:153-156 | a refused connect leaves queue, data, taints and histories as they were |
| ControllerConnection.ConnectAndSendRecover | src/controller.cpp:152-176 | from any reachable state, connect then send leave nothing tainted or pending, the broker's attributes equal to the map, and its telemetry right at exactly the keys that were not lost; all of it if nothing was dropped |
| ControllerConnection.NoConnLosesTelemetry | src/controller.cpp:93-94 | a concrete run in which a NO_CONN answer to send loses a value for good |
| ControllerConnection.DrainLosesTelemetry | src/controller.cpp:170-175 | a concrete run in which every publish of send succeeds and a NO_CONN answer to the drain loses a value for good |
| ControllerConnection.ReconnectCost | src/controller.cpp:158-159 | every run: n accepted connects leave exactly n copies of the filter and n(n+1)/2 requests, plus the copies replayed on refused connects |
| ControllerConnection.BrokerHoldsRpcFilterIff | src/mqtt/mqtt-client-singlethread.cpp:45-51 | after an accepted connect the broker holds just the RPC filter at QoS 2 exactly if one of all those requests succeeded |
| ControllerConnection.ConnectedMeansSubscribed | src/controller.cpp:152-159 | every run whose own subscriptions succeed: connected means that one filter at QoS 2, disconnected means no session |
| ControllerHistory.TopicsDiffer | CMakeLists.txt:7-9 | telemetry, attributes and RPC requests do not share topics |
| Mqtt.ReplayKeepsHighestGranted | src/mqtt/mqtt-client-singlethread.cpp:45-51 | replay under any answers leaves a topic at the highest QoS for which a request succeeded, or unsubscribed |
| Mqtt.ReplayMeaning | src/mqtt/mqtt-client-singlethread.cpp:45-51 | an all-successful replay from an empty session leaves each recorded topic at the highest list holding it, and nothing else |
| Mqtt.LastGrantedWins | src/mqtt/mqtt-client-singlethread.cpp:47-50 | of any sequence of requests the last successful one for a topic decides its QoS |
| Mqtt.WithoutIsFilter | src/mqtt/mqtt-client.cpp:101-106 | the compaction removes every copy of the topic, keeps all else and its order |
| Mqtt.UnsubscribeIsFilter | src/mqtt/mqtt-client.cpp:93-108 | the same for each QoS list of an unsubscribe; a throw leaves the lists alone |
| Mqtt.SubscribeIsAppend | src/mqtt/mqtt-client.cpp:83-91 | throws on a failure only, and then leaves the lists alone; on success and on NO_CONN the topic goes to the end of the list of its QoS and no other list changes |
| MqttSubscriptions.RecordedIff | src/mqtt/mqtt-client.cpp:83-108 | every run, connected or not: a topic is in the list of a QoS exactly if it was subscribed at it and not unsubscribed since |
| MqttSubscriptions.ConnectedIff | src/mqtt/mqtt-client-singlethread.cpp:53-66 | every run: the flag is up exactly if the last connect or disconnect was an accepted connect |
| MqttSubscriptions.OfflineSubscriptionGoesLive | src/mqtt/mqtt-client.cpp:85-90 | what is subscribed while offline is live after the next accepted connect whose replay succeeds, at no less than its QoS |
| MqttSubscriptions.RecordAgreesWithBroker | src/mqtt/mqtt-client.cpp:83-108 | every run with requests succeeding while connected: the broker's filters are exactly the recorded topics, at no more than their highest QoS |
| MqttSubscriptions.LiveQosIsRecordedQos | src/mqtt/mqtt-client.cpp:83-108 | every such run without downgrades: the broker's table is the meaning of the record, QoS included |
| MqttSubscriptions.SubscribeKeepsMeaningIff | src/mqtt/mqtt-client.cpp:83-91 | a successful subscribe keeps that exactly if it does not ask for less than is recorded |
| MqttSubscriptions.UnsubscribeKeepsMeaning | src/mqtt/mqtt-client.cpp:93-108 | a successful unsubscribe always keeps it |
| MqttSubscriptions.DowngradeIsUndoneByReconnect | src/mqtt/mqtt-client-singlethread.cpp:45-51 | a concrete run where the live QoS is 0 and a reconnect makes it 2 |
| MqttHandle.HandlesAreDestroyedOnce | src/mqtt/mqtt-client.cpp:4-60 | any configure attempts: created minus destroyed is 1 exactly when the handle is set; after the destructor each was destroyed once |
| MqttHandle.FirstDecisiveAttemptWins | src/mqtt/mqtt-client.cpp:21-58 | any configure attempts: libmosquitto is given a null handle exactly if an unchecked mosquitto_new failure comes before the first success, and the handle is set exactly if the success comes first |
| MqttHandle.ConfigureReturnsIff | src/mqtt/mqtt-client.cpp:13-61 | any attempts: configure returns exactly if the library is initialised and the handle is set afterwards; a throw leaves the handle as it was |
| MqttClient.MqttClient.Configure | src/mqtt/mqtt-client.cpp:13-61 | new state and outcome on every path of early return, throw and destroy, or the fault of passing on a null handle; every handle stays accounted for |
| MqttClient.MqttClient.Close | src/mqtt/mqtt-client.cpp:4-11 | the destructor destroys what is left; nothing created is left alive |
| MqttClient.MqttClient.Subscribe | src/mqtt/mqtt-client.cpp:83-91 | recorded at the end of its list on success and on NO_CONN, a throw exactly on any other code; the broker end of it |
| MqttClient.MqttClient.Unsubscribe | src/mqtt/mqtt-client.cpp:93-108 | the loop over the lists filters each of the three; nothing on a throw |
| MqttClient.MqttClient.RemoveIf | src/mqtt/mqtt-client.cpp:101-103 | the loop computes the recursive filter |
| MqttClient.MqttClient.Publish | src/mqtt/mqtt-client.cpp:110-125 | return code to true, false or throw; only success hands the payload over |
| MqttClient.MqttClient.Replay | src/mqtt/mqtt-client-threadsafe.cpp:83-89 | the nested loops make exactly the requests of the record, list by list, under any answers |
| MqttClientSingleThread.MqttClientSingleThread.Loop | src/mqtt/mqtt-client-singlethread.cpp:10-23 | a lost connection lowers the flag silently and nothing else does; other failures throw |
| MqttClientSingleThread.MqttClientSingleThread.OnConnect | src/mqtt/mqtt-client-singlethread.cpp:40-59 | replay, flag and the one callback call, in that order, for any code |
| MqttClientSingleThread.MqttClientSingleThread.OnDisconnect | src/mqtt/mqtt-client-singlethread.cpp:61-71 | the flag is down, and the callback call |
| MqttClientSingleThread.MqttClientSingleThread.OnMessage | src/mqtt/mqtt-client-singlethread.cpp:82-94 | the callback call with the converted arguments |
| MqttClientSingleThread.MqttClientSingleThread.OnPublish | src/mqtt/mqtt-client-singlethread.cpp:73-80 | the callback call, if one is set |
| MqttClientSingleThread.MqttClientSingleThread.OnSubscribe | src/mqtt/mqtt-client-singlethread.cpp:96-105 | the callback call, without the granted QoS |
| MqttClientSingleThread.MqttClientSingleThread.OnUnsubscribe | src/mqtt/mqtt-client-singlethread.cpp:107-114 | the callback call, if one is set |
| MqttEvents.DirectCallTells | src/mqtt/mqtt-client-singlethread.cpp:56-114 | each event makes one call if its own callback is set and none otherwise; the call is of the event's kind and carries its arguments |
| ThreadSafeQueue.ThreadSafeQueue.Push | src/threadsafe-queue.hpp:30-33 | acts as one push of an atomic FIFO |
| ThreadSafeQueue.ThreadSafeQueue.Emplace | src/threadsafe-queue.hpp:38-42 | acts as one push of an atomic FIFO |
| ThreadSafeQueue.ThreadSafeQueue.Pop | src/threadsafe-queue.hpp:48-56 | acts as one pop of an atomic FIFO: the front, or nothing when empty |
| ThreadSafeQueue.ThreadSafeQueue.Size | src/threadsafe-queue.hpp:22-25 | returns the length and changes nothing |
| ThreadSafeQueue.MutualExclusion | src/threadsafe-queue.hpp:31 | any number of threads, any interleaving: at most one is between lock and unlock |
| ThreadSafeQueue.NeverPopsEmpty | src/threadsafe-queue.hpp:50-54 | front and pop never run on an empty queue |
| ThreadSafeQueue.Linearizable | src/threadsafe-queue.hpp:30-56 | each call takes effect once between call and return and returns that effect's result; the effects are a run of an atomic FIFO ending in the real contents |
| ThreadSafeQueue.PoppedThenQueuedIsPushed | src/threadsafe-queue.hpp:30-56 | popped then queued is pushed, in order |
| ThreadSafeQueue.EffectsAreFifo | src/threadsafe-queue.hpp:22-56 | every schedule: a pop takes the oldest element pushed and not popped, and finds nothing exactly if there is none; a size counts them |
| ThreadSafeQueue.CallCompletes | src/threadsafe-queue.hpp:30-56 | with the mutex free a call completes on its own in five steps, or seven for a pop that finds something, and leaves it free |
| ThreadSafeQueue.MutexIsReleased | src/threadsafe-queue.hpp:30-56 | every schedule: whoever holds the mutex gives it back within four steps of its own |
| MqttClientThreadSafe.DispatchOfEncode | src/mqtt/mqtt-client-threadsafe.cpp:12-53 | the tagged union is transparent: encode then dispatch is the direct call, reading only the member that was written |
| MqttClientThreadSafe.MqttClientThreadSafe.OnConnect | src/mqtt/mqtt-client-threadsafe.cpp:78-98 | replay and flag as in the direct client, and the encoded event at the end of the queue |
| MqttClientThreadSafe.MqttClientThreadSafe.OnDisconnect | src/mqtt/mqtt-client-threadsafe.cpp:100-111 | the flag is down, and the encoded event queued |
| MqttClientThreadSafe.MqttClientThreadSafe.OnPublish | src/mqtt/mqtt-client-threadsafe.cpp:113-121 | the encoded event queued |
| MqttClientThreadSafe.MqttClientThreadSafe.OnMessage | src/mqtt/mqtt-client-threadsafe.cpp:123-136 | the encoded event queued |
| MqttClientThreadSafe.MqttClientThreadSafe.OnSubscribe | src/mqtt/mqtt-client-threadsafe.cpp:138-148 | the encoded event queued |
| MqttClientThreadSafe.MqttClientThreadSafe.OnUnsubscribe | src/mqtt/mqtt-client-threadsafe.cpp:150-158 | the encoded event queued |
| MqttClientThreadSafe.MqttClientThreadSafe.Loop | src/mqtt/mqtt-client-threadsafe.cpp:12-53 | one call, with arrivals before every pop: it ends at the first pop that finds the queue empty, and dispatches the entry queue and then the arrivals before that pop, in order; each earlier pop finds an event |
| MqttClientThreadSafe.RefinesDirectClient | src/mqtt/mqtt-client-threadsafe.cpp:78-158 | every interleaving: the calls made are the direct client's calls for a prefix of the events, all of them once drained; no wrong union member is read |
| MqttClientThreadSafe.CanAlwaysDrain | src/mqtt/mqtt-client-threadsafe.cpp:12-53 | from every reachable state the threads can go on until every reported event has had its call |
| MqttClientInterleaved.RefinesCoarseMachine | src/mqtt/mqtt-client-threadsafe.cpp:78-158 | the network thread (store the flag, then emplace step by step) and the main thread (pop step by step, then call) in any interleaving: every run maps to a run of the machine with atomic enqueue and pop |
| MqttClientInterleaved.RefinesDirectClient | src/threadsafe-queue.hpp:30-56 | every interleaving of those steps: the calls made are the direct client's calls for a prefix of the reported events, all of them once drained; front and pop never meet an empty queue |
| MqttClientInterleaved.ConnectedLeadsTheLog | src/mqtt/mqtt-client-threadsafe.cpp:91-111 | every interleaving of those steps: the flag is what the last connect or disconnect of the whole log says |
| MqttClientInterleaved.CanAlwaysDrain | src/threadsafe-queue.hpp:30-56 | the same step by step: no deadlock between the two threads |
| MqttClientThreadSafe.ConnectedLeadsTheLog | src/mqtt/mqtt-client-threadsafe.cpp:91-111 | every interleaving: the flag is what the last connect or disconnect among dispatched, held, queued and in-flight events says |
| MqttClientThreadSafe.FlagMayRunAhead | src/mqtt/mqtt-client-threadsafe.cpp:91-97 | a concrete run where the flag is up before any callback |
| Lua.LuaState.SetTable | src/lua-utils.cpp:84 | assigns or, with nil, removes; pops key and value; index relative to the stack before |
| Lua.LuaState.GetTable | src/lua-utils.cpp:29 | replaces the key by the value or nil; a number in the table's place is an error |
| Lua.LuaState.Next | src/lua-utils.cpp:35 | next pair in the visiting order, the end, or an error for an unknown key |
| Lua.LuaState.CheckString | src/lua-utils.cpp:36 | strings as C strings, numbers converted in place, else an error |
| LuaUtils.JsonToValue | src/lua-utils.cpp:59-101 | JSON of any nesting: one more slot, all below and every old table untouched; the slot holds the denoted value in new tables: nil, the same boolean, the number (32 bits, or narrowed), the string before its first NUL, or a table |
| LuaUtils.ObjectToValue | src/lua-utils.cpp:79-87 | the member loop builds the denoted table |
| LuaUtils.ArrayToValue | src/lua-utils.cpp:88-96 | the element loop builds the denoted table |
| LuaRoundTrip.ArrayMeaning | src/lua-utils.cpp:88-96 | elements of any nesting sit at indices from 1, nulls are absent, nothing else is there |
| LuaRoundTrip.ObjectMeaning | src/lua-utils.cpp:79-87 | members of any nesting sit under their names, nulls are absent, nothing else is there, when no name holds a NUL |
| LuaRoundTrip.ObjectMeaningByName | src/lua-utils.cpp:81-85 | names that hold a NUL as well: of the members whose names C reads alike the last one visited decides, and a null removes |
| LuaRoundTrip.ScalarMeaning | src/lua-utils.cpp:60-78 | what a member that is a scalar means in Lua, kind by kind |
| LuaToJson.ValueToJson | src/lua-utils.cpp:3-57 | wherever it ends: nil gives null, true 1, false 0, a number the same number (modulo 2^64), a string itself before its first NUL; a table what its entries say, or an error; and the stack is as at entry |
| LuaTable.ReadTableSays | src/lua-utils.cpp:30-52 | an array has one element for each key in visiting order, an object the names met, each saying what its value is; an array errs exactly if it holds a table |
| LuaTable.ObjectLoopRunsForeverIff | src/lua-utils.cpp:35-40 | the object loop never ends exactly if it gets through two different keys that are written the same way, and exactly if it has not ended after as many rounds as there are keys |
| LuaTable.NoTwinsEnds | src/lua-utils.cpp:35-36 | without a number key written like a string key of the table it always ends |
| LuaTable.TwinOrderDecides | src/lua-utils.cpp:35-40 | a concrete table of two keys: visited string first it never ends, visited number first it ends and the string's value is lost |
| LuaTable.EarlierTwinMayEnd | src/lua-utils.cpp:35-36 | to reach a number whose string lies earlier in the visiting order is not enough for that: a table where the loop then ends |
| LuaTable.TextTableReads | src/lua-utils.cpp:30-41 | a table of string keys becomes the object with just those members, and an error exactly if one of them is a table |
| LuaToJson.ReadObject | src/lua-utils.cpp:31-41 | the object loop, for any visiting order |
| LuaToJson.ReadArray | src/lua-utils.cpp:44-51 | the array loop |
| LuaRoundTrip.ScalarRoundTripIff | src/lua-utils.cpp:60-78 | the exact scalars that come back JSON-equal |
| LuaRoundTrip.ArrayRoundTripIff | src/lua-utils.cpp:42-52 | the exact arrays that come back |
| LuaRoundTrip.ObjectRoundTripIff | src/lua-utils.cpp:30-41 | the exact objects that come back, in any visiting order |
| LuaRoundTrip.NestedArrayThrows | src/lua-utils.cpp:48 | a container inside an array cannot be read back |
| LuaRoundTrip.NestedObjectThrows | src/lua-utils.cpp:37 | a container inside an object cannot be read back |
| LuaRoundTrip.RoundTripIff | src/lua-utils.cpp:3-101 | for every JSON value: to Lua and back gives a JSON-equal value exactly if it survives |
| LuaRoundTrip.ThereAndBack | src/lua-utils.cpp:3-101 | the same for the two stack programs run one after the other |

## Left out

- libmosquitto, sockets, TLS, credentials: foreign code, represented by return codes and events.
- JSON text: a payload is kept as the batch or map that `dump` would write, with its time stamp.
- `Controller::connect`: defaults and range checks only.
- `addRpcHandler`, `removeRpcHandler`, `onMqttMessage`: a counter, a map and one string comparison.
- The Lua binding functions in `src/lua-thingsmqtt.cpp`: argument plumbing.
- The controller over the thread-safe client: the code uses the single-threaded one.
- The vectors of the thread-safe client's subscription record are read by the network thread and
  written by the main thread without a lock; the model gives no meaning to such a race.
- The move constructor of the queue, and that `size` locks a mutex that is not mutable from a const
  member function (it would not compile if it were used); it is modelled as meant.
- Message ids, retained messages, publish QoS and acknowledgements of the broker.
- Json.JsonEqReflexive: floats are reals, so NaN, which equals nothing, and the rounding of large
  integers when compared with floats are not modelled.
- LuaToJson.ValueToJson: required to end (`LuaTable.Ends`), since Dafny methods do; the other tables
  are those of `ObjectLoopRunsForeverIff`. Only positive indices and -1, the ones the source uses,
  are covered.
- MqttClient.MqttClient.Subscribe: called before `configure`, it would give a null handle to
  libmosquitto, and so would `unsubscribe` and `publish`; these calls are taken to be answered by
  some return code. The controller makes none of them before its first connect callback.
- LuaRoundTrip.RoundTripIff: `lua_next` is taken to visit the keys 1 to n of an array in order, and
  to choose the order of any other table from its set of keys; the cast of a number beyond 64 bits,
  undefined in C++, wraps.
- Lua stack overflow, memory errors and metatables of values other than tables and numbers.
