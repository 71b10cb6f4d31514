/** `MqttClientThreadSafe`: a network thread encodes its callbacks as tagged events
    and queues them; the main thread takes them out in `loop` and makes the calls.

    The class follows the source method by method. The state machine interleaves the two
    threads and shows that the main thread's calls refine those of the single-threaded
    client. There a push and a pop of the queue are one step each; `MqttClientInterleaved`
    takes them apart. */
module MqttClientThreadSafe {
  import opened Mqtt
  import opened MqttEvents
  import opened MqttClient
  import opened Wrappers
  import opened ThreadSafeQueue

  /** The anonymous union of `MqttEvent`, with the member that was last written. */
  datatype Cell = Rc(rc: int) | MessageId(messageId: int)

  datatype EventType = Connect | Disconnect | Publish | Message | Subscribe | Unsubscribe

  datatype MqttEvent = MqttEvent(
    topic: string,
    payload: string,
    cell: Cell,
    eventType: EventType,
    qos: int,
    retain: bool
  )

  /** The event that a network callback builds; members it does not name are zero. */
  function Encode(e: NetEvent): MqttEvent {
    match e
    case OnConnect(rc) => MqttEvent("", "", Rc(rc), Connect, 0, false)
    case OnDisconnect(rc) => MqttEvent("", "", Rc(rc), Disconnect, 0, false)
    case OnPublish(mid) => MqttEvent("", "", MessageId(mid), Publish, 0, false)
    case OnMessage(mid, topic, payload, qos, retain) =>
      MqttEvent(topic, payload, MessageId(mid), EventType.Message, ToMqttQos(qos), retain != 0)
    case OnSubscribe(mid, _) => MqttEvent("", "", MessageId(mid), Subscribe, 0, false)
    case OnUnsubscribe(mid) => MqttEvent("", "", MessageId(mid), Unsubscribe, 0, false)
  }

  function EncodeAll(events: seq<NetEvent>): (encoded: seq<MqttEvent>)
    ensures |encoded| == |events|
  {
    seq(|events|, i requires 0 <= i < |events| => Encode(events[i]))
  }

  lemma EncodeAllConcat(a: seq<NetEvent>, b: seq<NetEvent>)
    ensures EncodeAll(a + b) == EncodeAll(a) + EncodeAll(b)
  {
  }

  lemma EncodeAllGrows(events: seq<NetEvent>, e: NetEvent)
    ensures EncodeAll(events + [e]) == EncodeAll(events) + [Encode(e)]
  {
  }

  /** Reading the union member named by the tag reads the one that was written. */
  predicate WellTagged(e: MqttEvent) {
    e.cell.Rc? <==> e.eventType.Connect? || e.eventType.Disconnect?
  }

  /** The call that `loop` makes for one event. Reading the wrong member has no
      meaning; no event for which it would happen is ever queued. */
  function Dispatch(callbacks: Callbacks, e: MqttEvent): seq<Call> {
    if !WellTagged(e) then []
    else match e.eventType
      case Connect => if callbacks.connect then [ConnectCallback(e.cell.rc)] else []
      case Disconnect => if callbacks.disconnect then [DisconnectCallback(e.cell.rc)] else []
      case Publish => if callbacks.publish then [PublishCallback(e.cell.messageId)] else []
      case Message =>
        if callbacks.message then [MessageCallback(e.cell.messageId, e.topic, e.payload, e.qos, e.retain)] else []
      case Subscribe => if callbacks.subscribe then [SubscribeCallback(e.cell.messageId)] else []
      case Unsubscribe => if callbacks.unsubscribe then [UnsubscribeCallback(e.cell.messageId)] else []
  }

  ghost predicate AllWellTagged(events: seq<MqttEvent>) {
    forall i | 0 <= i < |events| :: WellTagged(events[i])
  }

  function DispatchAll(callbacks: Callbacks, events: seq<MqttEvent>): seq<Call> {
    if events == [] then []
    else DispatchAll(callbacks, events[..|events| - 1]) + Dispatch(callbacks, events[|events| - 1])
  }

  /** The tagged union is transparent: encoding and dispatching an event makes the
      direct client's call, with identical arguments. */
  lemma DispatchOfEncode(callbacks: Callbacks, e: NetEvent)
    ensures WellTagged(Encode(e))
    ensures Dispatch(callbacks, Encode(e)) == DirectCall(callbacks, e)
  {
  }

  lemma {:induction false} DispatchAllOfEncodeAll(callbacks: Callbacks, events: seq<NetEvent>)
    ensures DispatchAll(callbacks, EncodeAll(events)) == DirectCalls(callbacks, events)
  {
    if events != [] {
      var n := |events| - 1;
      assert EncodeAll(events)[..n] == EncodeAll(events[..n]);
      assert EncodeAll(events)[n] == Encode(events[n]);
      DispatchAllOfEncodeAll(callbacks, events[..n]);
      DispatchOfEncode(callbacks, events[n]);
    }
  }

  lemma DispatchAllGrows(callbacks: Callbacks, events: seq<MqttEvent>, e: MqttEvent)
    ensures DispatchAll(callbacks, events + [e]) == DispatchAll(callbacks, events) + Dispatch(callbacks, e)
  {
    assert (events + [e])[..|events|] == events;
  }

  lemma {:induction false} DispatchAllConcat(callbacks: Callbacks, a: seq<MqttEvent>, b: seq<MqttEvent>)
    ensures DispatchAll(callbacks, a + b) == DispatchAll(callbacks, a) + DispatchAll(callbacks, b)
  {
    if b == [] {
      assert a + b == a;
    } else {
      var front, last := b[..|b| - 1], b[|b| - 1];
      assert a + b == (a + front) + [last] && b == front + [last];
      DispatchAllConcat(callbacks, a, front);
      DispatchAllGrows(callbacks, a + front, last);
      DispatchAllGrows(callbacks, front, last);
      Associative(DispatchAll(callbacks, a), DispatchAll(callbacks, front), Dispatch(callbacks, last));
    }
  }

  // ----- the class -----

  class MqttClientThreadSafe {
    const base: MqttClient<string>
    const callbacks: Callbacks
    const eventQueue: ThreadSafeQueue<MqttEvent>
    var connected: bool
    ghost var calls: seq<Call>
    ghost var dispatched: seq<MqttEvent>  // the events that the calls were made for

    ghost function View(): Client
      reads this, base
    {
      base.View(connected)
    }

    ghost predicate Valid()
      reads this`dispatched, this`calls, eventQueue
    {
      AllWellTagged(eventQueue.queue) && calls == DispatchAll(callbacks, dispatched)
    }

    constructor (callbacks: Callbacks)
      ensures Valid() && fresh(eventQueue) && fresh(base)
      ensures View() == INITIAL && eventQueue.queue == [] && calls == [] && dispatched == []
      ensures this.callbacks == callbacks
    {
      this.callbacks := callbacks;
      eventQueue := new ThreadSafeQueue<MqttEvent>();
      base := new MqttClient<string>();
      connected, calls, dispatched := false, [], [];
    }

    method OnConnect(rc: int, replay: nat -> Rc)
      requires Valid()
      modifies this`connected, base`session, base`requests, eventQueue
      ensures Valid() && View() == Mqtt.OnConnect(old(View()), rc, replay)
      ensures connected == (rc == 0) == FlagAfter(old(connected), NetEvent.OnConnect(rc))
      ensures eventQueue.queue == old(eventQueue.queue) + [Encode(NetEvent.OnConnect(rc))]
    {
      base.session := Connack(rc);
      base.Replay(replay);
      connected := rc == 0;
      eventQueue.Emplace(MqttEvent("", "", Cell.Rc(rc), Connect, 0, false));
    }

    method OnDisconnect(rc: int)
      requires Valid()
      modifies this`connected, base`session, eventQueue
      ensures Valid() && View() == Mqtt.OnDisconnect(old(View()))
      ensures !connected && connected == FlagAfter(old(connected), NetEvent.OnDisconnect(rc))
      ensures eventQueue.queue == old(eventQueue.queue) + [Encode(NetEvent.OnDisconnect(rc))]
    {
      base.session := Closed;
      connected := false;
      eventQueue.Emplace(MqttEvent("", "", Cell.Rc(rc), Disconnect, 0, false));
    }

    method OnPublish(mid: int)
      requires Valid()
      modifies eventQueue
      ensures Valid() && eventQueue.queue == old(eventQueue.queue) + [Encode(NetEvent.OnPublish(mid))]
    {
      eventQueue.Emplace(MqttEvent("", "", MessageId(mid), Publish, 0, false));
    }

    method OnMessage(mid: int, topic: string, payload: string, qos: int, retain: int)
      requires Valid()
      modifies eventQueue
      ensures Valid()
      ensures eventQueue.queue ==
              old(eventQueue.queue) + [Encode(NetEvent.OnMessage(mid, topic, payload, qos, retain))]
    {
      eventQueue.Emplace(MqttEvent(topic, payload, MessageId(mid), EventType.Message, ToMqttQos(qos), retain != 0));
    }

    method OnSubscribe(mid: int, grantedQos: seq<int>)
      requires Valid()
      modifies eventQueue
      ensures Valid() && eventQueue.queue == old(eventQueue.queue) + [Encode(NetEvent.OnSubscribe(mid, grantedQos))]
    {
      eventQueue.Emplace(MqttEvent("", "", MessageId(mid), Subscribe, 0, false));
    }

    method OnUnsubscribe(mid: int)
      requires Valid()
      modifies eventQueue
      ensures Valid() && eventQueue.queue == old(eventQueue.queue) + [Encode(NetEvent.OnUnsubscribe(mid))]
    {
      eventQueue.Emplace(MqttEvent("", "", MessageId(mid), Unsubscribe, 0, false));
    }

    /** One call of `loop` while the network thread keeps going: `arrivals[i]` are the
        events it reports just before the i-th `pop`. The call ends at the first pop
        that finds the queue empty; by then it has dispatched everything that was
        queued at entry, then everything that arrived, in that order. This fixes the
        number of pops and all that is dispatched. */
    method Loop(arrivals: seq<seq<NetEvent>>) returns (pops: nat)
      requires Valid()
      modifies this`calls, this`dispatched, eventQueue
      ensures Valid() && eventQueue.queue == []
      ensures dispatched == old(dispatched) + Seen(old(eventQueue.queue), arrivals, pops)
      ensures calls == old(calls) + DispatchAll(callbacks, Seen(old(eventQueue.queue), arrivals, pops))
      ensures pops == |Seen(old(eventQueue.queue), arrivals, pops)| + 1
      ensures FindNonempty(old(eventQueue.queue), arrivals, pops)
    {
      ghost var entry, before := eventQueue.queue, dispatched;
      pops := PopUntilEmpty(arrivals);
      assert dispatched + [] == dispatched;
      Regroup(before, entry, EncodeAll(Arrived(arrivals, pops)));
      DispatchAllConcat(callbacks, before, Seen(entry, arrivals, pops));
    }

    /** The loop, in terms of all that has ever been queued. */
    method PopUntilEmpty(arrivals: seq<seq<NetEvent>>) returns (pops: nat)
      requires Valid()
      modifies this`calls, this`dispatched, eventQueue
      ensures Valid() && eventQueue.queue == []
      ensures dispatched + eventQueue.queue == Seen(old(dispatched + eventQueue.queue), arrivals, pops)
      ensures AfterPops(old(eventQueue.queue), arrivals, pops, pops - 1, 0, false,
                        |Seen(old(eventQueue.queue), arrivals, |arrivals|)|)
    {
      pops := 0;
      var more := true;
      ghost var entry, taken, log := eventQueue.queue, 0, dispatched + eventQueue.queue;
      NoPopsYet(entry, arrivals);
      SeenNothing(log, arrivals);
      ghost var bound := |Seen(entry, arrivals, |arrivals|)|;
      while more
        invariant Valid() && dispatched + eventQueue.queue == Seen(log, arrivals, pops)
        invariant AfterPops(entry, arrivals, pops, taken, |eventQueue.queue|, more, bound)
        decreases more, bound - pops
      {
        ghost var queued := |eventQueue.queue|;
        SeenGrows(log, arrivals, pops);
        more := Round(Group(arrivals, pops));
        ghost var taken' := taken + if more then 1 else 0;
        OneMorePop(entry, arrivals, pops, taken, queued, taken', |eventQueue.queue|, more, bound);
        taken := taken';
        pops := pops + 1;
      }
    }

    /** Arrivals, then one pop and the call for what it found. */
    method Round(group: seq<NetEvent>) returns (more: bool)
      requires Valid()
      modifies this`calls, this`dispatched, eventQueue
      ensures Valid() && dispatched + eventQueue.queue == old(dispatched + eventQueue.queue) + EncodeAll(group)
      ensures |eventQueue.queue| == old(|eventQueue.queue|) + |group| - if more then 1 else 0
      ensures !more ==> eventQueue.queue == []
    {
      Regroup(dispatched, eventQueue.queue, EncodeAll(group));
      Arrive(group);
      more := PopAndDispatch();
    }

    static lemma Regroup(a: seq<MqttEvent>, b: seq<MqttEvent>, c: seq<MqttEvent>)
      ensures a + (b + c) == (a + b) + c
    {
    }

    static lemma MoveHead(a: seq<MqttEvent>, b: seq<MqttEvent>)
      requires b != []
      ensures a + b == (a + [b[0]]) + b[1..]
    {
    }

    /** The network thread's part between two pops. */
    method Arrive(events: seq<NetEvent>)
      requires Valid()
      modifies eventQueue
      ensures Valid() && eventQueue.queue == old(eventQueue.queue) + EncodeAll(events)
      ensures |eventQueue.queue| == old(|eventQueue.queue|) + |events|
    {
      var i := 0;
      while i < |events|
        invariant 0 <= i <= |events| && Valid()
        invariant eventQueue.queue == old(eventQueue.queue) + EncodeAll(events[..i])
      {
        eventQueue.Emplace(Encode(events[i]));
        assert events[..i + 1] == events[..i] + [events[i]];
        EncodeAllConcat(events[..i], [events[i]]);
        i := i + 1;
      }
      assert events[..i] == events;
    }

    method PopAndDispatch() returns (more: bool)
      requires Valid()
      modifies this`calls, this`dispatched, eventQueue
      ensures Valid() && dispatched + eventQueue.queue == old(dispatched + eventQueue.queue)
      ensures more == (old(eventQueue.queue) != [])
      ensures !more ==> eventQueue.queue == []
      ensures |eventQueue.queue| == old(|eventQueue.queue|) - if more then 1 else 0
    {
      ghost var queued := eventQueue.queue;
      var event := eventQueue.Pop();
      more := event.Some?;
      if more {
        MoveHead(dispatched, queued);
        DispatchAllGrows(callbacks, dispatched, event.value);
        DispatchEvent(event.value);
      }
    }

    method DispatchEvent(event: MqttEvent)
      requires WellTagged(event)
      modifies this`calls, this`dispatched
      ensures calls == old(calls) + Dispatch(callbacks, event)
      ensures dispatched == old(dispatched) + [event]
    {
      dispatched := dispatched + [event];
      match event.eventType {
        case Connect =>
          if callbacks.connect {
            calls := calls + [ConnectCallback(event.cell.rc)];
          }
        case Disconnect =>
          if callbacks.disconnect {
            calls := calls + [DisconnectCallback(event.cell.rc)];
          }
        case Publish =>
          if callbacks.publish {
            calls := calls + [PublishCallback(event.cell.messageId)];
          }
        case Message =>
          if callbacks.message {
            var messageId := event.cell.messageId;
            calls := calls + [MessageCallback(messageId, event.topic, event.payload, event.qos, event.retain)];
          }
        case Subscribe =>
          if callbacks.subscribe {
            calls := calls + [SubscribeCallback(event.cell.messageId)];
          }
        case Unsubscribe =>
          if callbacks.unsubscribe {
            calls := calls + [UnsubscribeCallback(event.cell.messageId)];
          }
      }
    }
  }

  /** The events that come before pop number `n`; none when the arrivals are over. */
  function Group(arrivals: seq<seq<NetEvent>>, n: nat): seq<NetEvent> {
    if n < |arrivals| then arrivals[n] else []
  }

  /** The events of the first `n` groups (of all of them, when there are fewer). */
  function Arrived(arrivals: seq<seq<NetEvent>>, n: nat): seq<NetEvent> {
    if n == 0 then []
    else Arrived(arrivals, n - 1) + Group(arrivals, n - 1)
  }

  /** What the queue has held after `n` rounds of arrivals, popped or not. */
  function Seen(entry: seq<MqttEvent>, arrivals: seq<seq<NetEvent>>, n: nat): seq<MqttEvent> {
    entry + EncodeAll(Arrived(arrivals, n))
  }

  /** The pops before number `pops` each find an event: when the n-th is made, more events
      have been seen than the n - 1 taken out. */
  ghost predicate FindNonempty(entry: seq<MqttEvent>, arrivals: seq<seq<NetEvent>>, pops: nat) {
    forall n: nat | 0 < n < pops :: n <= |Seen(entry, arrivals, n)|
  }

  /** The state of `loop` after this many pops: how many events were taken out and how many
      are queued, and whether the last pop found one. */
  ghost predicate AfterPops(entry: seq<MqttEvent>, arrivals: seq<seq<NetEvent>>, pops: nat, taken: int, queued: nat,
                            more: bool, bound: nat) {
    && taken + queued == |Seen(entry, arrivals, pops)|
    && pops == taken + (if more then 0 else 1)
    && (!more ==> queued == 0)
    && FindNonempty(entry, arrivals, pops)
    && (more ==> pops <= bound)
    && bound == |Seen(entry, arrivals, |arrivals|)|
  }

  lemma NoPopsYet(entry: seq<MqttEvent>, arrivals: seq<seq<NetEvent>>)
    ensures AfterPops(entry, arrivals, 0, 0, |entry|, true, |Seen(entry, arrivals, |arrivals|)|)
  {
    SeenNothing(entry, arrivals);
  }

  lemma SeenNothing(entry: seq<MqttEvent>, arrivals: seq<seq<NetEvent>>)
    ensures Seen(entry, arrivals, 0) == entry
  {
  }

  lemma OneMorePop(entry: seq<MqttEvent>, arrivals: seq<seq<NetEvent>>, pops: nat, taken: int, queued: nat,
                   taken': int, queued': nat, more: bool, bound: nat)
    requires AfterPops(entry, arrivals, pops, taken, queued, true, bound)
    requires taken' + queued' == taken + queued + |Group(arrivals, pops)|
    requires taken' == taken + (if more then 1 else 0) && (!more ==> queued' == 0)
    ensures AfterPops(entry, arrivals, pops + 1, taken', queued', more, bound)
  {
    SeenGrows(entry, arrivals, pops);
    SeenGrows(entry, arrivals, pops + 1);
    FindOneMore(entry, arrivals, pops);
  }

  lemma FindOneMore(entry: seq<MqttEvent>, arrivals: seq<seq<NetEvent>>, pops: nat)
    requires FindNonempty(entry, arrivals, pops) && pops <= |Seen(entry, arrivals, pops)|
    ensures FindNonempty(entry, arrivals, pops + 1)
  {
  }

  /** There is only one number of pops at which the call can end. */
  lemma LastPopIsUnique(entry: seq<MqttEvent>, arrivals: seq<seq<NetEvent>>, p: nat, q: nat)
    requires FindNonempty(entry, arrivals, p) && p == |Seen(entry, arrivals, p)| + 1
    requires FindNonempty(entry, arrivals, q) && q == |Seen(entry, arrivals, q)| + 1
    ensures p == q
  {
  }

  lemma {:induction false} SeenGrows(entry: seq<MqttEvent>, arrivals: seq<seq<NetEvent>>, n: nat)
    ensures Seen(entry, arrivals, n + 1) == Seen(entry, arrivals, n) + EncodeAll(Group(arrivals, n))
    ensures |Seen(entry, arrivals, n)| <= |Seen(entry, arrivals, |arrivals|)|
  {
    ArrivedBounded(arrivals, n);
    EncodeAllConcat(Arrived(arrivals, n), Group(arrivals, n));
  }

  lemma {:induction false} ArrivedBounded(arrivals: seq<seq<NetEvent>>, n: nat)
    ensures |Arrived(arrivals, n)| <= |Arrived(arrivals, |arrivals|)|
    decreases if n > |arrivals| then n else |arrivals| - n
  {
    if n > |arrivals| {
      ArrivedBounded(arrivals, n - 1);
    } else if n < |arrivals| {
      ArrivedBounded(arrivals, n + 1);
    }
  }

  // ----- two threads -----

  /** A network callback that changes the flag is two steps: store, then enqueue.
      A dispatch is two steps as well: pop, then call. */
  datatype System = System(
    connected: bool,
    inFlight: Option<NetEvent>,  // stored by the network thread, not yet enqueued
    queue: seq<MqttEvent>,
    held: Option<MqttEvent>,     // popped by the main thread, its call not yet made
    dispatched: seq<MqttEvent>,
    calls: seq<Call>,
    arrived: seq<NetEvent>       // every event libmosquitto has reported
  )

  datatype Move =
    | Report(e: NetEvent)
    | Enqueue
    | PopEvent
    | CallBack

  const START: System := System.System(false, None, [], None, [], [], [])

  predicate Enabled(s: System, move: Move) {
    match move
    case Report(_) => s.inFlight.None?
    case Enqueue => s.inFlight.Some?
    case PopEvent => s.held.None? && s.queue != []
    case CallBack => s.held.Some?
  }

  /** A move that is not enabled leaves the state alone. */
  function Step(callbacks: Callbacks, s: System, move: Move): System {
    if !Enabled(s, move) then s
    else match move
      case Report(e) =>
        s.(connected := FlagAfter(s.connected, e),
           inFlight := Some(e),
           arrived := s.arrived + [e])
      case Enqueue =>
        s.(queue := s.queue + [Encode(s.inFlight.value)], inFlight := None)
      case PopEvent =>
        s.(held := Some(s.queue[0]), queue := s.queue[1..])
      case CallBack =>
        s.(calls := s.calls + Dispatch(callbacks, s.held.value),
           dispatched := s.dispatched + [s.held.value],
           held := None)
  }

  function Run(callbacks: Callbacks, moves: seq<Move>): System {
    if moves == [] then START
    else Step(callbacks, Run(callbacks, moves[..|moves| - 1]), moves[|moves| - 1])
  }

  function Held(s: System): seq<MqttEvent> {
    if s.held.Some? then [s.held.value] else []
  }

  function InFlight(s: System): seq<MqttEvent> {
    if s.inFlight.Some? then [Encode(s.inFlight.value)] else []
  }

  /** All events in the order of their arrival, wherever they are now. */
  function EventLog(s: System): seq<MqttEvent> {
    s.dispatched + Held(s) + s.queue + InFlight(s)
  }

  /** What the last connect or disconnect event of a log implies for the flag. */
  function FlagOf(log: seq<MqttEvent>): bool {
    if log == [] then false
    else
      var e := log[|log| - 1];
      if e.eventType.Connect? then e.cell == Rc(0)
      else if e.eventType.Disconnect? then false
      else FlagOf(log[..|log| - 1])
  }

  ghost predicate Inv(callbacks: Callbacks, s: System) {
    && EventLog(s) == EncodeAll(s.arrived)
    && s.calls == DispatchAll(callbacks, s.dispatched)
    && s.connected == DirectFlag(s.arrived)
  }

  /** The parts of the log can be cut where one likes. */
  lemma Recut(a: seq<MqttEvent>, b: seq<MqttEvent>, c: seq<MqttEvent>, d: seq<MqttEvent>)
    ensures a + b + c + d == a + (b + c) + d == a + b + (c + d)
    ensures a + [] == a
  {
  }

  /** Only a report adds to the log; the other moves shift its parts. */
  lemma LogShifts(callbacks: Callbacks, s: System, move: Move)
    requires Enabled(s, move)
    ensures EventLog(Step(callbacks, s, move)) == EventLog(s) + if move.Report? then [Encode(move.e)] else []
  {
    match move
    case Report(e) => Recut(s.dispatched + Held(s) + s.queue, [], [Encode(e)], []);
    case Enqueue => Recut(s.dispatched + Held(s), [], s.queue, InFlight(s));
    case PopEvent =>
      Recut(s.dispatched, [], [s.queue[0]], s.queue[1..]);
      assert [s.queue[0]] + s.queue[1..] == s.queue;
      assert s.dispatched + [] + s.queue == s.dispatched + [s.queue[0]] + s.queue[1..];
    case CallBack => Recut(s.dispatched, [s.held.value], [], s.queue);
  }

  lemma StepKeepsInv(callbacks: Callbacks, s: System, move: Move)
    requires Inv(callbacks, s)
    ensures Inv(callbacks, Step(callbacks, s, move))
  {
    if Enabled(s, move) {
      LogShifts(callbacks, s, move);
      if move.Report? {
        EncodeAllGrows(s.arrived, move.e);
        DirectFlagGrows(s.arrived, move.e);
      }
      if move.CallBack? {
        DispatchAllGrows(callbacks, s.dispatched, s.held.value);
      }
    }
  }

  lemma {:induction false} RunKeepsInv(callbacks: Callbacks, moves: seq<Move>)
    ensures Inv(callbacks, Run(callbacks, moves))
  {
    if moves != [] {
      RunKeepsInv(callbacks, moves[..|moves| - 1]);
      StepKeepsInv(callbacks, Run(callbacks, moves[..|moves| - 1]), moves[|moves| - 1]);
    }
  }

  /** If `dispatched`, then `rest`, encode the events that arrived, then dispatching
      made the direct client's calls for as many of them, a prefix of all its calls. */
  lemma {:induction false} DispatchedIsPrefix(callbacks: Callbacks, arrived: seq<NetEvent>,
                                              dispatched: seq<MqttEvent>, rest: seq<MqttEvent>)
    requires dispatched + rest == EncodeAll(arrived)
    ensures |dispatched| <= |arrived|
    ensures DispatchAll(callbacks, dispatched) == DirectCalls(callbacks, arrived[..|dispatched|])
    ensures DispatchAll(callbacks, dispatched) <= DirectCalls(callbacks, arrived)
    ensures rest == [] ==> DispatchAll(callbacks, dispatched) == DirectCalls(callbacks, arrived)
  {
    var n := |dispatched|;
    assert |dispatched + rest| == |arrived|;
    var done, later := arrived[..n], arrived[n..];
    assert done + later == arrived;
    EncodeAllConcat(done, later);
    assert (dispatched + rest)[..n] == dispatched;
    assert (EncodeAll(done) + EncodeAll(later))[..n] == EncodeAll(done);
    DispatchAllOfEncodeAll(callbacks, done);
    DirectCallsConcat(callbacks, done, later);
    if rest == [] {
      assert done == arrived;
    }
  }

  lemma LogSplits(s: System)
    ensures EventLog(s) == s.dispatched + (Held(s) + s.queue + InFlight(s))
    ensures s.held.Some? ==> |s.dispatched| < |EventLog(s)| && EventLog(s)[|s.dispatched|] == s.held.value
  {
  }

  /** Refinement. In every interleaving the main thread has made the calls that the
      single-threaded client makes for a prefix of the reported events: as many as
      have been dispatched. Once nothing is held, queued or in flight, it has made
      them all. No event is ever read through the wrong union member. */
  lemma {:induction false} RefinesDirectClient(callbacks: Callbacks, moves: seq<Move>)
    ensures var s := Run(callbacks, moves);
            && |s.dispatched| <= |s.arrived|
            && s.calls == DirectCalls(callbacks, s.arrived[..|s.dispatched|])
            && s.calls <= DirectCalls(callbacks, s.arrived)
            && (s.held.None? && s.queue == [] && s.inFlight.None? ==> s.calls == DirectCalls(callbacks, s.arrived))
            && (s.held.Some? ==> WellTagged(s.held.value))
  {
    RunKeepsInv(callbacks, moves);
    var s := Run(callbacks, moves);
    var rest := Held(s) + s.queue + InFlight(s);
    LogSplits(s);
    DispatchedIsPrefix(callbacks, s.arrived, s.dispatched, rest);
    if s.held.Some? {
      DispatchOfEncode(callbacks, s.arrived[|s.dispatched|]);
    }
  }

  lemma {:induction false} FlagOfEncodeAll(events: seq<NetEvent>)
    ensures FlagOf(EncodeAll(events)) == DirectFlag(events)
  {
    if events != [] {
      var n := |events| - 1;
      assert EncodeAll(events)[..n] == EncodeAll(events[..n]);
      FlagOfEncodeAll(events[..n]);
    }
  }

  /** The flag leads the log: in every interleaving `m_connected` is what the last
      connect or disconnect among all events says, those dispatched, held, queued
      and in flight alike; so it can only run ahead of the callbacks made. */
  lemma ConnectedLeadsTheLog(callbacks: Callbacks, moves: seq<Move>)
    ensures var s := Run(callbacks, moves);
            && s.connected == FlagOf(EventLog(s)) == DirectFlag(s.arrived)
  {
    RunKeepsInv(callbacks, moves);
    FlagOfEncodeAll(Run(callbacks, moves).arrived);
  }

  /** The flag may disagree with the callbacks made so far: after an accepted connect
      is reported, the flag is up while no callback has been made. */
  lemma FlagMayRunAhead(callbacks: Callbacks)
    ensures var s := Run(callbacks, [Report(OnConnect(0))]);
            s.connected && s.calls == [] && s.dispatched == []
  {
    assert [Report(OnConnect(0))][..0] == [];
    assert Run(callbacks, []) == START;
  }

  // ----- progress -----

  /** Nothing reported waits anywhere. */
  predicate Drained(s: System) {
    s.inFlight.None? && s.held.None? && s.queue == []
  }

  /** Moves still needed for what has been reported. */
  function Work(s: System): nat {
    (if s.inFlight.Some? then 3 else 0) + 2 * |s.queue| + if s.held.Some? then 1 else 0
  }

  /** Whatever has happened, the two threads can go on so that every event reported so far
      has had its call. */
  lemma CanAlwaysDrain(callbacks: Callbacks, moves: seq<Move>) returns (more: seq<Move>)
    ensures var s := Run(callbacks, moves + more);
            && s.arrived == Run(callbacks, moves).arrived
            && Drained(s)
            && s.calls == DirectCalls(callbacks, s.arrived)
    decreases Work(Run(callbacks, moves))
  {
    var s := Run(callbacks, moves);
    if Drained(s) {
      more := [];
      assert moves + more == moves;
      RefinesDirectClient(callbacks, moves);
    } else {
      var move := if s.inFlight.Some? then Enqueue else if s.held.Some? then CallBack else PopEvent;
      assert (moves + [move])[..|moves|] == moves;
      var rest := CanAlwaysDrain(callbacks, moves + [move]);
      more := [move] + rest;
      assert moves + more == moves + [move] + rest;
    }
  }
}
