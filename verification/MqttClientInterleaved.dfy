/** The thread-safe client one machine step at a time.

    The network thread stores the flag and then runs the queue's `emplace`: lock, append,
    unlock, return. The main thread runs `pop`, lock, test, front, pop, unlock, return, and
    then makes the call. Every run of this program is shown to be a run of the machine in
    `MqttClientThreadSafe`, so that what is proved there holds of it. */
module MqttClientInterleaved {
  import opened MqttEvents
  import opened Wrappers
  import Coarse = MqttClientThreadSafe
  import Queue = ThreadSafeQueue

  type MqttEvent = Coarse.MqttEvent

  // The two threads of the queue
  const NETWORK: Queue.Tid := 0
  const MAIN: Queue.Tid := 1

  datatype System = System(
    connected: bool,
    reporting: Option<NetEvent>,  // the callback that the network thread is in
    queue: Queue.System<MqttEvent>,
    held: Option<MqttEvent>,      // returned by pop, the call not yet made
    dispatched: seq<MqttEvent>,
    calls: seq<Call>,
    arrived: seq<NetEvent>        // every event libmosquitto has reported
  )

  const START: System := System(false, None, Queue.Initial(), None, [], [], [])

  datatype Move = Report(e: NetEvent) | NetworkStep | MainStep

  /** libmosquitto calls the next callback when the last one has returned. */
  function Reported(s: System, e: NetEvent): System {
    if s.reporting.Some? then s
    else s.(connected := FlagAfter(s.connected, e), reporting := Some(e), arrived := s.arrived + [e])
  }

  /** One machine step of `emplace`; with its return the callback ends. */
  function NetworkStepped(s: System): System {
    if s.reporting.None? then s
    else
      var pc := Queue.PcOf(s.queue, NETWORK);
      s.(queue := Queue.Step(s.queue, NETWORK, Queue.Op.Push(Coarse.Encode(s.reporting.value))),
         reporting := if pc.Unlocked? then None else s.reporting)
  }

  /** The call for the event held or, without one, one machine step of `pop`. After a pop
      that found nothing `loop` returns; the next step belongs to its next call. */
  function MainStepped(callbacks: Callbacks, s: System): System {
    if s.held.Some? then
      s.(calls := s.calls + Coarse.Dispatch(callbacks, s.held.value),
         dispatched := s.dispatched + [s.held.value],
         held := None)
    else
      var pc := Queue.PcOf(s.queue, MAIN);
      s.(queue := Queue.Step(s.queue, MAIN, Queue.Op.Pop),
         held := if pc.Unlocked? && pc.ret.Popped? then pc.ret.msg else None)
  }

  function Step(callbacks: Callbacks, s: System, move: Move): System {
    match move
    case Report(e) => Reported(s, e)
    case NetworkStep => NetworkStepped(s)
    case MainStep => MainStepped(callbacks, s)
  }

  function Run(callbacks: Callbacks, moves: seq<Move>): System {
    if moves == [] then START
    else Step(callbacks, Run(callbacks, moves[..|moves| - 1]), moves[|moves| - 1])
  }

  // ----- the coarse state -----

  /** Reported, but not yet appended to the queue. */
  function InFlight(s: System): Option<NetEvent> {
    var pc := Queue.PcOf(s.queue, NETWORK);
    if pc.Finished? || pc.Unlocked? then None else s.reporting
  }

  /** Taken out of the queue, whether `pop` has returned it or not. */
  function Held(s: System): Option<MqttEvent> {
    var pc := Queue.PcOf(s.queue, MAIN);
    if (pc.Finished? || pc.Unlocked?) && pc.ret.Popped? then pc.ret.msg else s.held
  }

  function Abstract(s: System): Coarse.System {
    Coarse.System.System(s.connected, InFlight(s), s.queue.queue, Held(s), s.dispatched, s.calls, s.arrived)
  }

  /** The network thread runs nothing but `emplace` of the event it reports. */
  predicate NetworkPc(s: System) {
    match Queue.PcOf(s.queue, NETWORK)
    case Idle => true
    case SawFront => false
    case Fronted(_) => false
    case Waiting(op) => s.reporting.Some? && op == Queue.Op.Push(Coarse.Encode(s.reporting.value))
    case Locked(op) => s.reporting.Some? && op == Queue.Op.Push(Coarse.Encode(s.reporting.value))
    case Finished(op, _) => s.reporting.Some? && op == Queue.Op.Push(Coarse.Encode(s.reporting.value))
    case Unlocked(op, _) => s.reporting.Some? && op == Queue.Op.Push(Coarse.Encode(s.reporting.value))
  }

  /** The main thread runs nothing but `pop`, and only while it holds no event. */
  predicate MainPc(s: System) {
    match Queue.PcOf(s.queue, MAIN)
    case Idle => true
    case SawFront => s.held.None?
    case Fronted(_) => s.held.None?
    case Waiting(op) => s.held.None? && op == Queue.Op.Pop
    case Locked(op) => s.held.None? && op == Queue.Op.Pop
    case Finished(op, ret) => s.held.None? && op == Queue.Op.Pop && ret.Popped?
    case Unlocked(op, ret) => s.held.None? && op == Queue.Op.Pop && ret.Popped?
  }

  ghost predicate Inv(s: System) {
    Queue.Inv(s.queue) && NetworkPc(s) && MainPc(s) && s.queue.pcs.Keys <= {NETWORK, MAIN}
  }

  /** A coarse move, or none. */
  function Moved(callbacks: Callbacks, s: Coarse.System, move: Option<Coarse.Move>): Coarse.System {
    match move
    case None => s
    case Some(m) => Coarse.Step(callbacks, s, m)
  }

  /** A step of one thread leaves the other where it is. */
  lemma OtherStays(q: Queue.System<MqttEvent>, tid: Queue.Tid, op: Queue.Op<MqttEvent>, other: Queue.Tid)
    requires tid != other
    ensures Queue.PcOf(Queue.Step(q, tid, op), other) == Queue.PcOf(q, other)
  {
  }

  /** What `emplace` does takes effect where the event is appended. */
  lemma PushStepRefines(callbacks: Callbacks, s: System) returns (move: Option<Coarse.Move>)
    requires NetworkPc(s) && MainPc(s) && s.reporting.Some?
    ensures NetworkPc(NetworkStepped(s)) && MainPc(NetworkStepped(s))
    ensures Abstract(NetworkStepped(s)) == Moved(callbacks, Abstract(s), move)
  {
    OtherStays(s.queue, NETWORK, Queue.Op.Push(Coarse.Encode(s.reporting.value)), MAIN);
    move := if Queue.PcOf(s.queue, NETWORK).Locked? then Some(Coarse.Enqueue) else None;
  }

  lemma NetworkStepRefines(callbacks: Callbacks, s: System) returns (move: Option<Coarse.Move>)
    requires Inv(s)
    ensures Inv(NetworkStepped(s))
    ensures Abstract(NetworkStepped(s)) == Moved(callbacks, Abstract(s), move)
  {
    move := None;
    if s.reporting.Some? {
      Queue.StepKeepsInv(s.queue, NETWORK, Queue.Op.Push(Coarse.Encode(s.reporting.value)));
      move := PushStepRefines(callbacks, s);
    }
  }

  /** What `pop` does takes effect where the front is removed. */
  lemma PopStepRefines(callbacks: Callbacks, s: System) returns (move: Option<Coarse.Move>)
    requires NetworkPc(s) && MainPc(s) && s.held.None? && Queue.ThreadInv(s.queue, MAIN)
    ensures NetworkPc(MainStepped(callbacks, s)) && MainPc(MainStepped(callbacks, s))
    ensures Abstract(MainStepped(callbacks, s)) == Moved(callbacks, Abstract(s), move)
  {
    OtherStays(s.queue, MAIN, Queue.Op.Pop, NETWORK);
    move := if Queue.PcOf(s.queue, MAIN).Fronted? then Some(Coarse.PopEvent) else None;
  }

  lemma MainStepRefines(callbacks: Callbacks, s: System) returns (move: Option<Coarse.Move>)
    requires Inv(s)
    ensures Inv(MainStepped(callbacks, s))
    ensures Abstract(MainStepped(callbacks, s)) == Moved(callbacks, Abstract(s), move)
  {
    if s.held.Some? {
      move := Some(Coarse.CallBack);
    } else {
      assert Queue.ThreadInv(s.queue, MAIN);
      Queue.StepKeepsInv(s.queue, MAIN, Queue.Op.Pop);
      move := PopStepRefines(callbacks, s);
    }
  }

  lemma StepRefines(callbacks: Callbacks, s: System, move: Move) returns (coarse: Option<Coarse.Move>)
    requires Inv(s)
    ensures Inv(Step(callbacks, s, move))
    ensures Abstract(Step(callbacks, s, move)) == Moved(callbacks, Abstract(s), coarse)
  {
    match move
    case Report(e) =>
      coarse := if s.reporting.None? then Some(Coarse.Report(e)) else None;
    case NetworkStep =>
      coarse := NetworkStepRefines(callbacks, s);
    case MainStep =>
      coarse := MainStepRefines(callbacks, s);
  }

  /** Every run of the two threads' code is, move by move, a run of the coarse machine. */
  lemma {:induction false} RefinesCoarseMachine(callbacks: Callbacks, moves: seq<Move>)
    returns (coarse: seq<Coarse.Move>)
    ensures Inv(Run(callbacks, moves))
    ensures Abstract(Run(callbacks, moves)) == Coarse.Run(callbacks, coarse)
  {
    coarse := [];
    if moves != [] {
      var n := |moves| - 1;
      var before := RefinesCoarseMachine(callbacks, moves[..n]);
      var move := StepRefines(callbacks, Run(callbacks, moves[..n]), moves[n]);
      coarse := before;
      if move.Some? {
        coarse := before + [move.value];
        assert coarse[..|before|] == before;
      }
    }
  }

  /** Nothing reported waits anywhere. */
  predicate Drained(s: System) {
    s.reporting.None? && s.queue.queue == [] && Held(s).None?
  }

  /** Refinement, over every interleaving of machine steps: the calls made are those that
      the single-threaded client makes for a prefix of the reported events, as many as
      have been dispatched, and for all of them once everything is drained. `front` and
      `pop` never meet an empty queue, and no event is read through the wrong union
      member. */
  lemma {:induction false} RefinesDirectClient(callbacks: Callbacks, moves: seq<Move>)
    ensures var s := Run(callbacks, moves);
            && |s.dispatched| <= |s.arrived|
            && s.calls == DirectCalls(callbacks, s.arrived[..|s.dispatched|])
            && s.calls <= DirectCalls(callbacks, s.arrived)
            && (Drained(s) ==> s.calls == DirectCalls(callbacks, s.arrived))
            && (s.held.Some? ==> Coarse.WellTagged(s.held.value))
            && !s.queue.fault
  {
    var coarse := RefinesCoarseMachine(callbacks, moves);
    Coarse.RefinesDirectClient(callbacks, coarse);
  }

  /** The flag leads the log, over every interleaving of machine steps: it is what the
      last connect or disconnect among all events says, dispatched, held, queued and in
      flight alike. */
  lemma {:induction false} ConnectedLeadsTheLog(callbacks: Callbacks, moves: seq<Move>)
    ensures var s := Run(callbacks, moves);
            && s.connected == DirectFlag(s.arrived)
            && s.connected == Coarse.FlagOf(Coarse.EventLog(Abstract(s)))
  {
    var coarse := RefinesCoarseMachine(callbacks, moves);
    Coarse.ConnectedLeadsTheLog(callbacks, coarse);
  }

  // ----- progress -----

  /** Steps that the network thread still has to make for the event it reports. */
  function NetworkWork(s: System): nat {
    if s.reporting.None? then 0
    else match Queue.PcOf(s.queue, NETWORK)
      case Idle => 5
      case Waiting(_) => 4
      case Locked(_) => 3
      case Finished(_, _) => 2
      case _ => 1
  }

  /** Steps to the end of a round of the main thread; a pop that finds nothing comes before
      the round. */
  function MainWork(s: System): nat {
    if s.held.Some? then 1
    else match Queue.PcOf(s.queue, MAIN)
      case Idle => 8
      case Waiting(_) => 7
      case Locked(_) => if s.queue.queue == [] then 11 else 6
      case SawFront => 5
      case Fronted(_) => 4
      case Finished(_, _) => if Held(s).Some? then 3 else 10
      case Unlocked(_, _) => if Held(s).Some? then 2 else 9
  }

  /** A bound on the steps that what has been reported still needs. */
  function Work(s: System): nat {
    16 * ((if InFlight(s).Some? then 1 else 0) + |s.queue.queue| + (if Held(s).Some? then 1 else 0))
    + NetworkWork(s) + MainWork(s)
  }

  /** The network thread can go on unless the main thread holds the mutex. */
  lemma NetworkProgress(s: System)
    requires Inv(s) && s.reporting.Some?
    requires Queue.PcOf(s.queue, NETWORK).Waiting? ==> s.queue.mutex != Some(MAIN)
    ensures Work(NetworkStepped(s)) < Work(s)
  {
    assert Queue.ThreadInv(s.queue, NETWORK) && Queue.ThreadInv(s.queue, MAIN);
    OnlyTwoThreads(s);
    OtherStays(s.queue, NETWORK, Queue.Op.Push(Coarse.Encode(s.reporting.value)), MAIN);
  }

  lemma OnlyTwoThreads(s: System)
    requires Inv(s)
    ensures s.queue.mutex == None || s.queue.mutex == Some(NETWORK) || s.queue.mutex == Some(MAIN)
  {
    if s.queue.mutex.Some? {
      assert Queue.ThreadInv(s.queue, s.queue.mutex.value);
    }
  }

  /** The main thread can go on when it holds the mutex, and when the network thread is idle
      and there is something to do. */
  lemma MainProgress(callbacks: Callbacks, s: System)
    requires Inv(s)
    requires s.queue.mutex == Some(MAIN) || (s.reporting.None? && !Drained(s))
    ensures Work(MainStepped(callbacks, s)) < Work(s)
  {
    assert Queue.ThreadInv(s.queue, NETWORK) && Queue.ThreadInv(s.queue, MAIN);
    OnlyTwoThreads(s);
    if s.held.None? {
      OtherStays(s.queue, MAIN, Queue.Op.Pop, NETWORK);
    }
  }

  /** Whatever has happened, machine step by machine step, the two threads can go on so that
      every event reported so far has had its call: there is no deadlock. */
  lemma CanAlwaysDrain(callbacks: Callbacks, moves: seq<Move>) returns (more: seq<Move>)
    ensures var s := Run(callbacks, moves + more);
            && s.arrived == Run(callbacks, moves).arrived
            && Drained(s)
            && s.calls == DirectCalls(callbacks, s.arrived)
    decreases Work(Run(callbacks, moves))
  {
    var s := Run(callbacks, moves);
    if Drained(s) {
      more := [];
      assert moves + more == moves;
      RefinesDirectClient(callbacks, moves);
    } else {
      var _ := RefinesCoarseMachine(callbacks, moves);
      var move := NextMove(callbacks, s);
      assert (moves + [move])[..|moves|] == moves;
      var rest := CanAlwaysDrain(callbacks, moves + [move]);
      more := [move] + rest;
      assert moves + more == moves + [move] + rest;
    }
  }

  lemma NextMove(callbacks: Callbacks, s: System) returns (move: Move)
    requires Inv(s) && !Drained(s)
    ensures Step(callbacks, s, move).arrived == s.arrived
    ensures Work(Step(callbacks, s, move)) < Work(s)
  {
    if s.reporting.Some? && !(Queue.PcOf(s.queue, NETWORK).Waiting? && s.queue.mutex == Some(MAIN)) {
      move := NetworkStep;
      NetworkProgress(s);
    } else {
      move := MainStep;
      MainProgress(callbacks, s);
    }
  }
}
