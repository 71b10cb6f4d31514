/** `ThreadSafeQueue`: a FIFO under a mutex.

    The class gives each member function as one atomic operation. The state
    machine below it runs the same functions one machine step at a time in
    arbitrarily many threads, and `Linearizable` is what makes the atomic reading
    sound. */
module ThreadSafeQueue {
  import opened Wrappers

  class ThreadSafeQueue<Msg> {
    var queue: seq<Msg>

    constructor ()
      ensures queue == []
    {
      queue := [];
    }

    method Size() returns (n: nat)
      ensures (queue, Sized(n)) == Atomic(queue, Op.Size)
      ensures n == |queue|
    {
      n := |queue|;
    }

    method Push(msg: Msg)
      modifies this
      ensures (queue, Pushed) == Atomic(old(queue), Op.Push(msg))
      ensures queue == old(queue) + [msg]
    {
      queue := queue + [msg];
    }

    method Emplace(msg: Msg)
      modifies this
      ensures (queue, Pushed) == Atomic(old(queue), Op.Push(msg))
      ensures queue == old(queue) + [msg]
    {
      queue := queue + [msg];
    }

    method Pop() returns (msg: Option<Msg>)
      modifies this
      ensures (queue, Popped(msg)) == Atomic(old(queue), Op.Pop)
      ensures msg.None? <==> old(queue) == []
      ensures msg.None? ==> queue == []
      ensures msg.Some? ==> msg.value == old(queue)[0] && queue == old(queue)[1..]
    {
      if queue == [] {
        return None;
      }
      msg := Some(queue[0]);
      queue := queue[1..];
    }
  }

  // ----- the sequential specification -----

  datatype Op<Msg> = Push(msg: Msg) | Pop | Size

  datatype Ret<Msg> = Pushed | Popped(msg: Option<Msg>) | Sized(n: nat)

  /** One operation of an atomic FIFO: its new contents and what it returns. */
  function Atomic<Msg>(queue: seq<Msg>, op: Op<Msg>): (seq<Msg>, Ret<Msg>) {
    match op
    case Push(msg) => (queue + [msg], Pushed)
    case Pop => if queue == [] then (queue, Popped(None)) else (queue[1..], Popped(Some(queue[0])))
    case Size => (queue, Sized(|queue|))
  }

  // ----- the concurrent program -----

  type Tid = nat

  /** Where a thread is inside one call. From `Locked` to `Finished` it holds the mutex. */
  datatype Pc<Msg> =
    | Idle
    | Waiting(op: Op<Msg>)                    // called, before lock_guard has the mutex
    | Locked(op: Op<Msg>)                     // holds the mutex
    | SawFront                                // pop(): has seen a non-empty queue
    | Fronted(msg: Msg)                       // pop(): has copied front()
    | Finished(op: Op<Msg>, ret: Ret<Msg>)    // still holds the mutex
    | Unlocked(op: Op<Msg>, ret: Ret<Msg>)    // lock_guard destroyed, about to return

  /** What an observer records. `Took` marks the instant an operation takes effect. */
  datatype Event<Msg> =
    | Called(tid: Tid, op: Op<Msg>)
    | Took(tid: Tid, op: Op<Msg>, ret: Ret<Msg>)
    | Returned(tid: Tid, op: Op<Msg>, ret: Ret<Msg>)

  datatype System<Msg> = System(
    queue: seq<Msg>,
    mutex: Option<Tid>,
    pcs: map<Tid, Pc<Msg>>,
    fault: bool,  // front() or pop() was called on an empty std::queue
    history: seq<Event<Msg>>
  )

  function PcOf<Msg>(s: System<Msg>, tid: Tid): Pc<Msg> {
    if tid in s.pcs then s.pcs[tid] else Idle
  }

  function Initial<Msg>(): System<Msg> {
    System([], None, map[], false, [])
  }

  function TakeEffect<Msg>(s: System<Msg>, tid: Tid, queue: seq<Msg>, op: Op<Msg>, ret: Ret<Msg>): System<Msg> {
    s.(queue := queue, pcs := s.pcs[tid := Finished(op, ret)], history := s.history + [Took(tid, op, ret)])
  }

  /** One machine step of thread `tid`. An idle thread calls `op`; a thread that
      waits for a taken mutex stays where it is. */
  function Step<Msg>(s: System<Msg>, tid: Tid, op: Op<Msg>): System<Msg> {
    match PcOf(s, tid)
    case Idle =>
      s.(pcs := s.pcs[tid := Waiting(op)], history := s.history + [Called(tid, op)])
    case Waiting(o) =>
      if s.mutex == None then s.(mutex := Some(tid), pcs := s.pcs[tid := Locked(o)]) else s
    case Locked(Push(msg)) =>
      TakeEffect(s, tid, s.queue + [msg], Push(msg), Pushed)
    case Locked(Size) =>
      TakeEffect(s, tid, s.queue, Size, Sized(|s.queue|))
    case Locked(Pop) =>
      if s.queue == [] then TakeEffect(s, tid, s.queue, Pop, Popped(None))
      else s.(pcs := s.pcs[tid := SawFront])
    case SawFront =>
      if s.queue == [] then s.(fault := true)
      else s.(pcs := s.pcs[tid := Fronted(s.queue[0])])
    case Fronted(msg) =>
      if s.queue == [] then s.(fault := true)
      else TakeEffect(s, tid, s.queue[1..], Pop, Popped(Some(msg)))
    case Finished(o, ret) =>
      s.(mutex := None, pcs := s.pcs[tid := Unlocked(o, ret)])
    case Unlocked(o, ret) =>
      s.(pcs := s.pcs[tid := Idle], history := s.history + [Returned(tid, o, ret)])
  }

  datatype Move<Msg> = Move(tid: Tid, op: Op<Msg>)

  /** The state after a schedule: any number of threads in any interleaving. */
  function Run<Msg>(schedule: seq<Move<Msg>>): System<Msg> {
    if schedule == [] then Initial()
    else
      var n := |schedule| - 1;
      Step(Run(schedule[..n]), schedule[n].tid, schedule[n].op)
  }

  predicate Holds<Msg>(pc: Pc<Msg>) {
    pc.Locked? || pc.SawFront? || pc.Fronted? || pc.Finished?
  }

  // ----- what a history must satisfy -----

  /** The contents of an atomic FIFO that performs the `Took` events in order. */
  function Contents<Msg>(history: seq<Event<Msg>>): seq<Msg> {
    if history == [] then []
    else
      var before := Contents(history[..|history| - 1]);
      match history[|history| - 1]
      case Took(_, op, _) => Atomic(before, op).0
      case _ => before
  }

  /** Every `Took` event returned what the atomic FIFO returns at that point. */
  predicate Legal<Msg(==)>(history: seq<Event<Msg>>) {
    history == [] ||
    (var n := |history| - 1;
     Legal(history[..n]) &&
     (history[n].Took? ==> history[n].ret == Atomic(Contents(history[..n]), history[n].op).1))
  }

  datatype Phase<Msg> = Ready | Pending(op: Op<Msg>) | Answered(op: Op<Msg>, ret: Ret<Msg>) | Broken

  /** The events of one thread must read call, effect, return, call, ...; the effect
      and the return carry the call's operation, the return the effect's result. */
  function PhaseOf<Msg(==)>(history: seq<Event<Msg>>, tid: Tid): Phase<Msg> {
    if history == [] then Ready
    else
      var before := PhaseOf(history[..|history| - 1], tid);
      var e := history[|history| - 1];
      if e.tid != tid then before
      else match e
        case Called(_, op) => if before == Ready then Pending(op) else Broken
        case Took(_, op, ret) => if before == Pending(op) then Answered(op, ret) else Broken
        case Returned(_, op, ret) => if before == Answered(op, ret) then Ready else Broken
  }

  function Pushes<Msg>(history: seq<Event<Msg>>): seq<Msg> {
    if history == [] then []
    else
      var before := Pushes(history[..|history| - 1]);
      var e := history[|history| - 1];
      if e.Took? && e.op.Push? then before + [e.op.msg] else before
  }

  function Pops<Msg>(history: seq<Event<Msg>>): seq<Msg> {
    if history == [] then []
    else
      var before := Pops(history[..|history| - 1]);
      var e := history[|history| - 1];
      if e.Took? && e.ret.Popped? && e.ret.msg.Some? then before + [e.ret.msg.value] else before
  }

  // ----- the invariant -----

  function ExpectedPhase<Msg>(pc: Pc<Msg>): Phase<Msg> {
    match pc
    case Idle => Ready
    case Waiting(op) => Pending(op)
    case Locked(op) => Pending(op)
    case SawFront => Pending(Pop)
    case Fronted(_) => Pending(Pop)
    case Finished(op, ret) => Answered(op, ret)
    case Unlocked(op, ret) => Answered(op, ret)
  }

  ghost predicate ThreadInv<Msg>(s: System<Msg>, tid: Tid) {
    var pc := PcOf(s, tid);
    && (Holds(pc) <==> s.mutex == Some(tid))
    && (pc.SawFront? ==> s.queue != [])
    && (pc.Fronted? ==> s.queue != [] && s.queue[0] == pc.msg)
    && PhaseOf(s.history, tid) == ExpectedPhase(pc)
  }

  ghost predicate Inv<Msg(!new)>(s: System<Msg>) {
    && !s.fault
    && Legal(s.history)
    && Contents(s.history) == s.queue
    && forall tid: Tid :: ThreadInv(s, tid)
  }

  lemma HistoryGrows<Msg>(history: seq<Event<Msg>>, e: Event<Msg>, tid: Tid)
    ensures (history + [e])[..|history|] == history
    ensures Contents(history + [e]) == if e.Took? then Atomic(Contents(history), e.op).0 else Contents(history)
    ensures e.tid != tid ==> PhaseOf(history + [e], tid) == PhaseOf(history, tid)
  {
    assert (history + [e])[..|history|] == history;
  }

  /** The history is unchanged or grows by one event of the moving thread. */
  lemma StepHistory<Msg>(s: System<Msg>, tid: Tid, op: Op<Msg>)
    ensures var h := Step(s, tid, op).history;
            h == s.history || (exists e :: h == s.history + [e] && e.tid == tid)
  {
    var h := Step(s, tid, op).history;
    if h != s.history {
      var e := h[|s.history|];
      assert h == s.history + [e] && e.tid == tid;
    }
  }

  lemma StepKeepsOthers<Msg(!new)>(s: System<Msg>, tid: Tid, op: Op<Msg>, t: Tid)
    requires t != tid && ThreadInv(s, tid) && ThreadInv(s, t)
    ensures ThreadInv(Step(s, tid, op), t)
  {
    var s' := Step(s, tid, op);
    assert PcOf(s', t) == PcOf(s, t);
    StepHistory(s, tid, op);
    if s'.history != s.history {
      var e :| s'.history == s.history + [e] && e.tid == tid;
      HistoryGrows(s.history, e, t);
    }
    assert PhaseOf(s'.history, t) == PhaseOf(s.history, t);
    assert s'.queue == s.queue || Holds(PcOf(s, tid));
  }

  lemma {:induction false} StepKeepsOwn<Msg(!new)>(s: System<Msg>, tid: Tid, op: Op<Msg>)
    requires ThreadInv(s, tid)
    ensures ThreadInv(Step(s, tid, op), tid)
  {
    var s' := Step(s, tid, op);
    if s'.history != s.history {
      assert s'.history[..|s.history|] == s.history;
    }
  }

  lemma LegalGrows<Msg>(history: seq<Event<Msg>>, e: Event<Msg>)
    ensures Legal(history + [e]) <==>
            Legal(history) && (e.Took? ==> e.ret == Atomic(Contents(history), e.op).1)
    ensures Contents(history + [e]) == if e.Took? then Atomic(Contents(history), e.op).0 else Contents(history)
  {
    assert (history + [e])[..|history|] == history;
  }

  lemma StepKeepsFifo<Msg(!new)>(s: System<Msg>, tid: Tid, op: Op<Msg>)
    requires !s.fault && Legal(s.history) && Contents(s.history) == s.queue && ThreadInv(s, tid)
    ensures var s' := Step(s, tid, op);
            !s'.fault && Legal(s'.history) && Contents(s'.history) == s'.queue
  {
    match PcOf(s, tid)
    case Idle => LegalGrows(s.history, Called(tid, op));
    case Waiting(_) =>
    case Locked(Push(msg)) => LegalGrows(s.history, Took(tid, Op.Push(msg), Pushed));
    case Locked(Size) => LegalGrows(s.history, Took(tid, Op.Size, Sized(|s.queue|)));
    case Locked(Pop) => LegalGrows(s.history, Took(tid, Op.Pop, Popped(None)));
    case SawFront =>
    case Fronted(msg) => LegalGrows(s.history, Took(tid, Op.Pop, Popped(Some(msg))));
    case Finished(_, _) =>
    case Unlocked(o, ret) => LegalGrows(s.history, Returned(tid, o, ret));
  }

  lemma StepKeepsInv<Msg(!new)>(s: System<Msg>, tid: Tid, op: Op<Msg>)
    requires Inv(s)
    ensures Inv(Step(s, tid, op))
  {
    assert ThreadInv(s, tid);
    StepKeepsFifo(s, tid, op);
    forall t: Tid ensures ThreadInv(Step(s, tid, op), t) {
      assert ThreadInv(s, t);
      if t == tid {
        StepKeepsOwn(s, tid, op);
      } else {
        StepKeepsOthers(s, tid, op, t);
      }
    }
  }

  lemma {:induction false} RunKeepsInv<Msg(!new)>(schedule: seq<Move<Msg>>)
    ensures Inv(Run(schedule))
  {
    if schedule != [] {
      var n := |schedule| - 1;
      RunKeepsInv(schedule[..n]);
      StepKeepsInv(Run(schedule[..n]), schedule[n].tid, schedule[n].op);
    }
  }

  // ----- what follows for every run -----

  /** At most one thread is ever between lock and unlock. */
  lemma MutualExclusion<Msg(!new)>(schedule: seq<Move<Msg>>, t1: Tid, t2: Tid)
    requires Holds(PcOf(Run(schedule), t1)) && Holds(PcOf(Run(schedule), t2))
    ensures t1 == t2
  {
    RunKeepsInv(schedule);
    assert ThreadInv(Run(schedule), t1) && ThreadInv(Run(schedule), t2);
  }

  /** `front` and `pop` of the underlying queue never meet it empty. */
  lemma NeverPopsEmpty<Msg(!new)>(schedule: seq<Move<Msg>>)
    ensures !Run(schedule).fault
  {
    RunKeepsInv(schedule);
  }

  /** Linearizability. In every interleaving each call takes effect once, between
      its call and its return, and returns the result of that effect; and the
      effects, in the order they happen, are a run of an atomic FIFO that ends
      with the real queue's contents. */
  lemma {:induction false} Linearizable<Msg(!new)>(schedule: seq<Move<Msg>>)
    ensures var s := Run(schedule);
            && Legal(s.history)
            && Contents(s.history) == s.queue
            && forall tid: Tid :: PhaseOf(s.history, tid) == ExpectedPhase(PcOf(s, tid)) != Broken
  {
    RunKeepsInv(schedule);
    forall tid: Tid ensures PhaseOf(Run(schedule).history, tid) == ExpectedPhase(PcOf(Run(schedule), tid)) {
      assert ThreadInv(Run(schedule), tid);
    }
  }

  lemma {:induction false} LegalConserves<Msg>(history: seq<Event<Msg>>)
    requires Legal(history)
    ensures Pops(history) + Contents(history) == Pushes(history)
  {
    if history != [] {
      LegalConserves(history[..|history| - 1]);
    }
  }

  /** Nothing is lost, invented or reordered: what was popped, then what is queued,
      is what was pushed. */
  lemma PoppedThenQueuedIsPushed<Msg(!new)>(schedule: seq<Move<Msg>>)
    ensures var s := Run(schedule); Pops(s.history) + s.queue == Pushes(s.history)
  {
    RunKeepsInv(schedule);
    LegalConserves(Run(schedule).history);
  }

  lemma {:induction false} LegalPrefix<Msg>(history: seq<Event<Msg>>, n: nat)
    requires Legal(history) && n <= |history|
    ensures Legal(history[..n])
  {
    if n == |history| {
      assert history[..n] == history;
    } else {
      LegalPrefix(history[..|history| - 1], n);
      assert history[..|history| - 1][..n] == history[..n];
    }
  }

  /** What each effect returns, in terms of the pushes and pops before it: a pop takes the
      oldest element pushed and not yet popped, and finds nothing exactly if there is none;
      a size is the number of them. */
  lemma EffectsAreFifo<Msg(!new)>(schedule: seq<Move<Msg>>, i: nat)
    requires i < |Run(schedule).history| && Run(schedule).history[i].Took?
    ensures var e, before := Run(schedule).history[i], Run(schedule).history[..i];
            var pushed, popped := Pushes(before), |Pops(before)|;
            && popped <= |pushed|
            && match e.op
               case Push(_) => e.ret == Pushed
               case Pop => e.ret == Popped(if popped == |pushed| then None else Some(pushed[popped]))
               case Size => e.ret == Sized(|pushed| - popped)
  {
    RunKeepsInv(schedule);
    var history := Run(schedule).history;
    LegalPrefix(history, i + 1);
    assert history[..i + 1][..i] == history[..i];
    assert history[..i + 1][i] == history[i];
    LegalConserves(history[..i]);
  }

  // ----- progress -----

  /** Thread `tid` makes `n` steps while no other does. */
  function Solo<Msg>(s: System<Msg>, tid: Tid, op: Op<Msg>, n: nat): System<Msg> {
    if n == 0 then s else Step(Solo(s, tid, op, n - 1), tid, op)
  }

  /** When nobody holds the mutex a call completes on its own: five steps, or seven for a
      pop that finds something; it does what the atomic FIFO does and leaves the mutex
      free. */
  lemma CallCompletes<Msg>(s: System<Msg>, tid: Tid, op: Op<Msg>)
    requires PcOf(s, tid).Idle? && s.mutex == None
    ensures var (queue, ret) := Atomic(s.queue, op);
            var after := Solo(s, tid, op, if op.Pop? && s.queue != [] then 7 else 5);
            && after.queue == queue && after.mutex == None && PcOf(after, tid).Idle?
            && after.history == s.history + [Called(tid, op), Took(tid, op, ret), Returned(tid, op, ret)]
            && after.fault == s.fault
  {
    var s1 := Step(s, tid, op);
    var s2 := Step(s1, tid, op);
    assert Solo(s, tid, op, 0) == s && Solo(s, tid, op, 1) == s1 && Solo(s, tid, op, 2) == s2;
    assert PcOf(s1, tid) == Waiting(op) && PcOf(s2, tid) == Locked(op);
    assert s2.queue == s.queue && s2.history == s.history + [Called(tid, op)];
    assert Solo(s, tid, op, 3) == Step(s2, tid, op);
    if op.Pop? && s.queue != [] {
      assert PcOf(Solo(s, tid, op, 4), tid) == Fronted(s.queue[0]);
      assert PcOf(Solo(s, tid, op, 5), tid).Finished?;
      assert PcOf(Solo(s, tid, op, 6), tid).Unlocked?;
    } else {
      assert PcOf(Solo(s, tid, op, 3), tid).Finished?;
      assert PcOf(Solo(s, tid, op, 4), tid).Unlocked?;
    }
  }

  /** Whoever holds the mutex gives it back within four steps of its own. */
  lemma MutexIsReleased<Msg(!new)>(schedule: seq<Move<Msg>>, tid: Tid, op: Op<Msg>) returns (n: nat)
    requires Run(schedule).mutex == Some(tid)
    ensures n <= 4 && Solo(Run(schedule), tid, op, n).mutex == None
  {
    RunKeepsInv(schedule);
    assert ThreadInv(Run(schedule), tid);
    n := HolderReleases(Run(schedule), tid, op);
  }

  lemma HolderReleases<Msg>(s: System<Msg>, tid: Tid, op: Op<Msg>) returns (n: nat)
    requires ThreadInv(s, tid) && s.mutex == Some(tid)
    ensures n <= 4 && Solo(s, tid, op, n).mutex == None
  {
    var s1 := Step(s, tid, op);
    var s2 := Step(s1, tid, op);
    var s3 := Step(s2, tid, op);
    assert Solo(s, tid, op, 0) == s && Solo(s, tid, op, 1) == s1;
    assert Solo(s, tid, op, 2) == s2 && Solo(s, tid, op, 3) == s3;
    var pc := PcOf(s, tid);
    if pc.Finished? {
      n := 1;
    } else if pc.Fronted? || (pc.Locked? && !(pc.op.Pop? && s.queue != [])) {
      assert PcOf(s1, tid).Finished?;
      n := 2;
    } else if pc.SawFront? {
      assert PcOf(s1, tid).Fronted? && PcOf(s2, tid).Finished?;
      n := 3;
    } else {
      assert PcOf(s1, tid).SawFront? && PcOf(s2, tid).Fronted? && PcOf(s3, tid).Finished?;
      n := 4;
    }
  }
}
