/** What the controller promises about telemetry, over every run: any sequence of
    calls and network events, any return code from libmosquitto. */
module ControllerTelemetry {
  import opened Json
  import opened Mqtt
  import opened Wrappers
  import opened Sequences
  import opened ControllerModel

  // ----- sequences of batches -----

  lemma ValuesForGrows(batches: seq<Batch>, b: Batch, key: Key)
    ensures ValuesFor(batches + [b], key) ==
            ValuesFor(batches, key) + if key in b.values then [b.values[key]] else []
  {
    assert (batches + [b])[..|batches|] == batches;
  }

  lemma HistoryGrows(passed: seq<Passed>, p: Passed, key: Key)
    ensures History(passed + [p], key) == History(passed, key) + if p.key == key then [p.value] else []
  {
    assert (passed + [p])[..|passed|] == passed;
  }

  lemma WithFateGrows(handled: seq<Handled>, h: Handled)
    ensures WithFate(handled + [h], Accepted) ==
            WithFate(handled, Accepted) + if h.fate == Accepted then [h.batch] else []
  {
    assert (handled + [h])[..|handled|] == handled;
  }

  lemma {:induction false} WithFateConcat(a: seq<Handled>, b: seq<Handled>)
    ensures WithFate(a + b, Accepted) == WithFate(a, Accepted) + WithFate(b, Accepted)
  {
    if b == [] {
      assert a + b == a;
    } else {
      var n := |b| - 1;
      assert (a + b)[..|a + b| - 1] == a + b[..n];
      WithFateConcat(a, b[..n]);
    }
  }

  lemma {:induction false} ValuesForConcat(a: seq<Batch>, b: seq<Batch>, key: Key)
    ensures ValuesFor(a + b, key) == ValuesFor(a, key) + ValuesFor(b, key)
  {
    if b == [] {
      assert a + b == a;
    } else {
      var n := |b| - 1;
      assert (a + b)[..|a + b| - 1] == a + b[..n];
      ValuesForConcat(a, b[..n], key);
    }
  }

  /** Folding keeps, for each key, the last value any batch holds for it. */
  lemma {:induction false} FoldIsLast(batches: seq<Batch>, key: Key)
    ensures var vs := ValuesFor(batches, key);
            && (key in Fold(batches) <==> vs != [])
            && (vs != [] ==> Fold(batches)[key] == vs[|vs| - 1])
  {
    if batches != [] {
      FoldIsLast(batches[..|batches| - 1], key);
    }
  }

  lemma {:induction false} AcceptedIsSubsequence(handled: seq<Handled>, key: Key)
    ensures IsSubsequence(ValuesFor(WithFate(handled, Accepted), key), ValuesFor(Batches(handled), key))
  {
    if handled == [] {
      SubsequenceOfItself(ValuesFor([], key));
    } else {
      var n := |handled| - 1;
      var front, b := handled[..n], handled[n].batch;
      AcceptedIsSubsequence(front, key);
      assert Batches(handled) == Batches(front) + [b];
      ValuesForGrows(Batches(front), b, key);
      var last := if key in b.values then [b.values[key]] else [];
      if handled[n].fate == Accepted {
        ValuesForGrows(WithFate(front, Accepted), b, key);
        SubsequenceOfItself(last);
        SubsequenceConcat(ValuesFor(WithFate(front, Accepted), key), ValuesFor(Batches(front), key), last, last);
      } else {
        SubsequenceWiden(ValuesFor(WithFate(front, Accepted), key), ValuesFor(Batches(front), key), last);
      }
    }
  }

  /** The last batch given to publish that mentions this key was dropped. */
  predicate LostKey(handled: seq<Handled>, key: Key) {
    handled != [] &&
    (var n := |handled| - 1;
     if key in handled[n].batch.values then handled[n].fate.Dropped? else LostKey(handled[..n], key))
  }

  ghost predicate NothingDropped(log: Log) {
    forall i | 0 <= i < |log.handled| :: log.handled[i].fate.Accepted?
  }

  lemma {:induction false} NothingDroppedMeans(handled: seq<Handled>)
    requires forall i | 0 <= i < |handled| :: handled[i].fate.Accepted?
    ensures WithFate(handled, Accepted) == Batches(handled)
    ensures forall key :: !LostKey(handled, key)
  {
    if handled != [] {
      NothingDroppedMeans(handled[..|handled| - 1]);
    }
  }

  lemma {:induction false} LastAcceptedIsLast(handled: seq<Handled>, key: Key)
    requires !LostKey(handled, key)
    ensures key in Fold(WithFate(handled, Accepted)) <==> key in Fold(Batches(handled))
    ensures key in Fold(Batches(handled)) ==> Fold(WithFate(handled, Accepted))[key] == Fold(Batches(handled))[key]
  {
    if handled != [] {
      var n := |handled| - 1;
      var b := handled[n].batch;
      assert Batches(handled)[..n] == Batches(handled[..n]);
      assert Fold(Batches(handled)) == Fold(Batches(handled[..n])) + b.values;
      if handled[n].fate.Accepted? {
        assert (WithFate(handled[..n], Accepted) + [b])[..|WithFate(handled[..n], Accepted)|]
            == WithFate(handled[..n], Accepted);
        assert Fold(WithFate(handled, Accepted)) == Fold(WithFate(handled[..n], Accepted)) + b.values;
      }
      if key !in b.values {
        LastAcceptedIsLast(handled[..n], key);
      }
    }
  }

  // ----- what one drain does -----

  /** These batches with the fates that the publishes from number `i` on give them. */
  function HandedOver(batches: seq<Batch>, rc: nat -> Rc, i: nat): seq<Handled> {
    seq(|batches|, k requires 0 <= k < |batches| => Handled(batches[k], FateOf(rc(i + k))))
  }

  /** The drain hands over a prefix of the queue, in order, each batch with the fate its
      publish gave it. It ends with the queue empty or, by a throw, at the first batch
      whose publish fails: that batch and all behind it stay queued. */
  lemma {:induction false} DrainExact(sys: System, rc: nat -> Rc, i: nat) returns (n: nat)
    ensures n <= |sys.s.pending|
    ensures forall k: nat | i <= k < i + n :: !rc(k).Failure?
    ensures n < |sys.s.pending| ==> rc(i + n).Failure?
    ensures Drain(sys, rc, i) ==
            (System(sys.s.(pending := sys.s.pending[n..]),
                    sys.log.(handled := sys.log.handled + HandedOver(sys.s.pending[..n], rc, i))),
             if n == |sys.s.pending| then Returns(()) else Throws)
    decreases |sys.s.pending|
  {
    var pending := sys.s.pending;
    if pending == [] || rc(i).Failure? {
      n := 0;
      assert sys.log.handled + HandedOver(pending[..0], rc, i) == sys.log.handled;
    } else {
      var h := Handled(pending[0], FateOf(rc(i)));
      var next := System(sys.s.(pending := pending[1..]), sys.log.(handled := sys.log.handled + [h]));
      var m := DrainExact(next, rc, i + 1);
      n := m + 1;
      assert pending[1..][m..] == pending[n..];
      assert HandedOver(pending[..n], rc, i) == [h] + HandedOver(pending[1..][..m], rc, i + 1);
      assert sys.log.handled + [h] + HandedOver(pending[1..][..m], rc, i + 1)
          == sys.log.handled + ([h] + HandedOver(pending[1..][..m], rc, i + 1));
    }
  }

  // ----- the queue: conservation and order -----

  /** Everything emitted, in order, is what was given to publish and then what is
      still queued; while connected nothing is queued. */
  ghost predicate FifoInv(sys: System) {
    && sys.log.emitted == Batches(sys.log.handled) + sys.s.pending
    && (sys.s.client.connected && !sys.log.dead ==> sys.s.pending == [])
  }

  lemma BatchesConcat(a: seq<Handled>, b: seq<Handled>)
    ensures Batches(a + b) == Batches(a) + Batches(b)
  {
  }

  /** A connect event touches the queue, the histories of publishes and the client. */
  lemma ConnectFrame(sys: System, code: int, env: ConnectEnv) returns (n: nat)
    ensures n <= |sys.s.pending|
    ensures var after := Connect(sys, code, env);
            && after.s == sys.s.(pending := after.s.pending, client := after.s.client)
            && after.log == sys.log.(handled := after.log.handled, attributeSends := after.log.attributeSends,
                                     dead := after.log.dead)
            && after.s.pending == sys.s.pending[n..]
            && sys.log.handled <= after.log.handled
            && Batches(after.log.handled[|sys.log.handled|..]) == sys.s.pending[..n]
            && after.s.client.connected == (code == 0)
            && (code == 0 && !after.log.dead ==> n == |sys.s.pending|)
  {
    n := 0;
    if code == 0 {
      var flagged := sys.(s := sys.s.(client := OnConnect(sys.s.client, code, env.replay)));
      var (client, r1) := Subscribe(flagged.s.client, RPC_FILTER, 2, env.subscribe);
      if r1.Returns? {
        var subscribed := flagged.(s := flagged.s.(client := client));
        var (resent, r2) := if sys.s.attributes == map[] then (subscribed, Returns(()))
                            else SendAttributes(subscribed, sys.s.attributes, env.attributes);
        if r2.Returns? {
          n := DrainExact(resent, env.drain, 0);
        }
      }
    }
  }

  lemma SendTelemetryKeepsFifo(sys: System, batch: Batch, rc: Rc)
    requires FifoInv(sys)
    requires !sys.log.dead
    ensures FifoInv(SendTelemetry(sys, batch, rc).0)
  {
    var handled := sys.log.handled;
    if sys.s.client.connected {
      BatchesConcat(handled, [Handled(batch, FateOf(rc))]);
      assert Batches([Handled(batch, FateOf(rc))]) == [batch];
      assert Batches(handled) + [] == Batches(handled);
    } else {
      assert (Batches(handled) + sys.s.pending) + [batch] == Batches(handled) + (sys.s.pending + [batch]);
    }
  }

  lemma SendKeepsFifo(sys: System, now: int, env: SendEnv)
    requires FifoInv(sys) && !sys.log.dead
    ensures FifoInv(Send(sys, now, env).0)
  {
    if sys.s.taintedTelemetry != {} {
      var data := Filled(sys.s.telemetry, sys.s.taintedTelemetry);
      SendTelemetryKeepsFifo(sys.(s := sys.s.(telemetry := data)),
                             Batch(Restrict(data, sys.s.taintedTelemetry), now * 1000), env.telemetry);
    }
    assert FifoInv(FlushTelemetry(sys, now, env.telemetry).0);
    SendFrame(sys, now, env);
  }

  lemma ConnectKeepsFifo(sys: System, code: int, env: ConnectEnv)
    requires FifoInv(sys)
    ensures FifoInv(Connect(sys, code, env))
  {
    var after := Connect(sys, code, env);
    var n := ConnectFrame(sys, code, env);
    var latest := after.log.handled[|sys.log.handled|..];
    BatchesConcat(sys.log.handled, latest);
    assert after.log.handled == sys.log.handled + latest;
    assert sys.s.pending == sys.s.pending[..n] + sys.s.pending[n..];
  }

  lemma StepKeepsFifo(sys: System, a: Action)
    requires FifoInv(sys)
    ensures FifoInv(Step(sys, a))
  {
    if !sys.log.dead {
      match a
      case SendCall(now, env) => SendKeepsFifo(sys, now, env);
      case ConnectEvent(code, env) => ConnectKeepsFifo(sys, code, env);
      case _ =>
    }
  }

  /** Store and forward, under any return codes and even after a throw: the batches
      given to publish followed by the queued ones are exactly the emitted ones, in
      order; being connected means the queue is empty; and if publish never reported
      NO_CONN, what the broker accepted followed by the queue is what was emitted. */
  lemma {:induction false} StoreAndForward(actions: seq<Action>)
    ensures var sys := Run(actions);
            && FifoInv(sys)
            && (NothingDropped(sys.log) ==> WithFate(sys.log.handled, Accepted) + sys.s.pending == sys.log.emitted)
  {
    if actions != [] {
      StoreAndForward(actions[..|actions| - 1]);
      StepKeepsFifo(Run(actions[..|actions| - 1]), actions[|actions| - 1]);
    }
    if NothingDropped(Run(actions).log) {
      NothingDroppedMeans(Run(actions).log.handled);
    }
  }

  lemma {:induction false} HandledSplits(handled: seq<Handled>)
    ensures multiset(Batches(handled)) == multiset(WithFate(handled, Accepted)) + multiset(WithFate(handled, Dropped))
  {
    if handled != [] {
      var n := |handled| - 1;
      HandledSplits(handled[..n]);
      assert Batches(handled) == Batches(handled[..n]) + [handled[n].batch];
    }
  }

  /** Conservation: every emitted batch is in exactly one of accepted, dropped and
      pending, as often as it was emitted. */
  lemma {:induction false} EveryBatchHasOneFate(actions: seq<Action>)
    ensures var sys := Run(actions);
            multiset(sys.log.emitted) ==
            multiset(WithFate(sys.log.handled, Accepted)) + multiset(WithFate(sys.log.handled, Dropped)) +
            multiset(sys.s.pending)
  {
    StoreAndForward(actions);
    HandledSplits(Run(actions).log.handled);
  }

  // ----- the delta log -----

  /** What has been emitted for a key, and then its current value if that is still to
      be emitted. */
  ghost function Shown(sys: System, key: Key): seq<Json> {
    ValuesFor(sys.log.emitted, key) +
    if key in sys.s.taintedTelemetry && key in sys.s.telemetry then [sys.s.telemetry[key]] else []
  }

  ghost predicate KeyInv(sys: System, key: Key) {
    var shown, history := Shown(sys, key), History(sys.log.passed, key);
    && IsSubsequence(shown, history)
    && (key in sys.s.taintedTelemetry ==> key in sys.s.telemetry)
    && (key in sys.s.telemetry <==> shown != [])
    && (key in sys.s.telemetry <==> history != [])
    && (key in sys.s.telemetry ==>
          && shown[|shown| - 1] == sys.s.telemetry[key]
          && JsonEq(sys.s.telemetry[key], history[|history| - 1]))
  }

  lemma TelemetryCallKeepsKey(sys: System, k: Key, value: Json, key: Key)
    requires KeyInv(sys, key)
    ensures KeyInv(PublishTelemetry(sys, k, value), key)
  {
    var after := PublishTelemetry(sys, k, value);
    HistoryGrows(sys.log.passed, Passed(k, value), key);
    var shown, history := Shown(sys, key), History(sys.log.passed, key);
    if k != key {
      assert Shown(after, key) == shown;
    } else if Changes(sys.s.telemetry, key, value) {
      var emitted := ValuesFor(sys.log.emitted, key);
      SubsequencePrefix(shown, history, |emitted|);
      assert shown[..|emitted|] == emitted;
      SubsequenceOfItself([value]);
      SubsequenceConcat(emitted, history, [value], [value]);
      JsonEqReflexive(value);
      assert Shown(after, key) == emitted + [value];
    } else {
      SubsequenceWiden(shown, history, [value]);
    }
  }

  /** The part of a `send` that concerns telemetry, when the tainted keys are keys of
      the map: nothing at all, or one batch of the tainted values handed off. */
  lemma FlushTelemetryExact(sys: System, now: int, rc: Rc)
    requires sys.s.taintedTelemetry <= sys.s.telemetry.Keys
    ensures var (after, r) := FlushTelemetry(sys, now, rc);
            var batch := Batch(Restrict(sys.s.telemetry, sys.s.taintedTelemetry), now * 1000);
            && (r.Throws? <==> sys.s.taintedTelemetry != {} && sys.s.client.connected && rc.Failure?)
            && (sys.s.taintedTelemetry == {} || r.Throws? ==> after == sys)
            && (sys.s.taintedTelemetry != {} && r.Returns? ==>
                  && after.s == sys.s.(taintedTelemetry := {},
                                       pending := if sys.s.client.connected then sys.s.pending
                                                  else sys.s.pending + [batch])
                  && after.log == sys.log.(emitted := sys.log.emitted + [batch],
                                           handled := if sys.s.client.connected
                                                      then sys.log.handled + [Handled(batch, FateOf(rc))]
                                                      else sys.log.handled))
  {
    assert Filled(sys.s.telemetry, sys.s.taintedTelemetry) == sys.s.telemetry;
  }

  /** The attribute part of a `send` leaves all of that alone. */
  lemma SendFrame(sys: System, now: int, env: SendEnv)
    ensures var first, after := FlushTelemetry(sys, now, env.telemetry).0, Send(sys, now, env).0;
            && after.s == first.s.(attributes := after.s.attributes, taintedAttributes := after.s.taintedAttributes)
            && after.log == first.log.(attributeSends := after.log.attributeSends)
  {
  }

  lemma {:induction false} FlushKeepsKey(sys: System, now: int, rc: Rc, key: Key)
    requires KeyInv(sys, key)
    requires sys.s.taintedTelemetry <= sys.s.telemetry.Keys
    ensures KeyInv(FlushTelemetry(sys, now, rc).0, key)
  {
    var after := FlushTelemetry(sys, now, rc).0;
    FlushTelemetryExact(sys, now, rc);
    if after.log.emitted != sys.log.emitted {
      ValuesForGrows(sys.log.emitted, Batch(Restrict(sys.s.telemetry, sys.s.taintedTelemetry), now * 1000), key);
    }
    assert Shown(after, key) == Shown(sys, key);
    KeyInvFrame(sys, after, key);
  }

  /** The invariant depends on no more than this. */
  lemma KeyInvFrame(sys: System, after: System, key: Key)
    requires KeyInv(sys, key)
    requires after.s.telemetry == sys.s.telemetry && after.s.taintedTelemetry <= sys.s.taintedTelemetry
    requires Shown(after, key) == Shown(sys, key) && after.log.passed == sys.log.passed
    ensures KeyInv(after, key)
  {
  }

  lemma StepKeepsKey(sys: System, a: Action, key: Key)
    requires KeyInv(sys, key)
    requires sys.s.taintedTelemetry <= sys.s.telemetry.Keys
    ensures KeyInv(Step(sys, a), key)
  {
    if !sys.log.dead {
      match a
      case TelemetryCall(k, value) =>
        TelemetryCallKeepsKey(sys, k, value, key);
      case AttributeCall(k, value) =>
        KeyInvFrame(sys, SetAttribute(sys, k, value), key);
      case DisconnectEvent =>
        KeyInvFrame(sys, Disconnect(sys), key);
      case SendCall(now, env) =>
        FlushKeepsKey(sys, now, env.telemetry, key);
        SendFrame(sys, now, env);
        KeyInvFrame(FlushTelemetry(sys, now, env.telemetry).0, Send(sys, now, env).0, key);
      case ConnectEvent(code, env) =>
        var _ := ConnectFrame(sys, code, env);
        KeyInvFrame(sys, Connect(sys, code, env), key);
    }
  }

  lemma StepKeepsKeys(sys: System, a: Action)
    requires forall key :: KeyInv(sys, key)
    ensures forall key :: KeyInv(Step(sys, a), key)
  {
    TaintedAreKeys(sys);
    forall key ensures KeyInv(Step(sys, a), key) {
      assert KeyInv(sys, key);
      StepKeepsKey(sys, a, key);
    }
  }

  lemma TaintedAreKeys(sys: System)
    requires forall key :: KeyInv(sys, key)
    ensures sys.s.taintedTelemetry <= sys.s.telemetry.Keys
  {
    forall k | k in sys.s.taintedTelemetry ensures k in sys.s.telemetry {
      assert KeyInv(sys, k);
    }
  }

  lemma {:induction false} RunKeepsKeys(actions: seq<Action>)
    ensures forall key :: KeyInv(Run(actions), key)
  {
    if actions == [] {
      forall key ensures KeyInv(START, key) {
        SubsequenceOfItself(Shown(START, key));
      }
    } else {
      RunKeepsKeys(actions[..|actions| - 1]);
      StepKeepsKeys(Run(actions[..|actions| - 1]), actions[|actions| - 1]);
    }
  }

  /** Nothing is invented, reordered or duplicated: over every run, with any drops and
      throws, the values for a key in the accepted batches followed by the pending ones
      are at strictly increasing positions of the sequence of values the application
      passed for it. If the key is not tainted, and the last batch that mentions it was
      not dropped, the last such value equals, as JSON, the last one passed. */
  lemma {:induction false} DeliveredIsSubsequenceOfPassed(actions: seq<Action>, key: Key)
    ensures var sys := Run(actions);
            var delivered := ValuesFor(WithFate(sys.log.handled, Accepted) + sys.s.pending, key);
            var passed := History(sys.log.passed, key);
            && IsSubsequence(delivered, passed)
            && (passed != [] && key !in sys.s.taintedTelemetry && !LostKey(sys.log.handled, key) ==>
                  delivered != [] && JsonEq(delivered[|delivered| - 1], passed[|passed| - 1]))
  {
    var sys := Run(actions);
    StoreAndForward(actions);
    RunKeepsKeys(actions);
    assert KeyInv(sys, key);
    EmittedOfPassed(sys, key);
    DeliveredOfEmitted(sys, key);
    SubsequenceTransitive(ValuesFor(WithFate(sys.log.handled, Accepted) + sys.s.pending, key),
                          ValuesFor(sys.log.emitted, key), History(sys.log.passed, key));
  }

  lemma EmittedOfPassed(sys: System, key: Key)
    requires KeyInv(sys, key)
    ensures var emitted, passed := ValuesFor(sys.log.emitted, key), History(sys.log.passed, key);
            && IsSubsequence(emitted, passed)
            && (passed != [] && key !in sys.s.taintedTelemetry ==>
                  emitted != [] && JsonEq(emitted[|emitted| - 1], passed[|passed| - 1]))
  {
    var emitted := ValuesFor(sys.log.emitted, key);
    SubsequencePrefix(Shown(sys, key), History(sys.log.passed, key), |emitted|);
    assert Shown(sys, key)[..|emitted|] == emitted;
  }

  /** Of the values emitted for a key, those of the dropped batches are missing from
      what is delivered; the last one is there unless it was dropped. */
  lemma DeliveredOfEmitted(sys: System, key: Key)
    requires FifoInv(sys)
    ensures var delivered := ValuesFor(WithFate(sys.log.handled, Accepted) + sys.s.pending, key);
            var emitted := ValuesFor(sys.log.emitted, key);
            && IsSubsequence(delivered, emitted)
            && (emitted != [] && !LostKey(sys.log.handled, key) ==>
                  delivered != [] && delivered[|delivered| - 1] == emitted[|emitted| - 1])
  {
    var accepted, handled := WithFate(sys.log.handled, Accepted), Batches(sys.log.handled);
    ValuesForConcat(accepted, sys.s.pending, key);
    ValuesForConcat(handled, sys.s.pending, key);
    AcceptedIsSubsequence(sys.log.handled, key);
    AppendSame(ValuesFor(accepted, key), ValuesFor(handled, key), ValuesFor(sys.s.pending, key));
    if !LostKey(sys.log.handled, key) {
      LastAcceptedValue(sys.log.handled, key);
    }
  }

  lemma AppendSame(a: seq<Json>, b: seq<Json>, c: seq<Json>)
    requires IsSubsequence(a, b)
    ensures IsSubsequence(a + c, b + c)
    ensures b != [] && a != [] && a[|a| - 1] == b[|b| - 1] ==>
              (a + c)[|a + c| - 1] == (b + c)[|b + c| - 1]
    ensures c != [] ==> (a + c)[|a + c| - 1] == (b + c)[|b + c| - 1]
  {
    SubsequenceOfItself(c);
    SubsequenceConcat(a, b, c, c);
  }

  lemma LastAcceptedValue(handled: seq<Handled>, key: Key)
    requires !LostKey(handled, key)
    ensures var accepted, all := ValuesFor(WithFate(handled, Accepted), key), ValuesFor(Batches(handled), key);
            all != [] ==> accepted != [] && accepted[|accepted| - 1] == all[|all| - 1]
  {
    LastAcceptedIsLast(handled, key);
    FoldIsLast(WithFate(handled, Accepted), key);
    FoldIsLast(Batches(handled), key);
  }

  /** Tainted keys are always keys of the map, so `send` never changes the map. */
  lemma SendKeepsTelemetry(actions: seq<Action>, now: int, env: SendEnv)
    ensures var sys := Run(actions);
            && sys.s.taintedTelemetry <= sys.s.telemetry.Keys
            && Send(sys, now, env).0.s.telemetry == sys.s.telemetry
  {
    var sys := Run(actions);
    TaintedAreKeysOfRun(actions);
    FlushTelemetryExact(sys, now, env.telemetry);
    SendFrame(sys, now, env);
  }

  /** The delta log refines the map, in every reachable state whatever publish did:
      folding all emitted batches and laying the tainted part of the map on top gives
      the map. */
  lemma {:induction false} EmittedFoldsToTheMap(actions: seq<Action>)
    ensures var s := Run(actions).s;
            Fold(Run(actions).log.emitted) + Restrict(s.telemetry, s.taintedTelemetry) == s.telemetry
  {
    var sys := Run(actions);
    RunKeepsKeys(actions);
    var folded := Fold(sys.log.emitted) + Restrict(sys.s.telemetry, sys.s.taintedTelemetry);
    forall key
      ensures key in folded <==> key in sys.s.telemetry
      ensures key in folded ==> folded[key] == sys.s.telemetry[key]
    {
      assert KeyInv(sys, key);
      EmittedFoldsAtKey(sys, key);
    }
  }

  lemma EmittedFoldsAtKey(sys: System, key: Key)
    requires KeyInv(sys, key)
    ensures var folded := Fold(sys.log.emitted) + Restrict(sys.s.telemetry, sys.s.taintedTelemetry);
            && (key in folded <==> key in sys.s.telemetry)
            && (key in folded ==> folded[key] == sys.s.telemetry[key])
  {
    FoldIsLast(sys.log.emitted, key);
  }

  /** What the broker will have once the queue is drained, with the tainted part of the
      map laid on top. */
  ghost function Delivered(sys: System): Values {
    Fold(WithFate(sys.log.handled, Accepted) + sys.s.pending) + Restrict(sys.s.telemetry, sys.s.taintedTelemetry)
  }

  /** The two maps hold the same for this key. */
  predicate AgreeAt(a: Values, b: Values, key: Key) {
    && (key in a <==> key in b)
    && (key in a ==> a[key] == b[key])
  }

  /** Still to be sent, or at the broker. */
  predicate Covered(sys: System, key: Key) {
    || key in sys.s.taintedTelemetry
    || key in Fold(sys.s.pending)
    || AgreeAt(TelemetryView(sys.log), sys.s.telemetry, key)
  }

  /** Where delivery agrees with the map, exactly, over every run: a key is right if the
      last batch given to publish that mentions it was not dropped; or if the key is still
      to be sent, tainted or pending; or if the broker happens to hold the value all the
      same. Otherwise it is wrong. Both `send` and the drain on connect can drop a batch. */
  lemma {:induction false} DeliveryAgreesIff(actions: seq<Action>, key: Key)
    ensures var sys := Run(actions);
            AgreeAt(Delivered(sys), sys.s.telemetry, key)
            <==> !LostKey(sys.log.handled, key) || Covered(sys, key)
  {
    StoreAndForward(actions);
    EmittedFoldsToTheMap(actions);
    TaintedAreKeysOfRun(actions);
    AgreesAtKeyIff(Run(actions), key);
  }

  lemma AgreesAtKeyIff(sys: System, key: Key)
    requires FifoInv(sys) && sys.s.taintedTelemetry <= sys.s.telemetry.Keys
    requires Fold(sys.log.emitted) + Restrict(sys.s.telemetry, sys.s.taintedTelemetry) == sys.s.telemetry
    ensures AgreeAt(Delivered(sys), sys.s.telemetry, key) <==> !LostKey(sys.log.handled, key) || Covered(sys, key)
  {
    var accepted, pending := Fold(WithFate(sys.log.handled, Accepted)), Fold(sys.s.pending);
    FoldConcat(WithFate(sys.log.handled, Accepted), sys.s.pending);
    FoldConcat(Batches(sys.log.handled), sys.s.pending);
    var overlay := Restrict(sys.s.telemetry, sys.s.taintedTelemetry);
    assert Delivered(sys) == accepted + pending + overlay;
    if key in overlay {
      assert key in sys.s.taintedTelemetry;
    } else {
      assert AgreeAt(Delivered(sys), accepted + pending, key);
      assert AgreeAt(sys.s.telemetry, Fold(Batches(sys.log.handled)) + pending, key);
      if !LostKey(sys.log.handled, key) {
        LastAcceptedIsLast(sys.log.handled, key);
      }
    }
  }

  lemma TaintedAreKeysOfRun(actions: seq<Action>)
    ensures Run(actions).s.taintedTelemetry <= Run(actions).s.telemetry.Keys
  {
    RunKeepsKeys(actions);
    TaintedAreKeys(Run(actions));
  }

  lemma {:induction false} FoldConcat(a: seq<Batch>, b: seq<Batch>)
    ensures Fold(a + b) == Fold(a) + Fold(b)
  {
    if b == [] {
      assert a + b == a;
    } else {
      var n := |b| - 1;
      assert (a + b)[..|a + b| - 1] == a + b[..n];
      FoldConcat(a, b[..n]);
    }
  }

  /** If no publish was dropped, accepted batches, then pending ones, then the tainted
      part of the map, fold to the map. */
  lemma {:induction false} DeltaLogRefinesTheMap(actions: seq<Action>)
    requires NothingDropped(Run(actions).log)
    ensures Delivered(Run(actions)) == Run(actions).s.telemetry
  {
    NothingDroppedMeans(Run(actions).log.handled);
    forall key ensures AgreeAt(Delivered(Run(actions)), Run(actions).s.telemetry, key) {
      DeliveryAgreesIff(actions, key);
    }
    AgreeEverywhere(Delivered(Run(actions)), Run(actions).s.telemetry);
  }

  lemma AgreeEverywhere(a: Values, b: Values)
    ensures a == b <==> forall key :: AgreeAt(a, b, key)
  {
    if forall key :: AgreeAt(a, b, key) {
      forall key ensures key in a <==> key in b {
        assert AgreeAt(a, b, key);
      }
      forall key | key in a ensures a[key] == b[key] {
        assert AgreeAt(a, b, key);
      }
    }
  }

  // ----- the two steps that can break it -----

  /** No other step does: a new value is tainted at once, and a call or event that is
      neither a `send` nor a connect sends nothing. */
  lemma {:induction false} OtherStepsKeepDelivery(actions: seq<Action>, a: Action)
    requires Delivered(Run(actions)) == Run(actions).s.telemetry
    requires !a.SendCall? && !a.ConnectEvent?
    ensures Delivered(Step(Run(actions), a)) == Step(Run(actions), a).s.telemetry
  {
    var sys := Run(actions);
    var after := Step(sys, a);
    assert (actions + [a])[..|actions|] == actions;
    forall key ensures AgreeAt(Delivered(after), after.s.telemetry, key) {
      DeliveryAgreesIff(actions, key);
      DeliveryAgreesIff(actions + [a], key);
      assert AgreeAt(Delivered(sys), sys.s.telemetry, key);
    }
    AgreeEverywhere(Delivered(after), after.s.telemetry);
  }

  /** `send` clears the taint although publish returned false. From a reachable state in
      which delivery agrees with the map, a `send` keeps it so exactly if it is made
      offline, or publish does not report NO_CONN, or the broker already had every value
      of the batch. */
  lemma {:induction false} SendKeepsDeliveryIff(actions: seq<Action>, now: int, env: SendEnv)
    requires !Run(actions).log.dead && Delivered(Run(actions)) == Run(actions).s.telemetry
    ensures var sys := Run(actions);
            var after := Send(sys, now, env).0;
            Delivered(after) == after.s.telemetry
            <==> !sys.s.client.connected || !env.telemetry.NoConn? ||
                 Restrict(TelemetryView(sys.log), sys.s.taintedTelemetry)
                 == Restrict(sys.s.telemetry, sys.s.taintedTelemetry)
  {
    var sys := Run(actions);
    SendKeepsTelemetry(actions, now, env);
    StoreAndForward(actions);
    FlushTelemetryExact(sys, now, env.telemetry);
    SendFrame(sys, now, env);
    var data, tainted := sys.s.telemetry, sys.s.taintedTelemetry;
    if tainted == {} {
      assert Restrict(TelemetryView(sys.log), {}) == Restrict(data, {});
    } else if !sys.s.client.connected {
      QueuedIsDelivered(sys, Batch(Restrict(data, tainted), now * 1000));
    } else if !env.telemetry.Failure? {
      HandedIsDeliveredIff(sys, now, env.telemetry);
    }
  }

  /** Offline the batch joins the queue, which counts as delivered like the taint did. */
  lemma QueuedIsDelivered(sys: System, batch: Batch)
    requires batch.values == Restrict(sys.s.telemetry, sys.s.taintedTelemetry)
    ensures Fold(WithFate(sys.log.handled, Accepted) + (sys.s.pending + [batch])) + Restrict(sys.s.telemetry, {})
            == Delivered(sys)
  {
    var sent := WithFate(sys.log.handled, Accepted) + sys.s.pending;
    assert WithFate(sys.log.handled, Accepted) + (sys.s.pending + [batch]) == sent + [batch];
    assert (sent + [batch])[..|sent|] == sent;
    assert Restrict(sys.s.telemetry, {}) == map[];
  }

  /** So does an accepted one. */
  lemma AcceptedDelivers(sys: System, batch: Batch)
    requires batch.values == Restrict(sys.s.telemetry, sys.s.taintedTelemetry) && sys.s.pending == []
    ensures Fold(WithFate(sys.log.handled + [Handled(batch, Accepted)], Accepted) + []) + Restrict(sys.s.telemetry, {})
            == Delivered(sys)
  {
    WithFateGrows(sys.log.handled, Handled(batch, Accepted));
    QueuedIsDelivered(sys, batch);
    assert WithFate(sys.log.handled, Accepted) + ([] + [batch]) == WithFate(sys.log.handled, Accepted) + [batch] + [];
  }

  /** The batch of a connected `send`, with nothing pending. */
  lemma HandedIsDeliveredIff(sys: System, now: int, rc: Rc)
    requires sys.s.pending == [] && sys.s.taintedTelemetry <= sys.s.telemetry.Keys && !rc.Failure?
    requires Delivered(sys) == sys.s.telemetry
    ensures var overlay := Restrict(sys.s.telemetry, sys.s.taintedTelemetry);
            var after := sys.(s := sys.s.(taintedTelemetry := {}),
                              log := sys.log.(emitted := sys.log.emitted + [Batch(overlay, now * 1000)],
                                              handled := sys.log.handled +
                                                         [Handled(Batch(overlay, now * 1000), FateOf(rc))]));
            Delivered(after) == sys.s.telemetry
            <==> rc.Success? || Restrict(TelemetryView(sys.log), sys.s.taintedTelemetry) == overlay
  {
    var view, data, tainted := TelemetryView(sys.log), sys.s.telemetry, sys.s.taintedTelemetry;
    var h := Handled(Batch(Restrict(data, tainted), now * 1000), FateOf(rc));
    var after := sys.(s := sys.s.(taintedTelemetry := {}),
                      log := sys.log.(emitted := sys.log.emitted + [h.batch], handled := sys.log.handled + [h]));
    assert after.log.handled[..|sys.log.handled|] == sys.log.handled;
    DeliveredWhenConnected(sys);
    DeliveredWhenConnected(after);
    if rc.Success? {
      var accepted := WithFate(sys.log.handled, Accepted);
      assert (accepted + [h.batch])[..|accepted|] == accepted;
      assert TelemetryView(after.log) == view + Restrict(data, tainted);
    } else {
      assert TelemetryView(after.log) == view;
      OverlayIdleIff(view, data, tainted);
    }
  }

  /** The drain pops although publish returned false. From a reachable state in which
      delivery agrees with the map, a connect keeps it so exactly if every key whose last
      batch in this drain was dropped is tainted, is in a batch still pending, or has its
      value at the broker all the same. */
  lemma {:induction false} ConnectKeepsDeliveryIff(actions: seq<Action>, code: int, env: ConnectEnv)
    requires !Run(actions).log.dead && Delivered(Run(actions)) == Run(actions).s.telemetry
    ensures var sys := Run(actions);
            var after := Connect(sys, code, env);
            && sys.log.handled <= after.log.handled
            && (Delivered(after) == after.s.telemetry
                <==> forall key | LostKey(after.log.handled[|sys.log.handled|..], key) :: Covered(after, key))
  {
    var sys := Run(actions);
    var after := Connect(sys, code, env);
    var n := ConnectFrame(sys, code, env);
    var drained := after.log.handled[|sys.log.handled|..];
    forall key
      ensures AgreeAt(Delivered(after), after.s.telemetry, key) <==> (LostKey(drained, key) ==> Covered(after, key))
    {
      AgreesAfterConnectIff(actions, code, env, key);
      DeliveryAgreesIff(actions, key);
      DrainAtKey(sys, after, n, key);
    }
    AgreeEverywhere(Delivered(after), after.s.telemetry);
  }

  lemma {:induction false} AgreesAfterConnectIff(actions: seq<Action>, code: int, env: ConnectEnv, key: Key)
    requires !Run(actions).log.dead
    ensures var after := Connect(Run(actions), code, env);
            AgreeAt(Delivered(after), after.s.telemetry, key)
            <==> !LostKey(after.log.handled, key) || Covered(after, key)
  {
    assert (actions + [ConnectEvent(code, env)])[..|actions|] == actions;
    DeliveryAgreesIff(actions + [ConnectEvent(code, env)], key);
  }

  /** For a key that was right, the drain of the first `n` batches matters only if it drops
      the last of them that mentions the key. */
  lemma DrainAtKey(sys: System, after: System, n: nat, key: Key)
    requires n <= |sys.s.pending| && sys.log.handled <= after.log.handled
    requires after.s.pending == sys.s.pending[n..]
    requires Batches(after.log.handled[|sys.log.handled|..]) == sys.s.pending[..n]
    requires after.s.telemetry == sys.s.telemetry && after.s.taintedTelemetry == sys.s.taintedTelemetry
    requires !LostKey(sys.log.handled, key) || Covered(sys, key)
    ensures !LostKey(after.log.handled, key) || Covered(after, key) <==>
            (LostKey(after.log.handled[|sys.log.handled|..], key) ==> Covered(after, key))
  {
    var before, drained := sys.log.handled, after.log.handled[|sys.log.handled|..];
    assert after.log.handled == before + drained;
    LostKeyConcat(before, drained, key);
    if key !in Fold(Batches(drained)) {
      UnmentionedIsUnchanged(before, drained, key);
      FoldConcat(sys.s.pending[..n], sys.s.pending[n..]);
      assert sys.s.pending[..n] + sys.s.pending[n..] == sys.s.pending;
    }
  }

  /** The later publishes decide, if they mention the key at all. */
  lemma {:induction false} LostKeyConcat(a: seq<Handled>, b: seq<Handled>, key: Key)
    ensures LostKey(a + b, key) == if key in Fold(Batches(b)) then LostKey(b, key) else LostKey(a, key)
    ensures LostKey(b, key) ==> key in Fold(Batches(b))
  {
    if b == [] {
      assert a + b == a;
    } else {
      var n := |b| - 1;
      assert (a + b)[..|a + b| - 1] == a + b[..n];
      assert Batches(b)[..n] == Batches(b[..n]);
      LostKeyConcat(a, b[..n], key);
    }
  }

  lemma {:induction false} UnmentionedIsUnchanged(a: seq<Handled>, b: seq<Handled>, key: Key)
    requires key !in Fold(Batches(b))
    ensures AgreeAt(Fold(WithFate(a + b, Accepted)), Fold(WithFate(a, Accepted)), key)
  {
    if b == [] {
      assert a + b == a;
    } else {
      var n := |b| - 1;
      assert (a + b)[..|a + b| - 1] == a + b[..n];
      assert Batches(b)[..n] == Batches(b[..n]);
      UnmentionedIsUnchanged(a, b[..n], key);
      var before := WithFate(a + b[..n], Accepted);
      assert (before + [b[n].batch])[..|before|] == before;
    }
  }

  lemma DeliveredWhenConnected(sys: System)
    requires sys.s.pending == []
    ensures Delivered(sys) == TelemetryView(sys.log) + Restrict(sys.s.telemetry, sys.s.taintedTelemetry)
    ensures sys.s.taintedTelemetry == {} ==> Delivered(sys) == TelemetryView(sys.log)
  {
    var accepted := WithFate(sys.log.handled, Accepted);
    assert accepted + [] == accepted;
    if sys.s.taintedTelemetry == {} {
      assert Restrict(sys.s.telemetry, {}) == map[];
    }
  }

  lemma OverlayIdleIff(view: Values, data: Values, keys: set<Key>)
    requires keys <= data.Keys && view + Restrict(data, keys) == data
    ensures view == data <==> Restrict(view, keys) == Restrict(data, keys)
  {
    var overlay, seen := Restrict(data, keys), Restrict(view, keys);
    if seen == overlay {
      forall k
        ensures k in view <==> k in data
        ensures k in view ==> view[k] == data[k]
      {
        if k in keys {
          assert k in overlay && k in seen && overlay[k] == seen[k];
        } else {
          assert k in view + overlay <==> k in view;
        }
      }
    }
  }

  // ----- what send reports, and a throw in it -----

  /** What the caller of `send` learns. Returning means that nothing is tainted any more;
      true, that something was; false, that nothing happened at all. It throws exactly if it
      is connected and the publish of something tainted fails; the attributes are then as
      they were. */
  lemma {:induction false} SendOutcome(actions: seq<Action>, now: int, env: SendEnv)
    ensures var sys := Run(actions);
            var (after, r) := Send(sys, now, env);
            && (r.Returns? ==> after.s.taintedTelemetry == {} && after.s.taintedAttributes == {})
            && (r.Returns? ==> (r.value <==> sys.s.taintedTelemetry + sys.s.taintedAttributes != {}))
            && (r == Returns(false) ==> after == sys)
            && (r.Throws? <==>
                  sys.s.client.connected &&
                  ((sys.s.taintedTelemetry != {} && env.telemetry.Failure?) ||
                   (sys.s.taintedAttributes != {} && env.attributes.Failure?)))
            && (r.Throws? ==>
                  && after.s.taintedAttributes == sys.s.taintedAttributes
                  && after.log.attributeSends == sys.log.attributeSends)
  {
    SendKeepsTelemetry(actions, now, env);
    FlushTelemetryExact(Run(actions), now, env.telemetry);
  }

  /** A throw from the telemetry publish leaves the controller as it was. */
  lemma ThrowLeavesNoTrace(actions: seq<Action>, now: int, env: SendEnv)
    requires FlushTelemetry(Run(actions), now, env.telemetry).1.Throws?
    ensures Send(Run(actions), now, env) == (Run(actions), Throws)
  {
    SendKeepsTelemetry(actions, now, env);
    FlushTelemetryExact(Run(actions), now, env.telemetry);
  }

  /** Until a `send`, the tainted set only grows. */
  lemma {:induction false} TaintGrowsUntilSend(sys: System, more: seq<Action>)
    requires forall i | 0 <= i < |more| :: !more[i].SendCall?
    ensures sys.s.taintedTelemetry <= Continue(sys, more).s.taintedTelemetry
  {
    if more != [] {
      var n := |more| - 1;
      TaintGrowsUntilSend(sys, more[..n]);
      TaintGrows(Continue(sys, more[..n]), more[n]);
    }
  }

  lemma TaintGrows(sys: System, a: Action)
    requires !a.SendCall?
    ensures sys.s.taintedTelemetry <= Step(sys, a).s.taintedTelemetry
  {
    if a.ConnectEvent? {
      var _ := ConnectFrame(sys, a.code, a.connectEnv);
    }
  }

  function Continue(sys: System, more: seq<Action>): System {
    if more == [] then sys else Step(Continue(sys, more[..|more| - 1]), more[|more| - 1])
  }

  lemma {:induction false} RunContinues(actions: seq<Action>, more: seq<Action>)
    ensures Run(actions + more) == Continue(Run(actions), more)
  {
    if more == [] {
      assert actions + more == actions;
    } else {
      var n := |more| - 1;
      assert (actions + more)[..|actions + more| - 1] == actions + more[..n];
      RunContinues(actions, more[..n]);
    }
  }

  /** So the batch that a throw prevented is not lost: the next batch that `send` hands
      off, whatever happens in between, holds at least its keys. */
  lemma NextBatchCoversThrownOne(actions: seq<Action>, now: int, env: SendEnv, more: seq<Action>, now': int,
                                 env': SendEnv)
    requires FlushTelemetry(Run(actions), now, env.telemetry).1.Throws?
    requires forall i | 0 <= i < |more| :: !more[i].SendCall?
    requires var sys := Run(actions + [SendCall(now, env)] + more);
             !sys.log.dead && FlushTelemetry(sys, now', env'.telemetry).1.Returns?
    ensures var before := Run(actions + [SendCall(now, env)] + more);
            var emitted := Send(before, now', env').0.log.emitted;
            && |emitted| == |before.log.emitted| + 1
            && emitted[..|before.log.emitted|] == before.log.emitted
            && Run(actions).s.taintedTelemetry <= emitted[|before.log.emitted|].values.Keys
  {
    var sys := Run(actions);
    var thrown := actions + [SendCall(now, env)];
    ThrowLeavesNoTrace(actions, now, env);
    assert thrown[..|thrown| - 1] == actions;
    assert Run(thrown) == sys;
    RunContinues(thrown, more);
    TaintGrowsUntilSend(sys, more);
    SendKeepsTelemetry(thrown + more, now', env');
    var before := Run(thrown + more);
    FlushTelemetryExact(before, now', env'.telemetry);
    SendFrame(before, now', env');
  }
}
