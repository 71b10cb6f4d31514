/** The life of the `mosquitto*` that `MqttClient` owns: `configure` creates it and
    may destroy it again on a failure, the destructor destroys what is left.

    Handles are numbered in the order of their creation. A null handle given to
    libmosquitto is a fault: nothing says what the library then does, so the run of the
    model ends there. */
module MqttHandle {
  import opened Mqtt
  import opened Wrappers

  datatype Handle = Null | Live(id: nat)

  datatype State = State(
    mosq: Handle,
    created: nat,
    destroyed: seq<nat>,  // in the order of destruction
    fault: bool           // a null handle was given to libmosquitto
  )

  const UNCONFIGURED: State := State(Null, 0, [], false)

  /** What `mosquitto_new` did; on a failure it leaves errno. */
  datatype NewResult = Created | NoMemory | InvalidInput | OtherErrno

  /** Everything outside that decides how one `configure` goes. Credentials and TLS
      are each either not asked for or answered by a return code. */
  datatype Attempt = Attempt(
    libInit: Rc,
    newResult: NewResult,
    credentials: Answer,
    tls: Answer,
    loopStart: Answer  // only the thread-safe client starts a loop in after_configure
  )

  datatype Answer = NotAsked | Asked(rc: Rc)

  predicate Fails(a: Answer) {
    a.Asked? && !a.rc.Success?
  }

  /** How a `configure` ends; after a fault there is no telling. */
  datatype Ended = Returned | Threw | Faulted

  /** `mosquitto_destroy` followed by clearing the pointer, if it is set. */
  function Destroy(s: State): State {
    match s.mosq
    case Null => s
    case Live(id) => s.(mosq := Null, destroyed := s.destroyed + [id])
  }

  /** One `configure`. A null handle whose errno is neither ENOMEM nor EINVAL is not
      caught: the next call of the library gets it, at the latest the one that sets the
      reconnect delay. */
  function Configured(s: State, a: Attempt): (State, Ended) {
    if s.fault then (s, Faulted)
    else if !a.libInit.Success? then (s, Threw)
    else if s.mosq.Live? then (s, Returned)
    else match a.newResult
      case NoMemory => (s, Threw)
      case InvalidInput => (s, Threw)
      case OtherErrno => (s.(fault := true), Faulted)
      case Created =>
        var owner := s.(mosq := Live(s.created), created := s.created + 1);
        if Fails(a.credentials) || Fails(a.tls) || Fails(a.loopStart) then (Destroy(owner), Threw)
        else (owner, Returned)
  }

  /** Every handle below `created`, except a live one, has been destroyed, once and
      in order; a live handle is the newest. */
  ghost predicate Accounted(s: State) {
    && |s.destroyed| == s.created - (if s.mosq.Live? then 1 else 0)
    && (forall i | 0 <= i < |s.destroyed| :: s.destroyed[i] == i)
    && (s.mosq.Live? ==> s.mosq.id == s.created - 1)
  }

  function ConfigureAll(attempts: seq<Attempt>): State {
    if attempts == [] then UNCONFIGURED
    else Configured(ConfigureAll(attempts[..|attempts| - 1]), attempts[|attempts| - 1]).0
  }

  /** Over any sequence of `configure` attempts, failing anywhere or not: created
      minus destroyed handles is one exactly when `m_mosq` is set, and zero otherwise;
      and after the destructor every handle ever created has been destroyed, each
      exactly once. */
  lemma {:induction false} HandlesAreDestroyedOnce(attempts: seq<Attempt>)
    ensures var s := ConfigureAll(attempts);
            && Accounted(s)
            && s.created - |s.destroyed| == (if s.mosq.Live? then 1 else 0)
            && Destroy(s).mosq.Null?
            && Destroy(s).destroyed == seq(s.created, i => i)
  {
    if attempts != [] {
      HandlesAreDestroyedOnce(attempts[..|attempts| - 1]);
    }
  }

  /** What the caller learns: `configure` returns exactly if the library is initialised and
      `m_mosq` is set afterwards; a throw leaves `m_mosq` as it was. */
  lemma ConfigureReturnsIff(attempts: seq<Attempt>, a: Attempt)
    ensures var before := ConfigureAll(attempts);
            var (after, r) := Configured(before, a);
            && (r.Faulted? <==> after.fault)
            && (r.Returned? <==> !after.fault && a.libInit.Success? && after.mosq.Live?)
            && (r.Threw? ==> after.mosq == before.mosq)
  {
  }

  // ----- which attempt decides -----

  /** Were `m_mosq` null, this attempt would set it for good. */
  predicate Succeeds(a: Attempt) {
    a.libInit.Success? && a.newResult.Created? && !Fails(a.credentials) && !Fails(a.tls) && !Fails(a.loopStart)
  }

  /** Were `m_mosq` null, this attempt would go on with a null handle. */
  predicate Unchecked(a: Attempt) {
    a.libInit.Success? && a.newResult.OtherErrno?
  }

  /** Attempt `i` is the first of either kind. */
  ghost predicate Decides(attempts: seq<Attempt>, i: nat) {
    && i < |attempts| && (Succeeds(attempts[i]) || Unchecked(attempts[i]))
    && forall j | 0 <= j < i :: !Succeeds(attempts[j]) && !Unchecked(attempts[j])
  }

  /** The first attempt that succeeds, or whose `mosquitto_new` fails with an errno that
      the code does not look at, decides for good: a null handle is given to
      libmosquitto exactly if it is of the second kind, and `m_mosq` is set exactly if it
      is of the first. Before it there is neither a handle nor a fault. */
  lemma {:induction false} FirstDecisiveAttemptWins(attempts: seq<Attempt>)
    ensures var s := ConfigureAll(attempts);
            && (s.fault <==> exists i: nat :: Decides(attempts, i) && Unchecked(attempts[i]))
            && (s.mosq.Live? <==> exists i: nat :: Decides(attempts, i) && Succeeds(attempts[i]))
  {
    if attempts != [] {
      var n := |attempts| - 1;
      var front := attempts[..n];
      FirstDecisiveAttemptWins(front);
      forall i: nat | i < n ensures Decides(front, i) <==> Decides(attempts, i) {}
      if i: nat :| Decides(front, i) {
        assert Decides(attempts, i);
        assert !Decides(attempts, n);
      } else {
        NobodyDecides(front);
        assert Decides(attempts, n) <==> Succeeds(attempts[n]) || Unchecked(attempts[n]);
      }
    }
  }

  lemma {:induction false} NobodyDecides(attempts: seq<Attempt>)
    requires forall i: nat :: !Decides(attempts, i)
    ensures forall i | 0 <= i < |attempts| :: !Succeeds(attempts[i]) && !Unchecked(attempts[i])
  {
    if attempts != [] {
      var n := |attempts| - 1;
      forall i: nat ensures !Decides(attempts[..n], i) {
        assert !Decides(attempts, i);
      }
      NobodyDecides(attempts[..n]);
      assert !Decides(attempts, n);
    }
  }
}
