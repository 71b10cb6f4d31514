/** The subscription record against the broker, over every run of subscribe,
    unsubscribe, connect and disconnect. */
module MqttSubscriptions {
  import opened Mqtt

  datatype Event =
    | DoSubscribe(topic: Topic, qos: Qos, rc: Rc)
    | DoUnsubscribe(topic: Topic, rc: Rc)
    | Connected(code: int, replay: nat -> Rc)
    | Disconnected

  function Step(c: Client, e: Event): Client {
    match e
    case DoSubscribe(topic, qos, rc) => Subscribe(c, topic, qos, rc).0
    case DoUnsubscribe(topic, rc) => Unsubscribe(c, topic, rc).0
    case Connected(code, replay) => OnConnect(c, code, replay)
    case Disconnected => OnDisconnect(c)
  }

  function Run(events: seq<Event>): Client {
    if events == [] then INITIAL
    else Step(Run(events[..|events| - 1]), events[|events| - 1])
  }

  lemma {:induction false} RunGrows(events: seq<Event>, e: Event)
    ensures Run(events + [e]) == Step(Run(events), e)
  {
    assert (events + [e])[..|events|] == events;
  }

  // ----- what the record and the flag hold -----

  /** A subscribe to this topic at this QoS that did not throw. */
  predicate Subscribes(e: Event, topic: Topic, qos: Qos) {
    e.DoSubscribe? && e.topic == topic && e.qos == qos && !e.rc.Failure?
  }

  /** An unsubscribe from this topic that did not throw. */
  predicate Unsubscribes(e: Event, topic: Topic) {
    e.DoUnsubscribe? && e.topic == topic && !e.rc.Failure?
  }

  ghost predicate SubscribedSince(events: seq<Event>, topic: Topic, qos: Qos, i: nat) {
    i < |events| && Subscribes(events[i], topic, qos) && forall j | i < j < |events| :: !Unsubscribes(events[j], topic)
  }

  lemma StepRecords(c: Client, e: Event, topic: Topic, qos: Qos)
    ensures topic in Step(c, e).record[qos] <==>
            Subscribes(e, topic, qos) || (topic in c.record[qos] && !Unsubscribes(e, topic))
  {
    match e
    case DoSubscribe(t, q, rc) => SubscribeIsAppend(c, t, q, rc);
    case DoUnsubscribe(t, rc) => WithoutMembers(c.record[qos], t, topic);
    case _ =>
  }

  /** Over every run, with or without a connection: a topic is in the list of a QoS exactly
      if it was subscribed at that QoS and not unsubscribed since, counting the calls that
      did not throw. */
  lemma {:induction false} RecordedIff(events: seq<Event>, topic: Topic, qos: Qos)
    ensures topic in Run(events).record[qos] <==> exists i: nat :: SubscribedSince(events, topic, qos, i)
  {
    if events != [] {
      var n := |events| - 1;
      var front, last := events[..n], events[n];
      RecordedIff(front, topic, qos);
      StepRecords(Run(front), last, topic, qos);
      forall i: nat | i < n
        ensures SubscribedSince(events, topic, qos, i) <==>
                SubscribedSince(front, topic, qos, i) && !Unsubscribes(last, topic)
      {
      }
      assert SubscribedSince(events, topic, qos, n) <==> Subscribes(last, topic, qos);
    }
  }

  predicate IsLink(e: Event) {
    e.Connected? || e.Disconnected?
  }

  ghost predicate UpSince(events: seq<Event>, i: nat) {
    i < |events| && events[i].Connected? && events[i].code == 0 && forall j | i < j < |events| :: !IsLink(events[j])
  }

  /** Over every run the flag is up exactly if the last connect or disconnect was an
      accepted connect. */
  lemma {:induction false} ConnectedIff(events: seq<Event>)
    ensures Run(events).connected <==> exists i: nat :: UpSince(events, i)
  {
    if events != [] {
      var n := |events| - 1;
      var front, last := events[..n], events[n];
      ConnectedIff(front);
      forall i: nat | i < n ensures UpSince(events, i) <==> UpSince(front, i) && !IsLink(last) {}
      assert UpSince(events, n) <==> last.Connected? && last.code == 0;
    }
  }

  /** What is subscribed without a connection goes live: after the next accepted connect
      whose replay succeeds the broker has the topic, at no less than that QoS. */
  lemma {:induction false} OfflineSubscriptionGoesLive(events: seq<Event>, topic: Topic, qos: Qos, rc: Rc,
                                                       more: seq<Event>, replay: nat -> Rc)
    requires !rc.Failure? && forall i | 0 <= i < |more| :: !Unsubscribes(more[i], topic)
    requires AllGranted(Run(events + [DoSubscribe(topic, qos, rc)] + more).record, replay)
    ensures var session := Run(events + [DoSubscribe(topic, qos, rc)] + more + [Connected(0, replay)]).session;
            session.Open? && topic in session.filters && session.filters[topic] >= qos
  {
    var all := events + [DoSubscribe(topic, qos, rc)] + more;
    RunGrows(all, Connected(0, replay));
    StaysRecorded(events, topic, qos, rc, more);
    ReplayRestores(Run(all), topic, qos, replay);
  }

  lemma {:induction false} StaysRecorded(events: seq<Event>, topic: Topic, qos: Qos, rc: Rc, more: seq<Event>)
    requires !rc.Failure? && forall i | 0 <= i < |more| :: !Unsubscribes(more[i], topic)
    ensures topic in Run(events + [DoSubscribe(topic, qos, rc)] + more).record[qos]
  {
    var all := events + [DoSubscribe(topic, qos, rc)] + more;
    RecordedIff(all, topic, qos);
    assert SubscribedSince(all, topic, qos, |events|);
  }

  lemma ReplayRestores(c: Client, topic: Topic, qos: Qos, replay: nat -> Rc)
    requires topic in c.record[qos] && AllGranted(c.record, replay)
    ensures var session := OnConnect(c, 0, replay).session;
            session.Open? && topic in session.filters && session.filters[topic] >= qos
  {
    ReplayMeaning(c, replay);
    assert qos == 0 || qos == 1 || qos == 2;
    assert topic in Topics(c.record);
  }

  // ----- the record against the broker -----

  /** While a session is open no request is answered NO_CONN and no replayed
      request fails. A call may still throw. */
  ghost predicate Healthy(c: Client, e: Event) {
    match e
    case DoSubscribe(_, _, rc) => c.session.Open? ==> !rc.NoConn?
    case DoUnsubscribe(_, rc) => c.session.Open? ==> !rc.NoConn?
    case Connected(code, replay) => code == 0 ==> AllGranted(c.record, replay)
    case Disconnected => true
  }

  ghost predicate HealthyRun(events: seq<Event>) {
    events == [] ||
    (HealthyRun(events[..|events| - 1]) && Healthy(Run(events[..|events| - 1]), events[|events| - 1]))
  }

  ghost predicate Agrees(c: Client) {
    && c.connected == c.session.Open?
    && (c.session.Open? ==>
          && c.session.filters.Keys == Topics(c.record)
          && forall t | t in c.session.filters :: c.session.filters[t] <= Highest(c.record, t))
  }

  lemma StepKeepsAgreement(c: Client, e: Event)
    requires Agrees(c) && Healthy(c, e)
    ensures Agrees(Step(c, e))
  {
    match e
    case DoSubscribe(topic, qos, rc) =>
    case DoUnsubscribe(topic, rc) =>
      forall q: Qos, t: Topic
        ensures t in Without(c.record[q], topic) <==> t in c.record[q] && t != topic
      {
        WithoutMembers(c.record[q], topic, t);
      }
    case Connected(code, replay) =>
      if code == 0 {
        ReplayMeaning(c, replay);
      } else {
        ClosedStaysClosed(Requests(c.record, 3), replay);
      }
    case Disconnected =>
  }

  /** In every run in which requests go through while connected, being connected
      means that the broker's filters are exactly the recorded topics, those
      recorded while offline included, each at no more than its highest QoS. */
  lemma {:induction false} RecordAgreesWithBroker(events: seq<Event>)
    requires HealthyRun(events)
    ensures Agrees(Run(events))
  {
    if events != [] {
      RecordAgreesWithBroker(events[..|events| - 1]);
      StepKeepsAgreement(Run(events[..|events| - 1]), events[|events| - 1]);
    }
  }

  /** When the live QoS of each topic is also its recorded one, a successful
      `subscribe` keeps it so exactly if it does not ask for less than the record
      already holds for that topic. */
  lemma SubscribeKeepsMeaningIff(c: Client, topic: Topic, qos: Qos)
    requires c.session == Open(Meaning(c.record))
    ensures var after := Subscribe(c, topic, qos, Success).0;
            after.session == Open(Meaning(after.record))
            <==> (Recorded(c.record, topic) ==> Highest(c.record, topic) <= qos)
  {
    var after := Subscribe(c, topic, qos, Success).0;
    MeaningAfterSubscribe(c, topic, qos);
    assert after.session.filters == Meaning(c.record)[topic := qos];
    assert after.session.filters[topic] == qos;
  }

  /** What the record means once it holds one more topic. */
  lemma MeaningAfterSubscribe(c: Client, topic: Topic, qos: Qos)
    ensures var highest := if Recorded(c.record, topic) && Highest(c.record, topic) > qos
                           then Highest(c.record, topic) else qos;
            var after := Meaning(Subscribe(c, topic, qos, Success).0.record);
            after == Meaning(c.record)[topic := highest] && after[topic] == highest
  {
    var record := Subscribe(c, topic, qos, Success).0.record;
    forall q: Qos, t: Topic ensures t in record[q] <==> t in c.record[q] || (q == qos && t == topic) {}
    forall t: Topic ensures Recorded(record, t) <==> Recorded(c.record, t) || t == topic {}
  }

  /** No successful live request asks for less than the record already holds. */
  ghost predicate NoDowngrade(c: Client, e: Event) {
    e.DoSubscribe? && e.rc.Success? && c.session.Open? && Recorded(c.record, e.topic)
    ==> Highest(c.record, e.topic) <= e.qos
  }

  ghost predicate NoDowngradeRun(events: seq<Event>) {
    events == [] ||
    (NoDowngradeRun(events[..|events| - 1]) && NoDowngrade(Run(events[..|events| - 1]), events[|events| - 1]))
  }

  /** Without such a request the agreement covers the QoS too: whenever connected,
      the broker's table is the meaning of the record. */
  lemma {:induction false} LiveQosIsRecordedQos(events: seq<Event>)
    requires HealthyRun(events) && NoDowngradeRun(events)
    ensures Run(events).session.Open? ==> Run(events).session == Open(Meaning(Run(events).record))
  {
    if events != [] {
      var before, e := Run(events[..|events| - 1]), events[|events| - 1];
      LiveQosIsRecordedQos(events[..|events| - 1]);
      match e
      case DoSubscribe(topic, qos, rc) =>
        if before.session.Open? && rc.Success? {
          SubscribeKeepsMeaningIff(before, topic, qos);
        }
      case DoUnsubscribe(topic, rc) =>
        if before.session.Open? && rc.Success? {
          UnsubscribeKeepsMeaning(before, topic);
        }
      case Connected(code, replay) =>
        if code == 0 {
          ReplayMeaning(before, replay);
        } else {
          ClosedStaysClosed(Requests(before.record, 3), replay);
        }
      case Disconnected =>
    }
  }

  lemma UnsubscribeKeepsMeaning(c: Client, topic: Topic)
    requires c.session == Open(Meaning(c.record))
    ensures var after := Unsubscribe(c, topic, Success).0; after.session == Open(Meaning(after.record))
  {
    var after := Unsubscribe(c, topic, Success).0;
    forall q: Qos, t: Topic
      ensures t in after.record[q] <==> t in c.record[q] && t != topic
    {
      WithoutMembers(c.record[q], topic, t);
    }
    assert Meaning(after.record) == Meaning(c.record) - {topic};
  }

  /** The QoS half of the agreement fails in general: a topic subscribed at QoS 2
      and then at QoS 0 is live at 0 until a reconnect silently raises it to 2. */
  lemma DowngradeIsUndoneByReconnect(up: nat -> Rc)
    requires forall i :: up(i).Success?
    ensures var events := [Connected(0, up), DoSubscribe("t", 2, Success), DoSubscribe("t", 0, Success)];
            && HealthyRun(events)
            && Run(events).session == Open(map["t" := 0])
            && Run(events + [Connected(0, up)]).session == Open(map["t" := 2])
  {
    var e1, e2, e3 := Connected(0, up), DoSubscribe("t", 2, Success), DoSubscribe("t", 0, Success);
    var c1 := OnConnect(INITIAL, 0, up);
    assert Requests(EMPTY_RECORD, 3) == [] by { RequestsAscend(EMPTY_RECORD); }
    assert Run([]) == INITIAL && HealthyRun([]);
    assert [e1][..0] == [] && [e1, e2][..1] == [e1] && [e1, e2, e3][..2] == [e1, e2];
    assert Run([e1]) == c1 && HealthyRun([e1]);
    var c2 := Subscribe(c1, "t", 2, Success).0;
    assert Run([e1, e2]) == c2 && HealthyRun([e1, e2]);
    var c3 := Subscribe(c2, "t", 0, Success).0;
    assert Run([e1, e2, e3]) == c3 && HealthyRun([e1, e2, e3]);
    ReplayMeaning(c3, up);
    assert c3.record[0] == ["t"] && c3.record[1] == [] && c3.record[2] == ["t"];
    assert Topics(c3.record) == {"t"};
    assert Meaning(c3.record) == map["t" := 2];
    assert ([e1, e2, e3] + [e1])[..3] == [e1, e2, e3];
  }
}
