/** `MqttClient`, the base of both clients: it owns the library handle and the lists of
    subscriptions, and passes requests on to libmosquitto.

    Each method is proved against the functions of `Mqtt` and `MqttHandle`. The broker
    end and the requests counted are ghost fields; the return codes of libmosquitto are
    parameters. */
module MqttClient {
  import opened Mqtt
  import opened Wrappers
  import opened MqttHandle

  datatype Message<P> = Message(topic: Topic, payload: P)

  class MqttClient<P> {
    var mosq: Handle
    var created: nat          // by mosquitto_new
    var destroyed: seq<nat>   // by mosquitto_destroy
    ghost var fault: bool     // libmosquitto was given a null handle
    var qosSubscriptions: Record
    ghost var session: Session
    ghost var requests: nat
    ghost var published: seq<Message<P>>  // accepted by mosquitto_publish

    ghost function Handles(): State
      reads this
    {
      State(mosq, created, destroyed, fault)
    }

    /** With the flag that the derived client keeps. */
    ghost function View(connected: bool): Client
      reads this
    {
      Client(connected, qosSubscriptions, session, requests)
    }

    constructor ()
      ensures Handles() == UNCONFIGURED && View(false) == INITIAL && published == []
    {
      mosq, created, destroyed, fault := Null, 0, [], false;
      qosSubscriptions := EMPTY_RECORD;
      session, requests, published := Closed, 0, [];
    }

    // ----- the handle -----

    /** libmosquitto's part: a new handle or none. */
    method MosquittoNew(result: NewResult) returns (handle: Handle)
      modifies this`created
      ensures handle == if result.Created? then Live(old(created)) else Null
      ensures created == old(created) + if result.Created? then 1 else 0
    {
      handle := Null;
      if result == Created {
        handle := Live(created);
        created := created + 1;
      }
    }

    method MosquittoDestroy(handle: Handle)
      modifies this`destroyed
      ensures destroyed == if handle.Live? then old(destroyed) + [handle.id] else old(destroyed)
    {
      if handle.Live? {
        destroyed := destroyed + [handle.id];
      }
    }

    /** After the check of errno every path gives `m_mosq` to libmosquitto: to
        `mosquitto_username_pw_set`, to `mosquitto_tls_set` or at last to
        `mosquitto_reconnect_delay_set`. */
    method Configure(a: Attempt) returns (r: Ended)
      requires !fault
      modifies this`mosq, this`created, this`destroyed, this`fault
      ensures (Handles(), r) == Configured(old(Handles()), a)
      ensures old(Accounted(Handles())) ==> Accounted(Handles())
    {
      if a.libInit != Success {
        return Threw;
      }
      if mosq != Null {
        return Returned;
      }
      mosq := MosquittoNew(a.newResult);
      if mosq == Null {
        if a.newResult == NoMemory {
          return Threw;
        } else if a.newResult == InvalidInput {
          return Threw;
        }
        fault := true;
        return Faulted;
      }
      if a.credentials.Asked? && a.credentials.rc != Success {
        MosquittoDestroy(mosq);
        mosq := Null;
        return Threw;
      }
      if a.tls.Asked? && a.tls.rc != Success {
        MosquittoDestroy(mosq);
        mosq := Null;
        return Threw;
      }
      if a.loopStart.Asked? && a.loopStart.rc != Success {
        MosquittoDestroy(mosq);
        mosq := Null;
        return Threw;
      }
      return Returned;
    }

    /** The destructor. */
    method Close()
      modifies this`mosq, this`destroyed
      ensures Handles() == Destroy(old(Handles()))
      ensures old(Accounted(Handles())) ==> mosq == Null && |destroyed| == created
    {
      if mosq != Null {
        MosquittoDestroy(mosq);
        mosq := Null;
      }
    }

    // ----- requests -----

    /** The environment's part of `mosquitto_subscribe`. */
    ghost method MosquittoSubscribe(topic: Topic, qos: Qos, rc: Rc)
      modifies this`session, this`requests
      ensures session == BrokerSubscribe(old(session), topic, qos, rc)
      ensures requests == old(requests) + 1
    {
      session := BrokerSubscribe(session, topic, qos, rc);
      requests := requests + 1;
    }

    method Subscribe(topic: Topic, qos: Qos, rc: Rc) returns (r: Outcome<()>)
      modifies this`qosSubscriptions, this`session, this`requests
      ensures forall connected ::
                (View(connected), r) == Mqtt.Subscribe(old(View(connected)), topic, qos, rc)
      ensures r.Throws? <==> rc != Success && rc != NoConn
      ensures qosSubscriptions == if r.Throws? then old(qosSubscriptions)
                                  else old(qosSubscriptions)[qos := old(qosSubscriptions)[qos] + [topic]]
    {
      MosquittoSubscribe(topic, qos, rc);
      if rc != Success && rc != NoConn {
        return Throws;
      }
      qosSubscriptions := qosSubscriptions[qos := qosSubscriptions[qos] + [topic]];
      return Returns(());
    }

    method Unsubscribe(topic: Topic, rc: Rc) returns (r: Outcome<()>)
      modifies this`qosSubscriptions, this`session
      ensures forall connected ::
                (View(connected), r) == Mqtt.Unsubscribe(old(View(connected)), topic, rc)
      ensures r.Throws? <==> rc != Success && rc != NoConn
    {
      session := BrokerUnsubscribe(session, topic, rc);
      if rc != Success && rc != NoConn {
        return Throws;
      }
      var q := 0;
      while q < 3
        invariant 0 <= q <= 3
        invariant forall i | 0 <= i < q :: qosSubscriptions[i] == Without(old(qosSubscriptions)[i], topic)
        invariant forall i | q <= i < 3 :: qosSubscriptions[i] == old(qosSubscriptions)[i]
        invariant session == BrokerUnsubscribe(old(session), topic, rc)
      {
        var kept := RemoveIf(qosSubscriptions[q], topic);
        if |kept| != |qosSubscriptions[q]| {
          qosSubscriptions := qosSubscriptions[q := kept];
        } else {
          WithoutSameLength(qosSubscriptions[q], topic);
        }
        q := q + 1;
      }
      assert qosSubscriptions == RecordWithout(old(qosSubscriptions), topic);
      return Returns(());
    }

    /** `std::remove_if`: what it leaves in front of the iterator it returns. */
    static method RemoveIf(topics: seq<Topic>, topic: Topic) returns (kept: seq<Topic>)
      ensures kept == Without(topics, topic)
    {
      kept := [];
      var i := 0;
      while i < |topics|
        invariant 0 <= i <= |topics|
        invariant kept == Without(topics[..i], topic)
      {
        assert topics[..i + 1][..i] == topics[..i];
        if topics[i] != topic {
          kept := kept + [topics[i]];
        }
        i := i + 1;
      }
      assert topics[..i] == topics;
    }

    static lemma {:induction false} WithoutSameLength(topics: seq<Topic>, topic: Topic)
      ensures |Without(topics, topic)| <= |topics|
      ensures |Without(topics, topic)| == |topics| ==> Without(topics, topic) == topics
    {
      if topics != [] {
        WithoutSameLength(topics[..|topics| - 1], topic);
      }
    }

    /** True: the message went out. False: there is no connection, and the caller
        keeps no copy here. Any other code throws. */
    method Publish(topic: Topic, payload: P, rc: Rc) returns (r: Outcome<bool>)
      modifies this`published
      ensures r == match rc case Success => Returns(true) case NoConn => Returns(false) case Failure => Throws
      ensures published == if rc.Success? then old(published) + [Message(topic, payload)] else old(published)
    {
      match rc {
        case Success =>
          published := published + [Message(topic, payload)];
          return Returns(true);
        case NoConn =>
          return Returns(false);
        case Failure =>
          return Throws;
      }
    }

    /** The replay of the subscriptions: a loop over the lists, a loop over each list. */
    method Replay(rc: nat -> Rc)
      modifies this`session, this`requests
      ensures session == Apply(old(session), Requests(qosSubscriptions, 3), rc)
      ensures requests == old(requests) + |Requests(qosSubscriptions, 3)|
    {
      var sent := 0;
      var qos := 0;
      while qos < 3
        invariant 0 <= qos <= 3
        invariant sent == |Requests(qosSubscriptions, qos)|
        invariant session == Apply(old(session), Requests(qosSubscriptions, qos), rc)
        invariant requests == old(requests) + sent
      {
        sent := ReplayList(qosSubscriptions[qos], qos, rc, sent, old(session), Requests(qosSubscriptions, qos));
        qos := qos + 1;
      }
    }

    /** The inner loop, when `before` has been sent already. */
    method ReplayList(topics: seq<Topic>, qos: Qos, rc: nat -> Rc, first: nat,
                      ghost start: Session, ghost before: seq<Request>)
      returns (sent: nat)
      requires first == |before| && session == Apply(start, before, rc)
      modifies this`session, this`requests
      ensures sent == first + |topics| && requests == old(requests) + |topics|
      ensures session == Apply(start, before + Tagged(topics, qos), rc)
    {
      sent := first;
      var i := 0;
      ghost var tagged := Tagged(topics, qos);
      assert before + tagged[..0] == before;
      while i < |topics|
        invariant 0 <= i <= |topics|
        invariant sent == first + i
        invariant session == Apply(start, before + tagged[..i], rc)
        invariant requests == old(requests) + i
      {
        assert (before + tagged[..i + 1])[..sent] == before + tagged[..i];
        MosquittoSubscribe(topics[i], qos, rc(sent));
        sent := sent + 1;
        i := i + 1;
      }
      assert tagged[..i] == tagged;
    }
  }
}
