/** The MQTT client layer as values: what one call or one network event does to
    the connected flag, to the record of subscriptions and to the broker.

    libmosquitto is an oracle that gives return codes. The broker end is the
    table of topic filters of the current session: MQTT 3.1.1 section 3.8.4 (an
    identical filter replaces the subscription), section 3.10.4 (unsubscribe)
    and section 3.1.2.4 (a clean session starts empty and ends with the network
    connection). */
module Mqtt {
  import opened Sequences
  import opened Wrappers

  type Topic = string
  type Qos = q: nat | q < 3

  /** MOSQ_ERR_SUCCESS, MOSQ_ERR_NO_CONN, and every other code. */
  datatype Rc = Success | NoConn | Failure

  /** Three lists of topics, one for each QoS. */
  type Record = r: seq<seq<Topic>> | |r| == 3 witness [[], [], []]

  const EMPTY_RECORD: Record := [[], [], []]

  datatype Session = Closed | Open(filters: map<Topic, Qos>)

  datatype Client = Client(
    connected: bool,
    record: Record,
    session: Session,
    requests: nat  // subscribe requests handed to libmosquitto so far
  )

  const INITIAL: Client := Client(false, EMPTY_RECORD, Closed, 0)

  // ----- the broker -----

  function BrokerSubscribe(session: Session, topic: Topic, qos: Qos, rc: Rc): Session {
    if session.Open? && rc.Success? then Open(session.filters[topic := qos]) else session
  }

  function BrokerUnsubscribe(session: Session, topic: Topic, rc: Rc): Session {
    if session.Open? && rc.Success? then Open(session.filters - {topic}) else session
  }

  // ----- subscribe and unsubscribe -----

  function Subscribe(c: Client, topic: Topic, qos: Qos, rc: Rc): (Client, Outcome<()>) {
    var asked := c.(requests := c.requests + 1, session := BrokerSubscribe(c.session, topic, qos, rc));
    if rc.Failure? then (asked, Throws)
    else (asked.(record := c.record[qos := c.record[qos] + [topic]]), Returns(()))
  }

  /** `remove_if` followed by `erase`: the other elements, in order. */
  function Without(topics: seq<Topic>, topic: Topic): seq<Topic> {
    if topics == [] then []
    else
      var rest := Without(topics[..|topics| - 1], topic);
      if topics[|topics| - 1] == topic then rest else rest + [topics[|topics| - 1]]
  }

  function RecordWithout(record: Record, topic: Topic): Record {
    seq(3, q requires 0 <= q < 3 => Without(record[q], topic))
  }

  function Unsubscribe(c: Client, topic: Topic, rc: Rc): (Client, Outcome<()>) {
    var asked := c.(session := BrokerUnsubscribe(c.session, topic, rc));
    if rc.Failure? then (asked, Throws)
    else (asked.(record := RecordWithout(c.record, topic)), Returns(()))
  }

  // ----- replay on connect -----

  datatype Request = Request(topic: Topic, qos: Qos)

  function Tagged(topics: seq<Topic>, qos: Qos): seq<Request> {
    seq(|topics|, i requires 0 <= i < |topics| => Request(topics[i], qos))
  }

  /** The requests of the first `n` lists, in the order the nested loop makes them. */
  function Requests(record: Record, n: nat): seq<Request>
    requires n <= 3
  {
    if n == 0 then [] else Requests(record, n - 1) + Tagged(record[n - 1], n - 1)
  }

  /** The broker after a sequence of requests, the i-th answered by `rc(i)`. */
  function Apply(session: Session, requests: seq<Request>, rc: nat -> Rc): Session {
    if requests == [] then session
    else
      var n := |requests| - 1;
      BrokerSubscribe(Apply(session, requests[..n], rc), requests[n].topic, requests[n].qos, rc(n))
  }

  /** The session that a CONNACK with this return code opens: 0 accepts. */
  function Connack(code: int): Session {
    if code == 0 then Open(map[]) else Closed
  }

  /** `on_connect` up to the user's callback: the replay is made whatever the code. */
  function OnConnect(c: Client, code: int, rc: nat -> Rc): Client {
    var requests := Requests(c.record, 3);
    Client(code == 0, c.record, Apply(Connack(code), requests, rc), c.requests + |requests|)
  }

  function OnDisconnect(c: Client): Client {
    c.(connected := false, session := Closed)
  }

  // ----- meaning of the record -----

  predicate Recorded(record: Record, topic: Topic) {
    topic in record[0] || topic in record[1] || topic in record[2]
  }

  function Topics(record: Record): set<Topic> {
    set t: Topic | t in record[0] + record[1] + record[2]
  }

  /** The highest QoS whose list holds the topic. */
  function Highest(record: Record, topic: Topic): Qos
    requires Recorded(record, topic)
  {
    if topic in record[2] then 2 else if topic in record[1] then 1 else 0
  }

  /** Each recorded topic at the highest QoS whose list holds it. */
  function Meaning(record: Record): map<Topic, Qos> {
    map t: Topic | t in Topics(record) :: Highest(record, t)
  }

  /** Request number `i` is a successful request for `topic`. */
  ghost predicate Granted(requests: seq<Request>, rc: nat -> Rc, topic: Topic, i: nat) {
    i < |requests| && requests[i].topic == topic && rc(i).Success?
  }

  ghost predicate LastGranted(requests: seq<Request>, rc: nat -> Rc, topic: Topic, i: nat) {
    Granted(requests, rc, topic, i) && forall j: nat | j > i :: !Granted(requests, rc, topic, j)
  }

  lemma {:induction false} ApplyStaysOpen(filters: map<Topic, Qos>, requests: seq<Request>, rc: nat -> Rc)
    ensures Apply(Open(filters), requests, rc).Open?
  {
    if requests != [] {
      ApplyStaysOpen(filters, requests[..|requests| - 1], rc);
    }
  }

  lemma {:induction false} ClosedStaysClosed(requests: seq<Request>, rc: nat -> Rc)
    ensures Apply(Closed, requests, rc) == Closed
  {
    if requests != [] {
      ClosedStaysClosed(requests[..|requests| - 1], rc);
    }
  }

  /** Whatever the broker answers, the last successful request for a topic
      decides its QoS. */
  lemma {:induction false} LastGrantedWins(filters: map<Topic, Qos>, requests: seq<Request>, rc: nat -> Rc,
                                           topic: Topic, i: nat)
    requires LastGranted(requests, rc, topic, i)
    ensures var after := Apply(Open(filters), requests, rc);
            after.Open? && topic in after.filters && after.filters[topic] == requests[i].qos
  {
    var n := |requests| - 1;
    var front := requests[..n];
    ApplyStaysOpen(filters, front, rc);
    if i < n {
      assert !Granted(requests, rc, topic, n);
      forall j: nat ensures Granted(front, rc, topic, j) <==> Granted(requests, rc, topic, j) {}
      LastGrantedWins(filters, front, rc, topic, i);
    }
  }

  /** A topic for which no request succeeds is left as it was. */
  lemma {:induction false} UngrantedUntouched(filters: map<Topic, Qos>, requests: seq<Request>,
                                              rc: nat -> Rc, topic: Topic)
    requires forall i: nat :: !Granted(requests, rc, topic, i)
    ensures var after := Apply(Open(filters), requests, rc);
            && after.Open?
            && (topic in after.filters <==> topic in filters)
            && (topic in filters ==> after.filters[topic] == filters[topic])
  {
    if requests != [] {
      var front := requests[..|requests| - 1];
      assert !Granted(requests, rc, topic, |front|);
      forall j: nat ensures !Granted(front, rc, topic, j) {
        assert !Granted(requests, rc, topic, j);
      }
      UngrantedUntouched(filters, front, rc, topic);
    }
  }

  lemma FindLastGranted(requests: seq<Request>, rc: nat -> Rc, topic: Topic, i: nat) returns (last: nat)
    requires Granted(requests, rc, topic, i)
    ensures LastGranted(requests, rc, topic, last)
    decreases |requests| - i
  {
    if j: nat :| j > i && Granted(requests, rc, topic, j) {
      last := FindLastGranted(requests, rc, topic, j);
    } else {
      last := i;
    }
  }

  /** The replay visits the QoS lists in ascending order. */
  lemma RequestsAscend(record: Record)
    ensures |Requests(record, 3)| == |record[0]| + |record[1]| + |record[2]|
    ensures forall i, j | 0 <= i <= j < |Requests(record, 3)| ::
              Requests(record, 3)[i].qos <= Requests(record, 3)[j].qos
    ensures forall i | 0 <= i < |Requests(record, 3)| ::
              Requests(record, 3)[i].topic in record[Requests(record, 3)[i].qos]
    ensures forall q: Qos, t | t in record[q] :: Request(t, q) in Requests(record, 3)
  {
    var t0, t1, t2 := Tagged(record[0], 0), Tagged(record[1], 1), Tagged(record[2], 2);
    assert Requests(record, 1) == t0 by { assert Requests(record, 0) == []; }
    assert Requests(record, 2) == t0 + t1;
    assert Requests(record, 3) == t0 + t1 + t2;
    forall q: Qos, t | t in record[q] ensures Request(t, q) in Requests(record, 3) {
      var i :| 0 <= i < |record[q]| && record[q][i] == t;
      assert Tagged(record[q], q)[i] == Request(t, q);
      assert Request(t, q) in Tagged(record[q], q);
      assert q == 0 || q == 1 || q == 2;
    }
  }

  /** Some request for `topic` at this QoS succeeded during the replay. */
  ghost predicate GrantedAt(record: Record, rc: nat -> Rc, topic: Topic, qos: Qos) {
    exists i: nat :: Granted(Requests(record, 3), rc, topic, i) && Requests(record, 3)[i].qos == qos
  }

  /** `qos` is the highest at which a replayed request for `topic` succeeded. */
  ghost predicate HighestGranted(record: Record, rc: nat -> Rc, topic: Topic, qos: Qos) {
    GrantedAt(record, rc, topic, qos) && forall q: Qos | GrantedAt(record, rc, topic, q) :: q <= qos
  }

  /** Replay under any answers: after an accepted connect a topic is subscribed at
      the highest QoS for which one of its requests succeeded, and otherwise not
      at all. */
  lemma ReplayKeepsHighestGranted(c: Client, rc: nat -> Rc, topic: Topic, qos: Qos)
    ensures var after := OnConnect(c, 0, rc).session;
            && after.Open?
            && (topic in after.filters && after.filters[topic] == qos
                <==> HighestGranted(c.record, rc, topic, qos))
  {
    var requests := Requests(c.record, 3);
    RequestsAscend(c.record);
    ApplyStaysOpen(map[], requests, rc);
    if i: nat :| Granted(requests, rc, topic, i) {
      var last := FindLastGranted(requests, rc, topic, i);
      LastGrantedWins(map[], requests, rc, topic, last);
      assert GrantedAt(c.record, rc, topic, requests[last].qos);
      forall q: Qos | GrantedAt(c.record, rc, topic, q) ensures q <= requests[last].qos {
        var j: nat :| Granted(requests, rc, topic, j) && requests[j].qos == q;
        assert j <= last;
      }
    } else {
      UngrantedUntouched(map[], requests, rc, topic);
    }
  }

  /** The oracle accepts every request of a replay of this record. */
  ghost predicate AllGranted(record: Record, rc: nat -> Rc) {
    forall i: nat | i < |Requests(record, 3)| :: rc(i).Success?
  }

  /** From an empty clean session the replay leaves each recorded topic subscribed
      at the highest QoS list holding it, and nothing else, whatever duplicates or
      orders the lists hold. */
  lemma ReplayMeaning(c: Client, rc: nat -> Rc)
    requires AllGranted(c.record, rc)
    ensures OnConnect(c, 0, rc).session == Open(Meaning(c.record))
  {
    var after := OnConnect(c, 0, rc).session;
    var requests := Requests(c.record, 3);
    RequestsAscend(c.record);
    ReplayKeepsHighestGranted(c, rc, "", 0);
    forall t: Topic, q: Qos ensures GrantedAt(c.record, rc, t, q) <==> t in c.record[q] {
      if t in c.record[q] {
        assert Request(t, q) in requests;
        var i: nat :| i < |requests| && requests[i] == Request(t, q);
        assert Granted(requests, rc, t, i);
      }
    }
    forall t: Topic
      ensures t in after.filters <==> Recorded(c.record, t)
      ensures Recorded(c.record, t) ==> after.filters[t] == Highest(c.record, t)
    {
      if Recorded(c.record, t) {
        ReplayKeepsHighestGranted(c, rc, t, Highest(c.record, t));
      } else {
        if t in after.filters {
          ReplayKeepsHighestGranted(c, rc, t, after.filters[t]);
        }
      }
    }
    assert after.filters == Meaning(c.record);
  }

  // ----- subscribe is append -----

  /** `subscribe` throws on a failure only, and then leaves the lists alone; otherwise, with
      or without a connection, the topic goes to the end of the list of its QoS and no
      other list changes. */
  lemma SubscribeIsAppend(c: Client, topic: Topic, qos: Qos, rc: Rc)
    ensures var (after, r) := Subscribe(c, topic, qos, rc);
            && (r.Throws? <==> rc.Failure?)
            && (r.Throws? ==> after.record == c.record)
            && (r.Returns? ==>
                  && after.record[qos] == c.record[qos] + [topic]
                  && forall q: Qos | q != qos :: after.record[q] == c.record[q])
  {
  }

  // ----- unsubscribe is filter -----

  lemma {:induction false} WithoutIsFilter(topics: seq<Topic>, topic: Topic)
    ensures multiset(Without(topics, topic)) == multiset(topics)[topic := 0]
    ensures IsSubsequence(Without(topics, topic), topics)
  {
    if topics == [] {
      SubsequenceOfItself(topics);
    } else {
      var front, last := topics[..|topics| - 1], topics[|topics| - 1];
      WithoutIsFilter(front, topic);
      assert topics == front + [last];
      if last == topic {
        SubsequenceWiden(Without(front, topic), front, [last]);
      } else {
        SubsequenceOfItself([last]);
        SubsequenceConcat(Without(front, topic), front, [last], [last]);
      }
    }
  }

  /** `unsubscribe` refines filter: a throw leaves the lists alone; otherwise each list
      keeps its other elements, all of them and in order, and loses every copy of the
      topic. */
  lemma UnsubscribeIsFilter(c: Client, topic: Topic, rc: Rc, q: Qos)
    ensures var (after, r) := Unsubscribe(c, topic, rc);
            && (r.Throws? <==> rc.Failure?)
            && (r.Throws? ==> after.record == c.record)
            && (r.Returns? ==>
                  && multiset(after.record[q]) == multiset(c.record[q])[topic := 0]
                  && IsSubsequence(after.record[q], c.record[q]))
  {
    WithoutIsFilter(c.record[q], topic);
  }

  lemma WithoutMembers(topics: seq<Topic>, topic: Topic, t: Topic)
    ensures t in Without(topics, topic) <==> t in topics && t != topic
  {
    WithoutIsFilter(topics, topic);
    assert t in Without(topics, topic) <==> t in multiset(Without(topics, topic));
    assert t in topics <==> t in multiset(topics);
  }
}
