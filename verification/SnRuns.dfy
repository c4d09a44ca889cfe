/** What the MQTT-SN protocol promises in every state of every run. */
module SnRuns {
  import opened SnSession
  import opened SnSystem
  import opened SnSteps

  ghost predicate IsRun(run: seq<System>, actions: seq<Action>) {
    && |run| == |actions| + 1
    && run[0] == Init()
    && forall i :: 0 <= i < |actions| ==> Enabled(run[i], actions[i]) && run[i + 1] == Next(run[i], actions[i])
  }

  ghost predicate WithinIdSpace(run: seq<System>) {
    run != [] && run[|run| - 1].client.current < ID_SPACE
  }

  lemma RegackCounts(c: Client, topicId: int, id: int, accepted: bool)
    requires Sound(c, Regack(topicId, id, accepted))
    ensures c.current <= OnRegack(c, topicId, id, accepted).current
  {
  }

  lemma ReceiveCounts(c: Client, p: Packet)
    ensures c.current <= Receive(c, p).current
  {
    if p.Regack? && Sound(c, p) { RegackCounts(c, p.topicId, p.msgId, p.accepted); }
    hide Sound, Wire, OnRegack;
  }

  lemma CounterStep(s: System, a: Action)
    requires Enabled(s, a)
    ensures s.client.current <= Next(s, a).client.current
  {
    if a.ClientReceives? { ReceiveCounts(s.client, a.p); }
    hide Receive, Answer;
  }

  lemma {:induction false} CounterGrows(run: seq<System>, actions: seq<Action>, i: nat, j: nat)
    requires IsRun(run, actions) && i <= j < |run|
    ensures run[i].client.current <= run[j].client.current
    decreases j
  {
    hide Next, Enabled;
    if i == j {
    } else {
      CounterGrows(run, actions, i, j - 1);
      CounterStep(run[j - 1], actions[j - 1]);
    }
  }

  lemma {:induction false} InvHolds(run: seq<System>, actions: seq<Action>, i: nat)
    requires IsRun(run, actions) && WithinIdSpace(run) && i < |run|
    ensures Inv(run[i])
    decreases i
  {
    hide Next, Enabled, InvBut;
    if i == 0 {
      InitHolds();
    } else {
      InvHolds(run, actions, i - 1);
      CounterGrows(run, actions, i, |run| - 1);
      InvStep(run[i - 1], actions[i - 1]);
    }
  }

  // ---- What the protocol promises, for every state of every run ----

  function ParkedAt(c: Client, n: int): set<int> {
    if Parked(c, n) then {n} else {}
  }

  function FlightKeys(c: Client, n: int): set<int> {
    set k | k in c.table && InFlight(c, n, k)
  }

  function Places(list: seq<Outgoing>, n: int): set<int> {
    set i | 0 <= i < |list| && At(list, n, i)
  }

  /** Conservation: each message given to the client is in exactly one place, once:
      awaiting REGACK, awaiting its acknowledgement, recorded, or given up. */
  lemma EachMessageInOnePlace(run: seq<System>, actions: seq<Action>, i: nat, n: int)
    requires IsRun(run, actions) && WithinIdSpace(run) && i < |run| && n in run[i].submitted
    ensures var c := run[i].client;
      |ParkedAt(c, n)| + |FlightKeys(c, n)| + |Places(c.saved, n)| + |Places(c.dropped, n)| == 1
  {
    InvHolds(run, actions, i);
    OnePlace(run[i], n);
  }

  lemma OnePlace(s: System, n: int)
    requires TableInv(s) && DoneInv(s) && Somewhere(s.client, n)
    ensures |ParkedAt(s.client, n)| + |FlightKeys(s.client, n)| + |Places(s.client.saved, n)| + |Places(s.client.dropped, n)| == 1
  {
    var c := s.client;
    if Parked(c, n) {
      assert FlightKeys(c, n) == {} && Places(c.saved, n) == {} && Places(c.dropped, n) == {};
    } else if k :| InFlight(c, n, k) {
      assert FlightKeys(c, n) == {k} && Places(c.saved, n) == {} && Places(c.dropped, n) == {};
    } else if j :| At(c.saved, n, j) {
      assert FlightKeys(c, n) == {} && Places(c.saved, n) == {j} && Places(c.dropped, n) == {};
    } else {
      var j :| At(c.dropped, n, j);
      assert FlightKeys(c, n) == {} && Places(c.saved, n) == {} && Places(c.dropped, n) == {j};
    }
  }

  /** Whatever is stored, recorded or given up is a submission, with its content. */
  lemma NothingIsInvented(run: seq<System>, actions: seq<Action>, i: nat)
    requires IsRun(run, actions) && WithinIdSpace(run) && i < |run|
    ensures var c := run[i].client;
      && (forall k :: k in c.table && c.table[k].Parcel? ==> Faithful(run[i], c.table[k].pub) && c.table[k].pub.messageId == k)
      && (forall j :: 0 <= j < |c.saved| ==> Faithful(run[i], c.saved[j]))
      && (forall j :: 0 <= j < |c.dropped| ==> Faithful(run[i], c.dropped[j]))
  {
    InvHolds(run, actions, i);
    forall k | k in run[i].client.table && run[i].client.table[k].Parcel?
      ensures Faithful(run[i], run[i].client.table[k].pub) && run[i].client.table[k].pub.messageId == k
    {
      assert EntryOk(run[i], k, run[i].client.table[k]);
    }
  }

  lemma ReceivedWasSent(run: seq<System>, actions: seq<Action>, i: nat)
    requires IsRun(run, actions) && i < |actions| && actions[i].ClientReceives?
    ensures actions[i].p in run[i].toClient
  {
  }

  /** Recording: a message is added at the end, and one of QoS 1 or 2 only when a PUBACK
      or PUBCOMP finds it. */
  ghost predicate SavesBy(c: Client, d: Client, a: Action) {
    || d.saved == c.saved
    || (|d.saved| == |c.saved| + 1 && c.saved <= d.saved && d.saved[|c.saved|].qos == AT_MOST_ONCE)
    || (a.ClientReceives? && Records(a.p) && a.p.msgId in c.table && c.table[a.p.msgId].Parcel?
        && d.saved == c.saved + [c.table[a.p.msgId].pub])
  }

  lemma PublishSaves(c: Client, p: Outgoing, a: Action)
    ensures SavesBy(c, SendPublish(c, p), a)
  {
  }

  lemma ReceiveSaves(c: Client, p: Packet)
    ensures SavesBy(c, Receive(c, p), ClientReceives(p))
  {
    if Sound(c, p) && p.Regack? && p.accepted && ParkedKey(p.msgId) in c.table {
      var m := c.table[ParkedKey(p.msgId)].pub;
      PublishSaves(Learn(c, m.name, p.topicId), m.(topicId := p.topicId), ClientReceives(p));
      hide SendPublish, Sound;
    }
  }

  lemma SavesStep(s: System, a: Action)
    requires Enabled(s, a)
    ensures SavesBy(s.client, Next(s, a).client, a)
  {
    if a.ClientReceives? {
      ReceiveSaves(s.client, a.p);
    }
    hide Receive, Answer;
  }

  lemma VerdictsStep(s: System, a: Action)
    requires Enabled(s, a)
    ensures s.accepted <= Next(s, a).accepted && s.refused <= Next(s, a).refused
  {
    hide Receive, SendMessage, SendSubscribe, SendUnsubscribe;
  }

  /** What was recorded stays, and so does what the gateway has decided. */
  lemma {:induction false} RecordsStay(run: seq<System>, actions: seq<Action>, i: nat, j: nat)
    requires IsRun(run, actions) && i <= j < |run|
    ensures run[i].client.saved <= run[j].client.saved
    ensures run[i].accepted <= run[j].accepted && run[i].refused <= run[j].refused
    decreases j
  {
    hide Next, Enabled;
    if i == j {
    } else {
      RecordsStay(run, actions, i, j - 1);
      SavesStep(run[j - 1], actions[j - 1]);
      VerdictsStep(run[j - 1], actions[j - 1]);
    }
  }

  /** Step `k` of the run recorded the message at place `j` on receiving `q`. */
  ghost predicate RecordedBy(run: seq<System>, actions: seq<Action>, j: nat, k: nat, q: Packet)
    requires IsRun(run, actions)
  {
    && k < |actions| && actions[k] == ClientReceives(q) && Records(q)
    && |run[k].client.saved| == j < |run[k + 1].client.saved|
    && run[k + 1].client.saved[j].messageId == q.msgId
  }

  /** A message recorded with QoS 1 or 2 was recorded by a PUBACK or PUBCOMP for its id. */
  lemma {:induction false} RecordedByAnAnswer(run: seq<System>, actions: seq<Action>, i: nat, j: nat)
    requires IsRun(run, actions) && WithinIdSpace(run) && i < |run|
    requires j < |run[i].client.saved| && run[i].client.saved[j].qos != AT_MOST_ONCE
    ensures exists k: nat, q: Packet :: k < i && RecordedBy(run, actions, j, k, q)
    decreases i
  {
    hide Next, Enabled, InvBut, Receive;
    if i == 0 {
    } else {
      SavesStep(run[i - 1], actions[i - 1]);
      if j < |run[i - 1].client.saved| {
        RecordedByAnAnswer(run, actions, i - 1, j);
      } else {
        var q := actions[i - 1].p;
        InvHolds(run, actions, i - 1);
        ReceivedWasSent(run, actions, i - 1);
        AckFinds(run[i - 1], q);
        assert RecordedBy(run, actions, j, i - 1, q);
      }
    }
  }

  /** Whether the gateway accepted a recorded message is told by the packet that recorded
      it, not by its being recorded: a refusing PUBACK records as well. */
  lemma RecordedWasAccepted(run: seq<System>, actions: seq<Action>, i: nat, j: nat, k: nat, q: Packet)
    requires IsRun(run, actions) && WithinIdSpace(run) && k < i < |run|
    requires RecordedBy(run, actions, j, k, q)
    ensures j < |run[i].client.saved|
    ensures var s, p := run[i], run[i].client.saved[j];
      && Wire(p) in s.client.fired && Granted(s, p.name, p.topicId)
      && (Accepts(q) ==> Wire(p) in s.accepted)
      && (!Accepts(q) ==> Wire(p) in s.refused)
      && (!(Wire(p) in s.accepted && Wire(p) in s.refused) ==> (Wire(p) in s.accepted <==> Accepts(q)))
  {
    RecordsStay(run, actions, k + 1, i);
    InvHolds(run, actions, k);
    InvHolds(run, actions, i);
    RecordingPacket(run, actions, j, k, q);
    RecordsStay(run, actions, k, i);
    assert DoneInv(run[i]);
  }

  lemma RecordingPacket(run: seq<System>, actions: seq<Action>, j: nat, k: nat, q: Packet)
    requires IsRun(run, actions) && RecordedBy(run, actions, j, k, q) && Inv(run[k])
    ensures Wire(run[k + 1].client.saved[j]) in (if Accepts(q) then run[k].accepted else run[k].refused)
  {
    hide Next, InvBut;
    ReceivedWasSent(run, actions, k);
    RecordingFinds(run[k], q);
  }

  lemma RecordingFinds(s: System, q: Packet)
    requires Enabled(s, ClientReceives(q)) && Records(q) && Inv(s)
    requires |s.client.saved| < |Next(s, ClientReceives(q)).client.saved|
    ensures Wire(Next(s, ClientReceives(q)).client.saved[|s.client.saved|]) in (if Accepts(q) then s.accepted else s.refused)
  {
    hide InvBut;
    if q.msgId in s.client.table { AckFinds(s, q); }
  }

  /** Registration pairing: while REGISTER r is unanswered the table holds, under r - 1,
      the unpublished message for exactly that topic; afterwards nothing. */
  lemma RegisterPairsWithMessage(run: seq<System>, actions: seq<Action>, i: nat, r: int, name: string)
    requires IsRun(run, actions) && WithinIdSpace(run) && i < |run|
    requires Register(NO_TOPIC_ID, r, name) in run[i].client.fired
    ensures r !in run[i].answered ==> Parked(run[i].client, r - 1) && run[i].client.table[r - 1].pub.name == name
    ensures r in run[i].answered ==> r - 1 !in run[i].client.table
  {
    InvHolds(run, actions, i);
    assert FiredOk(run[i], Register(NO_TOPIC_ID, r, name));
    if r - 1 in run[i].client.table {
      assert EntryOk(run[i], r - 1, run[i].client.table[r - 1]);
    }
  }

  lemma RegackFires(c: Client, p: Packet, m: Outgoing)
    requires p.Regack? && p.accepted && Sound(c, p)
    requires ParkedKey(p.msgId) in c.table && c.table[ParkedKey(p.msgId)] == Parcel(m)
    requires Receive(c, p).current < ID_SPACE
    ensures var d := Receive(c, p);
      d.fired == c.fired + [Wire(m.(messageId := d.current, topicId := p.topicId))]
  {
  }

  /** An accepting REGACK to an unanswered REGISTER publishes the message that waited for
      it, under the topic id granted for its name and with the next message id. */
  lemma RegackPublishes(run: seq<System>, actions: seq<Action>, i: nat, p: Packet)
    requires IsRun(run, actions) && WithinIdSpace(run) && i < |actions|
    requires actions[i] == ClientReceives(p) && p.Regack? && p.accepted && p.msgId !in run[i].answered
    ensures Parked(run[i].client, p.msgId - 1)
    ensures var m := run[i].client.table[p.msgId - 1].pub;
      && Granted(run[i], m.name, p.topicId)
      && run[i + 1].client.fired == run[i].client.fired + [Wire(m.(messageId := run[i + 1].client.current, topicId := p.topicId))]
  {
    hide InvBut, Inv;
    InvHolds(run, actions, i);
    var s := run[i];
    ReceivedWasSent(run, actions, i);
    RegackFinds(s, p);
    CounterGrows(run, actions, i + 1, |run| - 1);
    RegackFires(s.client, p, s.client.table[p.msgId - 1].pub);
    assert run[i + 1] == Next(s, ClientReceives(p));
  }

  /** Every publish on the wire has a submission's content and its name's topic id. */
  lemma PublishCarriesGrantedId(run: seq<System>, actions: seq<Action>, i: nat, p: Packet)
    requires IsRun(run, actions) && WithinIdSpace(run) && i < |run|
    requires p in run[i].client.fired && p.Publish?
    ensures exists n :: n in run[i].submitted && Carries(run[i], p, run[i].submitted[n])
  {
    InvHolds(run, actions, i);
    assert FiredOk(run[i], p);
  }

  lemma MapsAreInverse(run: seq<System>, actions: seq<Action>, i: nat, name: string, topicId: int)
    requires IsRun(run, actions) && WithinIdSpace(run) && i < |run|
    ensures var c := run[i].client;
      (name in c.idOf && c.idOf[name] == topicId) <==> (topicId in c.nameOf && c.nameOf[topicId] == name)
    ensures name in run[i].client.idOf ==> Granted(run[i], name, run[i].client.idOf[name])
  {
    InvHolds(run, actions, i);
  }

  /** Handling a packet keeps to defined behaviour exactly when: a PUBCOMP or an UNSUBACK
      finds its entry, an unsubscription by topic id names one the client knows, a SUBACK
      is not for a subscription by an id it has forgotten, and a PUBLISH has data and a
      topic id it knows. */
  lemma FaultsExactly(run: seq<System>, actions: seq<Action>, i: nat, p: Packet)
    requires IsRun(run, actions) && WithinIdSpace(run) && i < |run| && p in run[i].toClient
    ensures var c := run[i].client;
      Sound(c, p) <==> match p
        case Pubcomp(id) => id in c.table
        case Unsuback(id) =>
          && id in c.table
          && (c.table[id].Other? && c.table[id].packet.Unsubscribe? && c.table[id].packet.byId ==>
                c.table[id].packet.topicId in c.nameOf)
        case Suback(t, id, ok) =>
          !(ok && t !in c.nameOf
            && id in c.table && c.table[id].Other? && c.table[id].packet.Subscribe? && c.table[id].packet.byId)
        case Publish(_, t, data, _, _, _) => t in c.nameOf && data != ""
        case _ => true
  {
    hide InvBut, Next, Enabled;
    InvHolds(run, actions, i);
    CastsAreRight(run[i], p);
  }

  // ---- States that are reached ----

  ghost predicate EndsIn(run: seq<System>, actions: seq<Action>, s: System) {
    IsRun(run, actions) && run[|run| - 1] == s
  }

  ghost predicate Reachable(s: System) {
    exists run, actions :: EndsIn(run, actions, s)
  }

  lemma ReachInit()
    ensures Reachable(Init())
  {
    assert EndsIn([Init()], [], Init());
  }

  lemma ReachNext(s: System, a: Action)
    requires Reachable(s) && Enabled(s, a)
    ensures Reachable(Next(s, a))
  {
    hide Next, Enabled;
    var run, actions :| EndsIn(run, actions, s);
    assert EndsIn(run + [Next(s, a)], actions + [a], Next(s, a));
  }

  /** Any publish for a topic id the client does not know, at the start every one. */
  lemma PublishFaults(p: Packet)
    requires p.Publish?
    ensures exists s :: Reachable(s) && p in s.toClient && !Sound(s.client, p)
  {
    ReachInit();
    ReachNext(Init(), GatewayPublishes(p));
  }

  /** An UNSUBACK that is delivered twice. */
  lemma UnsubackFaults()
    ensures exists s :: Reachable(s) && s.client.faulted
  {
    ReachInit();
    var s := Init();
    var a := UserUnsubscribe("a");
    ReachNext(s, a); s := Next(s, a);
    var w := Unsubscribe(1, false, NO_TOPIC_ID, "a");
    assert s.client.fired == [Connect, w];
    a := GatewayReceives(w);
    ReachNext(s, a); s := Next(s, a);
    a := ClientReceives(Unsuback(1));
    ReachNext(s, a); s := Next(s, a);
    ReachNext(s, a); s := Next(s, a);
  }

  /** The client has been told that topic "a" has id 1. */
  function Informed(): System {
    System(
      Client(0, map[], map["a" := 1], map[1 := "a"], true, [Connect, Regack(1, 7, true)], [], [], [], false),
      {Connack(true), Register(1, 7, "a")}, map["a" := 1], {}, {}, map[], {})
  }

  lemma InformedIsReached()
    ensures Reachable(Informed())
  {
    ReachInit();
    var s := Init();
    var a := GatewayConnects(true);
    ReachNext(s, a); s := Next(s, a);
    a := ClientReceives(Connack(true));
    ReachNext(s, a); s := Next(s, a);
    a := GatewayGrants("a", 1);
    ReachNext(s, a); s := Next(s, a);
    a := GatewayRegisters("a", 7);
    ReachNext(s, a); s := Next(s, a);
    a := ClientReceives(Register(1, 7, "a"));
    ReachNext(s, a); s := Next(s, a);
    assert s.client.table == map[];
    assert s.client.fired == [Connect, Regack(1, 7, true)];
    assert s == Informed();
  }

  /** A PUBCOMP that is delivered twice. */
  lemma PubcompFaults()
    ensures exists s :: Reachable(s) && s.client.faulted && Pubcomp(2) in s.toClient
  {
    InformedIsReached();
    var s := Informed();
    var a := UserMessage("x", "a", EXACTLY_ONCE, false, false);
    ReachNext(s, a); s := Next(s, a);
    var w := Publish(2, 1, "x", EXACTLY_ONCE, false, false);
    assert s.client.fired == [Connect, Regack(1, 7, true), w];
    a := GatewayReceives(w);
    ReachNext(s, a); s := Next(s, a);
    a := ClientReceives(Pubrec(2));
    ReachNext(s, a); s := Next(s, a);
    assert s.client.fired == [Connect, Regack(1, 7, true), w, Pubrel(2)];
    CompletedTwice(s);
  }

  lemma CompletedTwice(s: System)
    requires Reachable(s) && !s.client.faulted && Pubrel(2) in s.client.fired
    requires 2 in s.client.table && s.client.table[2].Parcel? && s.client.table[2].pub.messageId == 2
    ensures exists t :: Reachable(t) && t.client.faulted && Pubcomp(2) in t.toClient
  {
    hide Reachable;
    var a := GatewayReceives(Pubrel(2));
    ReachNext(s, a);
    var t := Next(s, a);
    a := ClientReceives(Pubcomp(2));
    ReachNext(t, a);
    var u := Next(t, a);
    ReachNext(u, a);
    assert Next(u, a).client.faulted;
  }

  /** A SUBACK to a subscription by a topic id that a second CONNACK made the client forget. */
  lemma SubackFaults()
    ensures exists s :: Reachable(s) && s.client.faulted && Suback(1, 1, true) in s.toClient
  {
    InformedIsReached();
    hide Reachable;
    var s := Informed();
    var a := UserSubscribe("a", AT_LEAST_ONCE);
    ReachNext(s, a); s := Next(s, a);
    var w := Subscribe(1, true, 1, "a", AT_LEAST_ONCE);
    assert s.client.fired == [Connect, Regack(1, 7, true), w];
    a := GatewayAnswersSubscribe(w, true);
    ReachNext(s, a); s := Next(s, a);
    a := ClientReceives(Connack(true));
    ReachNext(s, a); s := Next(s, a);
    a := ClientReceives(Suback(1, 1, true));
    ReachNext(s, a); s := Next(s, a);
    assert s.client.faulted;
  }

  /** A QoS 1 message that the gateway has only refused is recorded as sent. */
  lemma RefusedIsRecorded()
    ensures exists s :: Reachable(s) && s.accepted == {} && |s.client.saved| == 1 && s.client.saved[0].qos == AT_LEAST_ONCE
  {
    InformedIsReached();
    var s := Informed();
    var a := UserMessage("x", "a", AT_LEAST_ONCE, false, false);
    ReachNext(s, a); s := Next(s, a);
    var w := Publish(2, 1, "x", AT_LEAST_ONCE, false, false);
    assert s.client.fired == [Connect, Regack(1, 7, true), w];
    a := GatewayRefuses(w);
    ReachNext(s, a); s := Next(s, a);
    a := ClientReceives(Puback(1, 2, false));
    ReachNext(s, a); s := Next(s, a);
  }
}
