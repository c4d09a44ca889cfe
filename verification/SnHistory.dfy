/**
 What the steps of an MQTT-SN run do, told by the actions: what is sent, passed up,
 recorded and given up, which requests are still open and which topic ids are known.
 */
module SnHistory {
  import opened SnSession
  import opened SnSystem
  import opened SnSteps
  import opened SnRuns

  // ---- What is sent and passed up ----

  /** A publish that can be passed up: it has data, and its topic id is known. */
  predicate Understood(c: Client, p: Packet) {
    p.Publish? && p.data != "" && p.topicId in c.nameOf
  }

  /** What an accepting REGACK `p` releases: the message for which REGISTER was sent. */
  predicate Releases(c: Client, p: Packet) {
    p.Regack? && p.accepted && Awaits(c, p.msgId)
  }

  /** The message waits for the answer to REGISTER `id`. */
  predicate Awaits(c: Client, id: int) {
    id - 1 in c.table && c.table[id - 1].Parcel?
  }

  /** What a client in state `c` answers `p` with. */
  function AnswerTo(c: Client, p: Packet): seq<Packet> {
    match p
    case Register(t, id, _) => [Regack(t, id, true)]
    case Publish(id, t, _, qos, _, _) =>
      if !Understood(c, p) then [] else if qos == 1 then [Puback(t, id, true)] else if qos == 2 then [Pubrec(id)] else []
    case Pubrec(id) => [Pubrel(id)]
    case Pubrel(id) => [Pubcomp(id)]
    case Regack(t, id, _) =>
      if !Releases(c, p) then []
      else var m := c.table[id - 1].pub; [Publish(c.current + 1, t, m.data, m.qos, m.retain, m.dup)]
    case _ => []
  }

  /** Every packet that is received is answered with exactly this, and a publish is passed
      up exactly when it is understood. */
  lemma AnswersExactly(run: seq<System>, actions: seq<Action>, i: nat, p: Packet)
    requires IsRun(run, actions) && WithinIdSpace(run) && i < |actions| && actions[i] == ClientReceives(p)
    ensures run[i + 1].client.fired == run[i].client.fired + AnswerTo(run[i].client, p)
    ensures run[i + 1].client.delivered == run[i].client.delivered + if Understood(run[i].client, p) then [p] else []
  {
    hide Inv, InvBut;
    InvHolds(run, actions, i);
    ReceivedWasSent(run, actions, i);
    CounterGrows(run, actions, i + 1, |run| - 1);
    if p.Regack? {
      RegackFinds(run[i], p);
      RegackAnswers(run[i].client, p);
    } else {
      AnswerOf(run[i].client, p);
    }
    assert run[i + 1] == Next(run[i], ClientReceives(p));
  }

  lemma AnswerOf(c: Client, p: Packet)
    requires !p.Regack?
    ensures Receive(c, p).fired == c.fired + AnswerTo(c, p)
    ensures Receive(c, p).delivered == c.delivered + if Understood(c, p) then [p] else []
  {
    assert c.fired + [] == c.fired && c.delivered + [] == c.delivered;
  }

  lemma RegackAnswers(c: Client, p: Packet)
    requires p.Regack? && Sound(c, p) && ParkedKey(p.msgId) == p.msgId - 1 && Receive(c, p).current < ID_SPACE
    ensures Receive(c, p).fired == c.fired + AnswerTo(c, p) && Receive(c, p).delivered == c.delivered
  {
    assert c.fired + [] == c.fired;
    if Releases(c, p) {
      var m := c.table[p.msgId - 1].pub;
      RegackFires(c, p, m);
      hide Learn;
      assert Receive(c, p).current == c.current + 1;
    }
  }

  /** The publishes that were understood when they arrived, in the order of arrival. */
  ghost function Arrived(run: seq<System>, actions: seq<Action>, j: nat): seq<Packet>
    requires j <= |actions| && |run| == |actions| + 1
  {
    if j == 0 then []
    else
      var a := actions[j - 1];
      Arrived(run, actions, j - 1) +
      if a.ClientReceives? && Understood(run[j - 1].client, a.p) then [a.p] else []
  }

  lemma OthersDeliverNothing(s: System, a: Action)
    requires Enabled(s, a) && !a.ClientReceives?
    ensures Next(s, a).client.delivered == s.client.delivered
  {
  }

  /** Each of them is passed up once for each time it is handed over, in order, and nothing
      else is. */
  lemma {:induction false} DeliveredInOrder(run: seq<System>, actions: seq<Action>, j: nat)
    requires IsRun(run, actions) && WithinIdSpace(run) && j <= |actions|
    ensures run[j].client.delivered == Arrived(run, actions, j)
    decreases j
  {
    if j == 0 {
    } else {
      hide Next, Enabled, Understood;
      DeliveredInOrder(run, actions, j - 1);
      var a := actions[j - 1];
      if a.ClientReceives? {
        AnswersExactly(run, actions, j - 1, a.p);
      } else {
        OthersDeliverNothing(run[j - 1], a);
      }
    }
  }

  /** What the user's requests put on the wire: a message for a topic with a known id is
      published under it at once, for another a REGISTER is sent; a request names its
      topic by id exactly when that is known. */
  function SentFor(c: Client, a: Action): seq<Packet> {
    match a
    case UserMessage(data, name, qos, retain, dup) =>
      [if name in c.idOf then Publish(c.current + 2, c.idOf[name], data, qos, retain, dup) else Register(0, c.current + 2, name)]
    case UserSubscribe(name, qos) =>
      [Subscribe(c.current + 1, name in c.idOf, if name in c.idOf then c.idOf[name] else 0, name, qos)]
    case UserUnsubscribe(name) =>
      [Unsubscribe(c.current + 1, name in c.idOf, if name in c.idOf then c.idOf[name] else 0, name)]
    case _ => []
  }

  predicate IsRequest(a: Action) {
    a.UserMessage? || a.UserSubscribe? || a.UserUnsubscribe?
  }

  /** What the user's message is recorded as at once. */
  function RecordedFor(c: Client, a: Action): seq<Outgoing> {
    if a.UserMessage? && a.qos == 0 && a.name in c.idOf then
      [Outgoing(c.current + 1, c.current + 2, c.idOf[a.name], a.name, a.data, 0, a.retain, a.dup)]
    else []
  }

  /** Each request of the user's is sent at once. */
  lemma RequestsAreSent(run: seq<System>, actions: seq<Action>, i: nat)
    requires IsRun(run, actions) && WithinIdSpace(run) && i < |actions| && IsRequest(actions[i])
    ensures run[i + 1].client.fired == run[i].client.fired + SentFor(run[i].client, actions[i])
    ensures run[i + 1].client.saved == run[i].client.saved + RecordedFor(run[i].client, actions[i])
    ensures run[i + 1].client.dropped == run[i].client.dropped
  {
    hide Inv, InvBut, SentFor, RecordedFor;
    InvHolds(run, actions, i);
    IdsArePositive(run[i]);
    CounterGrows(run, actions, i + 1, |run| - 1);
    assert run[i + 1] == Next(run[i], actions[i]);
    RequestSends(run[i], actions[i]);
  }

  lemma RequestSends(s: System, a: Action)
    requires Enabled(s, a) && IsRequest(a) && forall x :: x in s.client.idOf ==> s.client.idOf[x] > 0
    requires Next(s, a).client.current < ID_SPACE
    ensures Next(s, a).client.fired == s.client.fired + SentFor(s.client, a)
    ensures Next(s, a).client.saved == s.client.saved + RecordedFor(s.client, a)
    ensures Next(s, a).client.dropped == s.client.dropped
  {
    assert s.client.saved + [] == s.client.saved;
    if a.UserMessage? {
      MessageCounts(s.client, a);
      MessageSends(s.client, a);
      hide SendMessage;
    }
  }

  lemma PublishSends(c: Client, p: Outgoing)
    requires c.current + 1 < ID_SPACE
    ensures var d, q := SendPublish(c, p), p.(messageId := c.current + 1);
      && d.current == c.current + 1 && d.dropped == c.dropped
      && d.fired == c.fired + [Publish(c.current + 1, p.topicId, p.data, p.qos, p.retain, p.dup)]
      && d.saved == c.saved + if p.qos == 0 then [q] else []
  {
    assert c.saved + [] == c.saved;
  }

  lemma ParkingSends(c: Client, p: Outgoing, name: string)
    requires c.current + 1 < ID_SPACE
    ensures var d := SendRegister(AddMessage(c, Parcel(p)), name);
      && d.current == c.current + 1 && d.dropped == c.dropped && d.saved == c.saved
      && d.fired == c.fired + [Register(0, c.current + 1, name)]
  {
  }

  /** The message as it is made, before it is published or parked. */
  function Made(c: Client, a: Action): Outgoing
    requires a.UserMessage?
  {
    Outgoing(c.current + 1, c.current + 1, if a.name in c.idOf then c.idOf[a.name] else 0, a.name, a.data, a.qos, a.retain, a.dup)
  }

  lemma MessageIs(c: Client, a: Action)
    requires a.UserMessage? && (a.name in c.idOf ==> c.idOf[a.name] > 0) && c.current + 1 < ID_SPACE
    ensures var d, e, p := SendMessage(c, a.data, a.name, a.qos, a.retain, a.dup), c.(current := c.current + 1), Made(c, a);
      d == if a.name in c.idOf then SendPublish(e, p) else SendRegister(AddMessage(e, Parcel(p)), a.name)
  {
    hide SendPublish, SendRegister, AddMessage;
  }

  lemma MessageSends(c: Client, a: Action)
    requires a.UserMessage? && forall x :: x in c.idOf ==> c.idOf[x] > 0
    requires c.current + 2 < ID_SPACE
    ensures var d := SendMessage(c, a.data, a.name, a.qos, a.retain, a.dup);
      d.fired == c.fired + SentFor(c, a) && d.saved == c.saved + RecordedFor(c, a) && d.dropped == c.dropped
  {
    hide SendPublish, SendRegister, AddMessage, SendMessage;
    MessageIs(c, a);
    var e := c.(current := c.current + 1);
    if a.name in c.idOf {
      PublishSends(e, Made(c, a));
    } else {
      ParkingSends(e, Made(c, a), a.name);
      assert c.saved + [] == c.saved;
    }
  }

  lemma MessageCounts(c: Client, a: Action)
    requires a.UserMessage?
    ensures SendMessage(c, a.data, a.name, a.qos, a.retain, a.dup).current == c.current + 2
  {
    hide Wire, TopicId;
  }

  lemma IdsArePositive(s: System)
    requires Inv(s)
    ensures forall x :: x in s.client.idOf ==> s.client.idOf[x] > 0
  {
    assert MapsInv(s);
  }

  // ---- What is recorded and given up ----

  /** What a client in state `c` records when it handles `p`. */
  function RecordedOn(c: Client, p: Packet): seq<Outgoing> {
    if (p.Puback? || p.Pubcomp?) && p.msgId in c.table && c.table[p.msgId].Parcel? then [c.table[p.msgId].pub]
    else if Releases(c, p) && c.table[p.msgId - 1].pub.qos == 0 then
      [c.table[p.msgId - 1].pub.(messageId := c.current + 1, topicId := p.topicId)]
    else []
  }

  function GivenUpOn(c: Client, p: Packet): seq<Outgoing> {
    if p.Regack? && !p.accepted && Awaits(c, p.msgId) then [c.table[p.msgId - 1].pub] else []
  }

  /** A message is recorded when PUBACK or PUBCOMP finds it, or with QoS 0 when it is
      published, and given up when a refusing REGACK finds it, and at no other step. */
  lemma RecordsExactly(run: seq<System>, actions: seq<Action>, i: nat)
    requires IsRun(run, actions) && WithinIdSpace(run) && i < |actions|
    ensures var c, d, a := run[i].client, run[i + 1].client, actions[i];
      && d.saved == c.saved + (if a.ClientReceives? then RecordedOn(c, a.p) else RecordedFor(c, a))
      && d.dropped == c.dropped + (if a.ClientReceives? then GivenUpOn(c, a.p) else [])
  {
    hide Inv, InvBut, RecordedOn, GivenUpOn, RecordedFor;
    var s, a := run[i], actions[i];
    if a.ClientReceives? {
      InvHolds(run, actions, i);
      CounterGrows(run, actions, i + 1, |run| - 1);
      ReceivedWasSent(run, actions, i);
      CastsAreRight(s, a.p);
      if a.p.Regack? { RegackFinds(s, a.p); }
      assert run[i + 1] == Next(s, a);
      RecordsOnReceive(s.client, a.p);
    } else if IsRequest(a) {
      RequestsAreSent(run, actions, i);
      assert s.client.dropped + [] == s.client.dropped;
    } else {
      assert run[i + 1] == Next(s, a);
      GatewayRecordsNothing(s, a);
    }
  }

  lemma GatewayRecordsNothing(s: System, a: Action)
    requires Enabled(s, a) && !a.ClientReceives? && !IsRequest(a)
    ensures Next(s, a).client == s.client
    ensures s.client.saved + RecordedFor(s.client, a) == s.client.saved && s.client.dropped + [] == s.client.dropped
  {
  }

  lemma RecordsOnReceive(c: Client, p: Packet)
    requires p.Regack? ==> Sound(c, p) && ParkedKey(p.msgId) == p.msgId - 1 && Receive(c, p).current < ID_SPACE
    requires (p.Puback? || p.Pubcomp?) && p.msgId in c.table ==> c.table[p.msgId].Parcel?
    ensures Receive(c, p).saved == c.saved + RecordedOn(c, p) && Receive(c, p).dropped == c.dropped + GivenUpOn(c, p)
  {
    assert c.saved + [] == c.saved && c.dropped + [] == c.dropped;
  }

  // ---- Which requests are open ----

  /** Handling `p` in state `c` acknowledges the request with id `k`. */
  predicate Acknowledges(c: Client, p: Packet, k: int) {
    && Sound(c, p)
    && match p
       case Puback(_, id, _) => id == k
       case Pubcomp(id) => id == k
       case Suback(_, id, _) => id == k
       case Unsuback(id) => id == k
       case _ => false
  }

  ghost predicate AcknowledgedBefore(run: seq<System>, actions: seq<Action>, j: nat, k: int)
    requires j <= |actions| && |run| == |actions| + 1
  {
    exists i: nat :: i < j && actions[i].ClientReceives? && Acknowledges(run[i].client, actions[i].p, k)
  }

  lemma AcknowledgedNext(run: seq<System>, actions: seq<Action>, j: nat, k: int)
    requires 0 < j <= |actions| && |run| == |actions| + 1
    ensures AcknowledgedBefore(run, actions, j, k) <==>
      || AcknowledgedBefore(run, actions, j - 1, k)
      || (actions[j - 1].ClientReceives? && Acknowledges(run[j - 1].client, actions[j - 1].p, k))
  {
    hide Acknowledges;
  }

  /** A request under its id: a SUBSCRIBE, an UNSUBSCRIBE or a publish above QoS 0. */
  predicate IsOpenable(w: Packet) {
    w.Subscribe? || w.Unsubscribe? || (w.Publish? && w.qos != 0)
  }

  /** Whatever is stored under an id that a packet used is not a parked message. */
  lemma FiredIsNotParked(s: System, w: Packet)
    requires Inv(s) && w in s.client.fired && IsOpenable(w)
    ensures 1 <= w.msgId <= s.client.current && !Parked(s.client, w.msgId)
  {
    assert FiredOk(s, w);
    if w.Publish? && w.msgId in s.client.table { FiredFinds(s, w); }
  }

  /** An acknowledgement on the channel is one for an id that was given out. */
  lemma AcknowledgedWasGiven(s: System, p: Packet, k: int)
    requires Inv(s) && p in s.toClient && Acknowledges(s.client, p, k)
    ensures 1 <= k <= s.client.current
  {
    hide DoneInv, MapsInv, TableInv, Somewhere;
    assert SentOk(s, p);
    match p {
      case Puback(_, id, ok) =>
        if ok {
          var w :| w in s.accepted && w in s.client.fired && w.Publish? && w.msgId == id && w.qos == AT_LEAST_ONCE;
          assert FiredOk(s, w);
        } else {
          var w :| w in s.refused && w in s.client.fired && w.Publish? && w.msgId == id;
          assert FiredOk(s, w);
        }
      case Pubcomp(id) =>
        var w :| w in s.accepted && w in s.client.fired && w.Publish? && w.msgId == id && w.qos == EXACTLY_ONCE;
        assert FiredOk(s, w);
      case Suback(t, id, ok) =>
        var w :| w in s.client.fired && w.Subscribe? && w.msgId == id && (ok && !w.byId ==> Granted(s, w.name, t));
        assert FiredOk(s, w);
      case Unsuback(id) =>
        var w :| w in s.client.fired && w.Unsubscribe? && w.msgId == id;
        assert FiredOk(s, w);
      case _ =>
    }
  }

  /** Handling a packet other than REGACK takes away what it acknowledges and nothing else. */
  lemma ReceiveTakes(c: Client, p: Packet, k: int)
    requires k > 0 && !p.Regack?
    requires p.Pubcomp? && Sound(c, p) ==> c.table[p.msgId].pub.messageId == p.msgId
    requires p.Unsuback? && Sound(c, p) ==> c.table[p.msgId].packet.msgId == p.msgId
    ensures k in Receive(c, p).table <==> k in c.table && !Acknowledges(c, p, k)
  {
  }

  /** A message goes under an id that was not given out before. */
  lemma MessageTakesNothing(c: Client, a: Action, k: int)
    requires a.UserMessage? && (a.name in c.idOf ==> c.idOf[a.name] > 0) && c.current + 2 < ID_SPACE && 0 < k <= c.current
    ensures k in SendMessage(c, a.data, a.name, a.qos, a.retain, a.dup).table <==> k in c.table
  {
    MessageIs(c, a);
    hide SendMessage, TopicId, Wire;
  }

  /** Nothing else takes away what is stored under an id. */
  lemma OthersTakeNothing(s: System, a: Action, k: int)
    requires Inv(s) && Enabled(s, a) && !a.ClientReceives? && 0 < k <= s.client.current && Next(s, a).client.current < ID_SPACE
    ensures k in Next(s, a).client.table <==> k in s.client.table
  {
    IdsArePositive(s);
    hide Inv, InvBut;
    if a.UserMessage? {
      MessageCounts(s.client, a);
      MessageTakesNothing(s.client, a, k);
      hide SendMessage;
    } else if !IsRequest(a) {
      GatewayRecordsNothing(s, a);
      hide Next;
    }
  }

  lemma OpenStep(s: System, a: Action, k: int)
    requires Inv(s) && Enabled(s, a) && Next(s, a).client.current < ID_SPACE
    requires 0 < k <= s.client.current && !Parked(s.client, k)
    ensures k in Next(s, a).client.table <==>
      k in s.client.table && !(a.ClientReceives? && Acknowledges(s.client, a.p, k))
  {
    hide InvBut;
    if a.ClientReceives? {
      var p := a.p;
      if p.Regack? {
        RegackFinds(s, p);
        RegackCase(s, p, k);
      } else {
        if Sound(s.client, p) { AckIds(s, p); }
        ReceiveTakes(s.client, p, k);
      }
    } else {
      OthersTakeNothing(s, a, k);
    }
  }

  lemma RegackCase(s: System, p: Packet, k: int)
    requires p.Regack? && Sound(s.client, p) && ParkedKey(p.msgId) == p.msgId - 1 && p.msgId !in s.client.table
    requires p.msgId - 1 in s.client.table ==> Parked(s.client, p.msgId - 1)
    requires 0 < k <= s.client.current < ID_SPACE && !Parked(s.client, k) && Receive(s.client, p).current < ID_SPACE
    ensures k in Receive(s.client, p).table <==> k in s.client.table
  {
  }

  lemma AckIds(s: System, p: Packet)
    requires Inv(s) && p in s.toClient && Sound(s.client, p)
    ensures p.Pubcomp? ==> s.client.table[p.msgId].pub.messageId == p.msgId
    ensures p.Unsuback? ==> s.client.table[p.msgId].packet.msgId == p.msgId
  {
    if p.Pubcomp? { AckFinds(s, p); }
    if p.Unsuback? { UnsubackFinds(s, p); }
  }

  lemma MessageStores(c: Client, a: Action, w: Packet)
    requires a.UserMessage? && (a.name in c.idOf ==> c.idOf[a.name] > 0) && c.current + 2 < ID_SPACE
    requires IsOpenable(w) && w in SentFor(c, a)
    ensures c.current < w.msgId && w.msgId in SendMessage(c, a.data, a.name, a.qos, a.retain, a.dup).table
  {
    MessageIs(c, a);
    hide SendMessage, TopicId, Wire;
  }

  lemma PublishStores(c: Client, m: Outgoing)
    requires c.current + 1 < ID_SPACE && m.qos != 0
    ensures c.current + 1 in SendPublish(c, m).table
  {
  }

  lemma ReleasedIsStored(c: Client, p: Packet, w: Packet)
    requires p.Regack? && Sound(c, p) && p.msgId !in c.table && (Releases(c, p) ==> 0 < p.msgId <= c.current < ID_SPACE - 1)
    requires ParkedKey(p.msgId) == p.msgId - 1 && IsOpenable(w) && w in AnswerTo(c, p)
    ensures c.current < w.msgId && w.msgId in Receive(c, p).table
  {
    var m := c.table[p.msgId - 1].pub;
    RegackAccepted(c, p.topicId, p.msgId, m);
    var d := Learn(c.(table := c.table - {p.msgId - 1}), m.name, p.topicId);
    assert d.current == c.current;
    PublishStores(d, m.(topicId := p.topicId));
    hide SendPublish, OnRegack, Learn, Sound;
  }

  lemma RegackGrows(s: System, p: Packet)
    requires Inv(s) && p in s.toClient && p.Regack? && Releases(s.client, p) && Receive(s.client, p).current < ID_SPACE
    ensures 0 < p.msgId <= s.client.current < ID_SPACE - 1
  {
    RegackFinds(s, p);
    hide Inv, InvBut, Learn, Wire;
  }

  /** A request is stored when it is sent, under an id not given out before. */
  lemma NewIsStored(s: System, a: Action, w: Packet)
    requires Inv(s) && Enabled(s, a) && Next(s, a).client.current < ID_SPACE
    requires w in Next(s, a).client.fired && w !in s.client.fired && IsOpenable(w)
    ensures s.client.current < w.msgId && w.msgId in Next(s, a).client.table
  {
    IdsArePositive(s);
    if a.ClientReceives? {
      NewOnReceive(s, a.p, w);
      hide Inv, InvBut, Receive;
    } else if IsRequest(a) {
      hide Inv, InvBut;
      RequestSends(s, a);
      if a.UserMessage? {
        MessageCounts(s.client, a);
        hide SentFor, SendMessage;
        MessageStores(s.client, a, w);
      }
    } else {
      GatewayRecordsNothing(s, a);
      hide Next, Inv, InvBut;
    }
  }

  lemma NewOnReceive(s: System, p: Packet, w: Packet)
    requires Inv(s) && p in s.toClient && Receive(s.client, p).current < ID_SPACE
    requires w in Receive(s.client, p).fired && w !in s.client.fired && IsOpenable(w)
    ensures s.client.current < w.msgId && w.msgId in Receive(s.client, p).table
  {
    hide Inv, InvBut;
    if p.Regack? {
      RegackFinds(s, p);
      RegackAnswers(s.client, p);
      if Releases(s.client, p) { RegackGrows(s, p); }
      hide Receive, AnswerTo;
      ReleasedIsStored(s.client, p, w);
    } else {
      AnswerOf(s.client, p);
      hide Receive;
    }
  }

  lemma NotAcknowledged(run: seq<System>, actions: seq<Action>, j: nat, k: int)
    requires IsRun(run, actions) && WithinIdSpace(run) && j <= |actions| && run[j].client.current < k
    ensures !AcknowledgedBefore(run, actions, j, k)
  {
    hide Next, Enabled, Inv, Acknowledges;
    if AcknowledgedBefore(run, actions, j, k) {
      var i: nat :| i < j && actions[i].ClientReceives? && Acknowledges(run[i].client, actions[i].p, k);
      InvHolds(run, actions, i);
      ReceivedWasSent(run, actions, i);
      AcknowledgedWasGiven(run[i], actions[i].p, k);
      CounterGrows(run, actions, i, j);
    }
  }

  lemma OpenNext(s: System, a: Action, w: Packet)
    requires Inv(s) && Enabled(s, a) && Next(s, a).client.current < ID_SPACE && w in Next(s, a).client.fired && IsOpenable(w)
    ensures if w in s.client.fired then
        w.msgId in Next(s, a).client.table <==>
          w.msgId in s.client.table && !(a.ClientReceives? && Acknowledges(s.client, a.p, w.msgId))
      else
        && w.msgId in Next(s, a).client.table && s.client.current < w.msgId
        && !(a.ClientReceives? && Acknowledges(s.client, a.p, w.msgId))
  {
    if w in s.client.fired {
      FiredIsNotParked(s, w);
      OpenStep(s, a, w.msgId);
    } else {
      NewIsStored(s, a, w);
      if a.ClientReceives? && Acknowledges(s.client, a.p, w.msgId) {
        AcknowledgedWasGiven(s, a.p, w.msgId);
      }
    }
    hide Next, Inv, Acknowledges, Parked, IsOpenable;
  }

  lemma StepAt(run: seq<System>, actions: seq<Action>, j: nat)
    requires IsRun(run, actions) && WithinIdSpace(run) && 0 < j <= |actions|
    ensures Inv(run[j - 1]) && Enabled(run[j - 1], actions[j - 1]) && run[j] == Next(run[j - 1], actions[j - 1])
    ensures run[j].client.current < ID_SPACE
  {
    hide Inv, Next, Enabled;
    InvHolds(run, actions, j - 1);
    CounterGrows(run, actions, j, |run| - 1);
  }

  /** A request that has been sent waits under its id until the first acknowledgement of
      that id that the client handles. */
  lemma {:induction false} OpenUntilAcknowledged(run: seq<System>, actions: seq<Action>, j: nat, w: Packet)
    requires IsRun(run, actions) && WithinIdSpace(run) && j <= |actions| && w in run[j].client.fired && IsOpenable(w)
    ensures w.msgId in run[j].client.table <==> !AcknowledgedBefore(run, actions, j, w.msgId)
    decreases j
  {
    if j == 0 {
    } else {
      StepAt(run, actions, j);
      assert |run| == |actions| + 1;
      hide *;
      AcknowledgedNext(run, actions, j, w.msgId);
      OpenNext(run[j - 1], actions[j - 1], w);
      if w in run[j - 1].client.fired {
        OpenUntilAcknowledged(run, actions, j - 1, w);
      } else {
        NotAcknowledged(run, actions, j - 1, w.msgId);
      }
    }
  }

  // ---- Which topic ids are known ----

  /** Handling `p` in state `c` makes known that `name` has the id `t`. */
  predicate Teaches(c: Client, p: Packet, name: string, t: int) {
    && c.mapsMade && Sound(c, p)
    && match p
       case Register(u, _, x) => u == t && x == name
       case Regack(u, id, ok) => ok && Awaits(c, id) && u == t && c.table[id - 1].pub.name == name
       case Suback(u, id, ok) => ok && u !in c.nameOf && id in c.table && u == t && c.table[id].packet.name == name
       case _ => false
  }

  predicate Reconnects(a: Action) {
    a.ClientReceives? && a.p.Connack? && a.p.accepted
  }

  predicate TeachesAt(s: System, a: Action, name: string, t: int) {
    a.ClientReceives? && Teaches(s.client, a.p, name, t)
  }

  /** An accepting CONNACK was handled in one of the first `j` steps. */
  ghost predicate ConnectedBefore(actions: seq<Action>, j: nat)
    requires j <= |actions|
  {
    exists i: nat :: i < j && Reconnects(actions[i])
  }

  ghost predicate NoneSince(actions: seq<Action>, i: nat, j: nat)
    requires j <= |actions|
  {
    forall m :: i < m < j ==> !Reconnects(actions[m])
  }

  /** The id was taught, and no accepting CONNACK has come since. */
  ghost predicate TaughtBefore(run: seq<System>, actions: seq<Action>, j: nat, name: string, t: int)
    requires j <= |actions| && |run| == |actions| + 1
  {
    exists i: nat :: i < j && TeachesAt(run[i], actions[i], name, t) && NoneSince(actions, i, j)
  }

  lemma TaughtNext(run: seq<System>, actions: seq<Action>, j: nat, name: string, t: int)
    requires 0 < j <= |actions| && |run| == |actions| + 1
    ensures TaughtBefore(run, actions, j, name, t) <==>
      || TeachesAt(run[j - 1], actions[j - 1], name, t)
      || (!Reconnects(actions[j - 1]) && TaughtBefore(run, actions, j - 1, name, t))
  {
    hide TeachesAt, Reconnects;
    if TeachesAt(run[j - 1], actions[j - 1], name, t) {
      assert NoneSince(actions, j - 1, j);
    } else if !Reconnects(actions[j - 1]) && TaughtBefore(run, actions, j - 1, name, t) {
      var i: nat :| i < j - 1 && TeachesAt(run[i], actions[i], name, t) && NoneSince(actions, i, j - 1);
      assert NoneSince(actions, i, j);
    }
    if TaughtBefore(run, actions, j, name, t) && !TeachesAt(run[j - 1], actions[j - 1], name, t) {
      var i: nat :| i < j && TeachesAt(run[i], actions[i], name, t) && NoneSince(actions, i, j);
      assert i < j - 1 && NoneSince(actions, i, j - 1);
    }
  }

  predicate Has(m: map<string, int>, name: string, t: int) {
    name in m && m[name] == t
  }

  /** What `p` teaches, if it teaches anything. */
  lemma ReceiveLearns(c: Client, p: Packet, name: string, t: int)
    requires p.Regack? ==> ParkedKey(p.msgId) == p.msgId - 1
    ensures var d := Receive(c, p);
      if p.Connack? && p.accepted then d.idOf == map[] && d.mapsMade
      else
        && d.mapsMade == c.mapsMade
        && (Teaches(c, p, name, t) ==> Has(d.idOf, name, t))
        && (Has(d.idOf, name, t) ==> Teaches(c, p, name, t) || Has(c.idOf, name, t))
        && (name in c.idOf ==> name in d.idOf)
  {
    if p.Regack? && Sound(c, p) && Awaits(c, p.msgId) && p.accepted {
      var m := c.table[p.msgId - 1].pub;
      PublishLearnsNothing(Learn(c, m.name, p.topicId), m.(topicId := p.topicId));
      hide SendPublish;
    }
    hide AddMessage, Wire;
  }

  lemma PublishLearnsNothing(c: Client, m: Outgoing)
    ensures SendPublish(c, m).idOf == c.idOf && SendPublish(c, m).mapsMade == c.mapsMade
  {
  }

  lemma RequestLearnsNothing(s: System, a: Action)
    requires Enabled(s, a) && !a.ClientReceives?
    ensures Next(s, a).client.idOf == s.client.idOf && Next(s, a).client.mapsMade == s.client.mapsMade
  {
    if a.UserMessage? {
      MessageLearnsNothing(s.client, a);
      hide SendMessage;
    } else if !IsRequest(a) {
      GatewayRecordsNothing(s, a);
      hide Next;
    } else {
      hide SendMessage;
    }
  }

  lemma MessageLearnsNothing(c: Client, a: Action)
    requires a.UserMessage?
    ensures var d := SendMessage(c, a.data, a.name, a.qos, a.retain, a.dup); d.idOf == c.idOf && d.mapsMade == c.mapsMade
  {
    var p := Made(c, a).(messageId := (c.current + 1) % ID_SPACE);
    PublishLearnsNothing(c.(current := c.current + 1), p);
    hide Wire, SendPublish;
  }

  /** A name is never known by two ids, one after the other. */
  lemma KnownStays(s: System, a: Action, name: string, t: int)
    requires Enabled(s, a) && Inv(s) && Inv(Next(s, a)) && a.ClientReceives?
    requires Has(s.client.idOf, name, t) && name in Next(s, a).client.idOf
    ensures Has(Next(s, a).client.idOf, name, t)
  {
    KnownIsGranted(s, name);
    KnownIsGranted(Next(s, a), name);
    hide Inv, Receive;
  }

  lemma TopicStep(s: System, a: Action, name: string, t: int)
    requires Inv(s) && Enabled(s, a) && Next(s, a).client.current < ID_SPACE
    ensures Has(Next(s, a).client.idOf, name, t) <==>
      TeachesAt(s, a, name, t) || (!Reconnects(a) && Has(s.client.idOf, name, t))
    ensures Next(s, a).client.mapsMade <==> Reconnects(a) || s.client.mapsMade
  {
    if a.ClientReceives? {
      hide Inv, Receive, Has, Teaches;
      if a.p.Regack? { RegackFinds(s, a.p); }
      ReceiveLearns(s.client, a.p, name, t);
      TaughtIsNoConnack(s.client, a.p, name, t);
      if Has(s.client.idOf, name, t) && !Reconnects(a) {
        InvStep(s, a);
        HasMeans(s.client.idOf, name, t);
        KnownStays(s, a, name, t);
      }
    } else {
      hide Inv, Next;
      RequestLearnsNothing(s, a);
    }
  }

  lemma HasMeans(m: map<string, int>, name: string, t: int)
    ensures Has(m, name, t) <==> name in m && m[name] == t
  {
  }

  lemma TaughtIsNoConnack(c: Client, p: Packet, name: string, t: int)
    ensures Teaches(c, p, name, t) ==> !p.Connack?
    ensures !Has(map[], name, t)
  {
  }

  /** The client knows the id of a name exactly when an accepting REGACK for it, a REGISTER
      or an accepting SUBACK that brought a new id has taught it so since the last accepting
      CONNACK, before the first of which it learns nothing. */
  lemma {:induction false} TopicsOverRun(run: seq<System>, actions: seq<Action>, j: nat, name: string, t: int)
    requires IsRun(run, actions) && WithinIdSpace(run) && j <= |actions|
    ensures Has(run[j].client.idOf, name, t) <==> TaughtBefore(run, actions, j, name, t)
    ensures run[j].client.mapsMade <==> ConnectedBefore(actions, j)
    decreases j
  {
    if j == 0 {
    } else {
      StepAt(run, actions, j);
      assert |run| == |actions| + 1;
      hide *;
      TopicsOverRun(run, actions, j - 1, name, t);
      TopicStep(run[j - 1], actions[j - 1], name, t);
      TaughtNext(run, actions, j, name, t);
      ConnectedNext(actions, j);
    }
  }

  lemma ConnectedNext(actions: seq<Action>, j: nat)
    requires 0 < j <= |actions|
    ensures ConnectedBefore(actions, j) <==> Reconnects(actions[j - 1]) || ConnectedBefore(actions, j - 1)
  {
    hide Reconnects;
  }

  // ---- What waits under key 0 ----

  lemma ReceiveKeepsZero(c: Client, p: Packet)
    requires 0 in c.table ==> c.table[0].Other?
    requires p.Regack? ==> Sound(c, p) && ParkedKey(p.msgId) == p.msgId - 1 && p.msgId != 0 && Receive(c, p).current < ID_SPACE
    requires Sound(c, p) && (p.Puback? || p.Pubcomp? || p.Suback? || p.Unsuback?) ==> p.msgId > 0
    requires p.Pubcomp? && Sound(c, p) ==> c.table[p.msgId].pub.messageId == p.msgId
    requires p.Unsuback? && Sound(c, p) ==> c.table[p.msgId].packet.msgId == p.msgId
    ensures 0 in Receive(c, p).table <==> 0 in c.table && !p.Connack?
  {
    hide Wire;
    if p.Regack? {
      RegackKeepsZero(c, p);
      hide OnRegack;
    }
  }

  lemma RegackKeepsZero(c: Client, p: Packet)
    requires p.Regack? && Sound(c, p) && ParkedKey(p.msgId) == p.msgId - 1 && p.msgId != 0
    requires 0 in c.table ==> c.table[0].Other?
    requires OnRegack(c, p.topicId, p.msgId, p.accepted).current < ID_SPACE
    ensures 0 in OnRegack(c, p.topicId, p.msgId, p.accepted).table <==> 0 in c.table
  {
    hide Wire;
  }

  /** No acknowledgement reaches key 0. */
  lemma ZeroIsKept(s: System, p: Packet)
    requires Inv(s) && p in s.toClient && Receive(s.client, p).current < ID_SPACE
    ensures 0 in Receive(s.client, p).table <==> 0 in s.client.table && !p.Connack?
  {
    hide InvBut, Receive, Inv, Sound;
    ZeroIsOther(s);
    if p.Regack? {
      RegackFinds(s, p);
      RegackIsNotZero(s, p);
    } else if Sound(s.client, p) {
      AckIds(s, p);
      if p.Puback? || p.Pubcomp? || p.Suback? || p.Unsuback? { ZeroNeedsNoAck(s, p); }
    }
    ReceiveKeepsZero(s.client, p);
  }

  lemma RegackIsNotZero(s: System, p: Packet)
    requires Inv(s) && p in s.toClient && p.Regack?
    ensures p.msgId > 0
  {
    hide DoneInv, MapsInv, TableInv, Somewhere;
    assert SentOk(s, p);
    var name :| Register(NO_TOPIC_ID, p.msgId, name) in s.client.fired && (p.accepted ==> Granted(s, name, p.topicId));
    assert FiredOk(s, Register(NO_TOPIC_ID, p.msgId, name));
  }

  lemma ZeroNeedsNoAck(s: System, p: Packet)
    requires Inv(s) && p in s.toClient && Sound(s.client, p)
    requires p.Puback? || p.Pubcomp? || p.Suback? || p.Unsuback?
    ensures p.msgId > 0
  {
    hide Inv, InvBut, Sound;
    AcknowledgedWasGiven(s, p, p.msgId);
  }

  /** CONNECT, and each REGISTER that takes its place, waits until the next CONNACK. */
  lemma ZeroWaits(run: seq<System>, actions: seq<Action>, i: nat)
    requires IsRun(run, actions) && WithinIdSpace(run) && i < |actions|
    ensures 0 in run[i + 1].client.table <==>
      || (actions[i].UserMessage? && actions[i].name !in run[i].client.idOf)
      || (0 in run[i].client.table && !(actions[i].ClientReceives? && actions[i].p.Connack?))
  {
    StepAt(run, actions, i + 1);
    var s, a := run[i], actions[i];
    hide IsRun, WithinIdSpace, Inv, InvBut;
    if a.ClientReceives? {
      ZeroIsKept(s, a.p);
      hide Receive;
    } else if IsRequest(a) {
      IdsArePositive(s);
      RequestKeepsZero(s.client, a);
      if a.UserMessage? { MessageCounts(s.client, a); }
      hide SendMessage, SendSubscribe, SendUnsubscribe;
    } else {
      GatewayRecordsNothing(s, a);
      hide Next;
    }
  }

  lemma RequestKeepsZero(c: Client, a: Action)
    requires IsRequest(a) && forall x :: x in c.idOf ==> c.idOf[x] > 0
    ensures match a
      case UserMessage(data, name, qos, retain, dup) => c.current + 2 < ID_SPACE ==>
        (0 in SendMessage(c, data, name, qos, retain, dup).table <==> 0 in c.table || name !in c.idOf)
      case UserSubscribe(name, qos) => c.current + 1 < ID_SPACE ==>
        (0 in SendSubscribe(c, name, qos).table <==> 0 in c.table)
      case UserUnsubscribe(name) => c.current + 1 < ID_SPACE ==>
        (0 in SendUnsubscribe(c, name).table <==> 0 in c.table)
      case _ => true
  {
    if a.UserMessage? && c.current + 2 < ID_SPACE {
      MessageIs(c, a);
      hide SendMessage, Wire;
    }
  }
}
