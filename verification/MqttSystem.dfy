/**
 Runs of the MQTT client against a broker over a channel that may lose,
 duplicate and reorder.

 The channel is the set of everything ever sent: a step may take any packet out
 of it, any number of times, or never.  The broker acknowledges only what it
 received.  `submitted` is history: what the user gave the client under each id.
 */
module MqttSystem {
  import opened MqttSession

  datatype System = System(
    client: Client,
    toClient: set<Packet>,
    accepted: set<Packet>,
    submitted: map<int, Packet>)

  datatype Action =
    | UserPublish(content: string, topic: string, qos: int, retain: bool, dup: bool, now: int)
    | UserSubscribe(topic: string, qos: int, now: int)
    | UserUnsubscribe(topic: string, now: int)
    | ResendTick(now: int, order: seq<int>)
    | ClientReceives(p: Packet)
    | BrokerReceives(p: Packet)
    | BrokerAccepts(accepted: bool)                       // CONNACK, any number of times
    | BrokerPublishes(p: Packet)
    | BrokerAnswersSubscribe(p: Packet, failure: bool)

  function Init(now: int): System {
    System(Connected(now), {}, {}, map[])
  }

  ghost predicate Enabled(s: System, a: Action) {
    && !s.client.faulted
    && !s.client.exited
    && match a
       case ResendTick(now, order) => ResendOrder(s.client, now, order)
       case ClientReceives(p) => p in s.toClient
       case BrokerReceives(p) => p in s.client.fired
       case BrokerPublishes(p) => p.Publish?
       case BrokerAnswersSubscribe(p, _) => p.Subscribe? && p in s.client.fired
       case _ => true
  }

  function Submit(s: System, c: Client, p: Packet): System {
    s.(client := c, submitted := if c.current == s.client.current then s.submitted else s.submitted[TableKey(p) := p])
  }

  /** What the broker does with one packet from the client. */
  function Answer(s: System, p: Packet): System {
    match p
    case Publish(id, _, _, qos, _, _) =>
      if qos == AT_LEAST_ONCE then s.(accepted := s.accepted + {p}, toClient := s.toClient + {Puback(id)})
      else if qos == EXACTLY_ONCE then s.(accepted := s.accepted + {p}, toClient := s.toClient + {Pubrec(id)})
      else s
    case Pubrel(id) => s.(toClient := s.toClient + {Pubcomp(id)})
    case Pubrec(id) => s.(toClient := s.toClient + {Pubrel(id)})
    case Unsubscribe(id, _) => s.(toClient := s.toClient + {Unsuback(id)})
    case Pingreq => s.(toClient := s.toClient + {Pingresp})
    case _ => s
  }

  function Next(s: System, a: Action): System
    requires Enabled(s, a)
  {
    match a
    case UserPublish(content, topic, qos, retain, dup, now) =>
      var c := SendPublish(s.client, content, topic, qos, retain, dup, now);
      Submit(s, c, Publish(c.current % ID_SPACE, content, topic, qos, retain, dup))
    case UserSubscribe(topic, qos, now) =>
      var c := SendSubscribe(s.client, topic, qos, now);
      Submit(s, c, Subscribe(c.current % ID_SPACE, topic, qos))
    case UserUnsubscribe(topic, now) =>
      var c := SendUnsubscribe(s.client, topic, now);
      Submit(s, c, Unsubscribe(c.current % ID_SPACE, topic))
    case ResendTick(_, order) => s.(client := Resend(s.client, order))
    case ClientReceives(p) => s.(client := Receive(s.client, p))
    case BrokerReceives(p) => Answer(s, p)
    case BrokerAccepts(ok) => s.(toClient := s.toClient + {Connack(ok)})
    case BrokerPublishes(p) => s.(toClient := s.toClient + {p})
    case BrokerAnswersSubscribe(p, failure) => s.(toClient := s.toClient + {Suback(p.id, failure)})
  }

  ghost predicate Owned(s: System, p: Packet) {
    TableKey(p) in s.submitted && s.submitted[TableKey(p)] == p
  }

  /** The publish submitted under `id` has QoS `qos` and the broker accepted it. */
  ghost predicate AcceptedAt(s: System, id: int, qos: int) {
    id in s.submitted && s.submitted[id].Publish? && s.submitted[id].qos == qos && s.submitted[id] in s.accepted
  }

  predicate Acknowledged(p: Packet) {
    p.Subscribe? || p.Unsubscribe? || (p.Publish? && p.qos != AT_MOST_ONCE)
  }

  ghost predicate TableInv(s: System) {
    && (forall k :: k in s.submitted <==> 1 <= k <= s.client.current)
    && (forall k :: k in s.submitted ==> Acknowledged(s.submitted[k]) && s.submitted[k].id == k)
    && (forall k :: k in s.client.table ==>
          var p := s.client.table[k].packet;
          if k == 0 then p.Connect? else Acknowledged(p) && TableKey(p) == k && Owned(s, p))
  }

  /** What the channel can hold, in either direction. */
  ghost predicate ChannelInv(s: System) {
    && (forall p :: p in s.client.fired && Acknowledged(p) ==> Owned(s, p))
    && (forall id :: Pubrel(id) in s.client.fired ==> Pubrec(id) in s.toClient)
    && (forall id :: Puback(id) in s.toClient ==> AcceptedAt(s, id, AT_LEAST_ONCE))
    && (forall id :: Pubrec(id) in s.toClient ==> AcceptedAt(s, id, EXACTLY_ONCE))
    && (forall id :: Pubcomp(id) in s.toClient ==> AcceptedAt(s, id, EXACTLY_ONCE))
    && (forall id, f :: Suback(id, f) in s.toClient ==> id in s.submitted && s.submitted[id].Subscribe?)
    && (forall id :: Unsuback(id) in s.toClient ==> id in s.submitted && s.submitted[id].Unsubscribe?)
    && (forall p :: p in s.toClient ==> !p.Connect? && !p.Subscribe? && !p.Unsubscribe? && !p.Pingreq? && !p.Disconnect?)
  }

  ghost predicate SavedInv(s: System) {
    && (forall i :: 0 <= i < |s.client.saved| ==>
          var p := s.client.saved[i];
          p.Publish? && (Acknowledged(p) ==> Owned(s, p) && p in s.accepted && p.id !in s.client.table))
    && (forall i, j :: 0 <= i < j < |s.client.saved| && Acknowledged(s.client.saved[i]) && Acknowledged(s.client.saved[j])
          ==> TableKey(s.client.saved[i]) != TableKey(s.client.saved[j]))
    && (forall k :: k in s.submitted && s.submitted[k].Publish? ==> k in s.client.table || s.submitted[k] in s.client.saved)
  }

  ghost predicate Inv(s: System) {
    && s.client.current < ID_SPACE
    && !s.client.exited
    && TableInv(s)
    && ChannelInv(s)
    && SavedInv(s)
  }

  /** The user steps, apart from a QoS 0 publish, allocate the next id for `p`. */
  ghost predicate Allocates(s: System, t: System, p: Packet) {
    && Acknowledged(p) && p.id == s.client.current + 1 < ID_SPACE
    && t.submitted == s.submitted[p.id := p]
    && t.toClient == s.toClient && t.accepted == s.accepted
    && t.client.current == s.client.current + 1
    && t.client.table.Keys == s.client.table.Keys + {p.id}
    && (forall k :: k in s.client.table && k != p.id ==> t.client.table[k] == s.client.table[k])
    && t.client.table[p.id].packet == p
    && t.client.fired == s.client.fired + [p]
    && t.client.saved == s.client.saved
    && t.client.exited == s.client.exited
  }

  /** What the broker may put on the channel. */
  ghost predicate Sendable(s: System, p: Packet) {
    match p
    case Puback(id) => AcceptedAt(s, id, AT_LEAST_ONCE)
    case Pubrec(id) => AcceptedAt(s, id, EXACTLY_ONCE)
    case Pubcomp(id) => AcceptedAt(s, id, EXACTLY_ONCE)
    case Suback(id, _) => id in s.submitted && s.submitted[id].Subscribe?
    case Unsuback(id) => id in s.submitted && s.submitted[id].Unsubscribe?
    case _ => p.Connack? || p.Publish? || p.Pubrel? || p.Pingresp?
  }
}
