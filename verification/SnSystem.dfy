/**
 Runs of the MQTT-SN client against a gateway over a channel that may lose,
 duplicate and reorder.

 The channel is the set of everything ever sent.  The gateway acknowledges only
 what it received and grants each name one non-zero topic id, no two names the
 same.  `submitted` (by the number of the submission) and `answered` (the REGISTER
 ids whose REGACK the client has handled) are history.
 */
module SnSystem {
  import opened SnSession

  datatype System = System(
    client: Client,
    toClient: set<Packet>,
    granted: map<string, int>,
    accepted: set<Packet>,
    refused: set<Packet>,
    submitted: map<int, Outgoing>,
    answered: set<int>)

  datatype Action =
    | UserMessage(data: string, name: string, qos: int, retain: bool, dup: bool)
    | UserSubscribe(name: string, qos: int)
    | UserUnsubscribe(name: string)
    | ClientReceives(p: Packet)
    | GatewayReceives(p: Packet)
    | GatewayRefuses(p: Packet)
    | GatewayConnects(accepted: bool)
    | GatewayGrants(name: string, topicId: int)
    | GatewayAnswersRegister(p: Packet, accepted: bool)
    | GatewayAnswersSubscribe(p: Packet, accepted: bool)
    | GatewayRegisters(name: string, msgId: int)
    | GatewayPublishes(p: Packet)

  function Init(): System {
    System(Connected(), {}, map[], {}, {}, map[], {})
  }

  ghost predicate Enabled(s: System, a: Action) {
    && !s.client.faulted
    && match a
       case ClientReceives(p) => p in s.toClient
       case GatewayReceives(p) => p in s.client.fired
       case GatewayRefuses(p) => p in s.client.fired && p.Publish?
       case GatewayGrants(name, t) => name !in s.granted && 0 < t < ID_SPACE && t !in s.granted.Values
       case GatewayAnswersRegister(p, accepted) => p in s.client.fired && p.Register? && (accepted ==> p.name in s.granted)
       case GatewayAnswersSubscribe(p, accepted) =>
         p in s.client.fired && p.Subscribe? && (accepted && !p.byId ==> p.name in s.granted)
       case GatewayRegisters(name, _) => name in s.granted
       case GatewayPublishes(p) => p.Publish?
       case _ => true
  }

  /** What the gateway does with one packet that needs no decision. */
  function Answer(s: System, p: Packet): System {
    match p
    case Publish(id, t, _, qos, _, _) =>
      if qos == AT_LEAST_ONCE then s.(accepted := s.accepted + {p}, toClient := s.toClient + {Puback(t, id, true)})
      else if qos == EXACTLY_ONCE then s.(accepted := s.accepted + {p}, toClient := s.toClient + {Pubrec(id)})
      else s
    case Pubrel(id) => s.(toClient := s.toClient + {Pubcomp(id)})
    case Pubrec(id) => s.(toClient := s.toClient + {Pubrel(id)})
    case Unsubscribe(id, _, _, _) => s.(toClient := s.toClient + {Unsuback(id)})
    case _ => s
  }

  function Next(s: System, a: Action): System
    requires Enabled(s, a)
  {
    match a
    case UserMessage(data, name, qos, retain, dup) =>
      var n := s.client.current + 1;
      s.(client := SendMessage(s.client, data, name, qos, retain, dup),
         submitted := s.submitted[n := Outgoing(n, n, TopicId(s.client, name), name, data, qos, retain, dup)])
    case UserSubscribe(name, qos) => s.(client := SendSubscribe(s.client, name, qos))
    case UserUnsubscribe(name) => s.(client := SendUnsubscribe(s.client, name))
    case ClientReceives(p) =>
      s.(client := Receive(s.client, p), answered := if p.Regack? then s.answered + {p.msgId} else s.answered)
    case GatewayReceives(p) => Answer(s, p)
    case GatewayRefuses(p) =>
      s.(refused := s.refused + {p}, toClient := s.toClient + {Puback(p.topicId, p.msgId, false)})
    case GatewayConnects(ok) => s.(toClient := s.toClient + {Connack(ok)})
    case GatewayGrants(name, t) => s.(granted := s.granted[name := t])
    case GatewayAnswersRegister(p, ok) =>
      s.(toClient := s.toClient + {Regack(if ok then s.granted[p.name] else NO_TOPIC_ID, p.msgId, ok)})
    case GatewayAnswersSubscribe(p, ok) =>
      s.(toClient := s.toClient + {Suback(if p.byId then p.topicId else if ok then s.granted[p.name] else NO_TOPIC_ID, p.msgId, ok)})
    case GatewayRegisters(name, id) => s.(toClient := s.toClient + {Register(s.granted[name], id, name)})
    case GatewayPublishes(p) => s.(toClient := s.toClient + {p})
  }

  /** `p` carries the content given with its submission. */
  ghost predicate Faithful(s: System, p: Outgoing) {
    && p.origin in s.submitted
    && var q := s.submitted[p.origin];
       p == q.(messageId := p.messageId, topicId := p.topicId)
  }

  predicate Parked(c: Client, n: int) {
    n in c.table && c.table[n].Parcel? && c.table[n].pub.origin == n && c.table[n].pub.topicId == NO_TOPIC_ID
  }

  /** Submission `n` is published, unacknowledged, and stored under `k`. */
  predicate InFlight(c: Client, n: int, k: int) {
    k in c.table && c.table[k].Parcel? && c.table[k].pub.origin == n && c.table[k].pub.topicId != NO_TOPIC_ID
  }

  predicate At(list: seq<Outgoing>, n: int, i: int) {
    0 <= i < |list| && list[i].origin == n
  }

  ghost predicate Granted(s: System, name: string, t: int) {
    name in s.granted && s.granted[name] == t
  }

  /** The entry under `k` is one that the client put there. */
  ghost predicate EntryOk(s: System, k: int, m: Stored) {
    match m
    case Other(p) =>
      if k == 0 then p.Connect? || p.Register?
      else (p.Subscribe? || p.Unsubscribe?) && p.msgId == k
    case Parcel(p) =>
      && p.messageId == k && Faithful(s, p) && 1 <= p.origin <= k
      && (if p.topicId == NO_TOPIC_ID
          then p.origin == k < s.client.current && Register(NO_TOPIC_ID, k + 1, p.name) in s.client.fired
          else p.origin < k && p.qos != AT_MOST_ONCE && Granted(s, p.name, p.topicId) && Wire(p) in s.client.fired)
  }

  ghost predicate TableInv(s: System) {
    && (forall n :: n in s.submitted ==> 1 <= n <= s.client.current && s.submitted[n].origin == n)
    && (forall k :: k in s.client.table ==> 0 <= k <= s.client.current && EntryOk(s, k, s.client.table[k]))
    && (forall k, l :: k in s.client.table && l in s.client.table && s.client.table[k].Parcel? && s.client.table[l].Parcel? ==>
          s.client.table[k].pub.origin == s.client.table[l].pub.origin ==> k == l)
    && (forall r :: r in s.answered ==> r <= s.client.current)
  }

  /** What a packet the client has sent says about the client. */
  ghost predicate FiredOk(s: System, p: Packet) {
    match p
    case Register(t, r, name) =>
      && t == NO_TOPIC_ID && 2 <= r <= s.client.current && r !in s.client.table
      && r - 1 in s.submitted && s.submitted[r - 1].name == name
      && (r - 1 in s.client.table ==> Parked(s.client, r - 1))
      && (r !in s.answered <==> r - 1 in s.client.table)
    case Publish(id, t, data, qos, retain, dup) =>
      && 1 <= id <= s.client.current
      && (id in s.client.table ==> s.client.table[id].Parcel? && Wire(s.client.table[id].pub) == p)
      && exists n :: n in s.submitted && Carries(s, p, s.submitted[n])
    case Subscribe(id, byId, t, _, _) =>
      && 1 <= id <= s.client.current
      && (id in s.client.table ==> s.client.table[id] == Other(p))
    case Unsubscribe(id, _, _, _) =>
      && 1 <= id <= s.client.current
      && (id in s.client.table ==> s.client.table[id] == Other(p))
    case Pubrel(id) => Pubrec(id) in s.toClient
    case _ => true
  }

  /** The wire packet has the content of `q` and the topic id granted for its name. */
  ghost predicate Carries(s: System, p: Packet, q: Outgoing)
    requires p.Publish?
  {
    Granted(s, q.name, p.topicId) && p.data == q.data && p.qos == q.qos && p.retain == q.retain && p.dup == q.dup
  }

  ghost predicate AcceptedAt(s: System, id: int, qos: int) {
    exists p :: p in s.accepted && p in s.client.fired && p.Publish? && p.msgId == id && p.qos == qos
  }

  ghost predicate RefusedAt(s: System, id: int) {
    exists p :: p in s.refused && p in s.client.fired && p.Publish? && p.msgId == id
  }

  /** What a packet the gateway has sent says about the client. */
  ghost predicate SentOk(s: System, p: Packet) {
    match p
    case Register(t, _, name) => Granted(s, name, t)
    case Regack(t, r, ok) => exists name :: Register(NO_TOPIC_ID, r, name) in s.client.fired && (ok ==> Granted(s, name, t))
    case Puback(_, id, ok) => if ok then AcceptedAt(s, id, AT_LEAST_ONCE) else RefusedAt(s, id)
    case Pubrec(id) => AcceptedAt(s, id, EXACTLY_ONCE)
    case Pubcomp(id) => AcceptedAt(s, id, EXACTLY_ONCE)
    case Suback(t, id, ok) =>
      exists w :: w in s.client.fired && w.Subscribe? && w.msgId == id && (ok && !w.byId ==> Granted(s, w.name, t))
    case Unsuback(id) => exists w :: w in s.client.fired && w.Unsubscribe? && w.msgId == id
    case _ => p.Connack? || p.Publish? || p.Pubrel? || p.Pingresp?
  }

  ghost predicate ChannelInv(s: System) {
    && (forall p :: p in s.client.fired ==> FiredOk(s, p))
    && (forall p :: p in s.toClient ==> SentOk(s, p))
  }

  /** The gateway has answered the publish, one way or the other. */
  predicate Decided(s: System, p: Packet) {
    p in s.accepted || p in s.refused
  }

  /** Saved and dropped messages are out of the table, once each. */
  ghost predicate DoneInv(s: System) {
    && (forall i :: 0 <= i < |s.client.saved| ==>
          var p := s.client.saved[i];
          && Faithful(s, p) && Granted(s, p.name, p.topicId) && Wire(p) in s.client.fired
          && (p.qos != AT_MOST_ONCE ==> Decided(s, Wire(p))))
    && (forall i :: 0 <= i < |s.client.dropped| ==> Faithful(s, s.client.dropped[i]))
    && (forall i, j :: 0 <= i < j < |s.client.saved| ==> s.client.saved[i].origin != s.client.saved[j].origin)
    && (forall i, j :: 0 <= i < j < |s.client.dropped| ==> s.client.dropped[i].origin != s.client.dropped[j].origin)
    && (forall i, j :: 0 <= i < |s.client.saved| && 0 <= j < |s.client.dropped| ==> s.client.saved[i].origin != s.client.dropped[j].origin)
    && (forall k, i :: k in s.client.table && s.client.table[k].Parcel? && 0 <= i < |s.client.saved| ==>
          s.client.table[k].pub.origin != s.client.saved[i].origin)
    && (forall k, i :: k in s.client.table && s.client.table[k].Parcel? && 0 <= i < |s.client.dropped| ==>
          s.client.table[k].pub.origin != s.client.dropped[i].origin)
  }

  /** No submission is lost. */
  ghost predicate Somewhere(c: Client, n: int) {
    Parked(c, n) || (exists k :: InFlight(c, n, k)) || (exists i :: At(c.saved, n, i)) || (exists i :: At(c.dropped, n, i))
  }

  predicate Injective(m: map<string, int>) {
    forall x, y :: x in m && y in m && m[x] == m[y] ==> x == y
  }

  /** The two topic maps are inverse to each other and agree with the gateway. */
  ghost predicate MapsInv(s: System) {
    && Injective(s.granted)
    && (forall x :: x in s.granted ==> 0 < s.granted[x] < ID_SPACE)
    && (forall x :: x in s.client.idOf ==>
          var t := s.client.idOf[x];
          Granted(s, x, t) && t in s.client.nameOf && s.client.nameOf[t] == x)
    && (forall t :: t in s.client.nameOf ==>
          var x := s.client.nameOf[t];
          Granted(s, x, t) && x in s.client.idOf && s.client.idOf[x] == t)
  }

  /** Submission `n` is neither stored nor done with. */
  ghost predicate Loose(c: Client, n: int) {
    && (forall k :: k in c.table && c.table[k].Parcel? ==> c.table[k].pub.origin != n)
    && (forall i :: 0 <= i < |c.saved| ==> c.saved[i].origin != n)
    && (forall i :: 0 <= i < |c.dropped| ==> c.dropped[i].origin != n)
  }

  /** The invariant, while the messages in `hand` are between two places. */
  ghost predicate InvBut(s: System, hand: set<int>) {
    && s.client.current < ID_SPACE
    && TableInv(s)
    && ChannelInv(s)
    && DoneInv(s)
    && MapsInv(s)
    && (forall n :: n in s.submitted && n !in hand ==> Somewhere(s.client, n))
    && (forall n :: n in hand ==> n in s.submitted && Loose(s.client, n))
  }

  ghost predicate Inv(s: System) {
    InvBut(s, {})
  }

  // ---- One step at a time ----

  /** Everything but the table only grows. */
  ghost predicate Grows(s: System, t: System) {
    && s.client.current <= t.client.current < ID_SPACE
    && (forall p :: p in s.client.fired ==> p in t.client.fired)
    && s.toClient <= t.toClient && s.accepted <= t.accepted && s.refused <= t.refused
    && (forall n :: n in s.submitted ==> n in t.submitted && t.submitted[n] == s.submitted[n])
    && (forall x :: x in s.granted ==> Granted(t, x, s.granted[x]))
  }

  /** No key that was given out before gets a new entry. */
  ghost predicate OldKeys(s: System, t: System) {
    forall k :: k in t.client.table && 0 < k <= s.client.current ==> k in s.client.table && t.client.table[k] == s.client.table[k]
  }

  /** REGISTERs keep their link to the parked message until they are answered. */
  ghost predicate Linked(s: System, t: System) {
    forall r, name :: Register(NO_TOPIC_ID, r, name) in s.client.fired ==> (r !in t.answered <==> r - 1 in t.client.table)
  }
}
