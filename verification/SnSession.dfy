/**
 The MQTT-SN client: topic registration, the table of unacknowledged messages and
 the two topic maps.

 A message for a topic without an id is parked under id n while REGISTER n+1 asks
 for one; the REGACK finds it again, and the very same packet object is renumbered
 and published.  `Client` is the client's state as a value; the class `SnClient`
 keeps it in fields and in `SnPublish` objects that it changes in place.
 */
module SnSession {

  const ID_SPACE := 65536
  const NO_TOPIC_ID := 0
  const AT_MOST_ONCE := 0
  const AT_LEAST_ONCE := 1
  const EXACTLY_ONCE := 2

  datatype Packet =
    | Connect
    | Connack(accepted: bool)
    | Register(topicId: int, msgId: int, name: string)
    | Regack(topicId: int, msgId: int, accepted: bool)
    | Publish(msgId: int, topicId: int, data: string, qos: int, retain: bool, dup: bool)
    | Puback(topicId: int, msgId: int, accepted: bool)
    | Pubrec(msgId: int)
    | Pubrel(msgId: int)
    | Pubcomp(msgId: int)
    | Subscribe(msgId: int, byId: bool, topicId: int, name: string, qos: int)
    | Suback(topicId: int, msgId: int, accepted: bool)
    | Unsubscribe(msgId: int, byId: bool, topicId: int, name: string)
    | Unsuback(msgId: int)
    | Pingresp

  /** An outgoing publish.  `origin` is history: the number of the submission. */
  datatype Outgoing = Outgoing(
    origin: int, messageId: int, topicId: int, name: string, data: string, qos: int, retain: bool, dup: bool)

  datatype Stored = Parcel(pub: Outgoing) | Other(packet: Packet)

  /** `dropped` is history: the messages given up when a REGISTER was refused.
      `faulted` says that the handler has left defined behaviour: a NULL pointer or
      an uninitialised one was followed, or a packet was cast to a kind it is not.
      Until `mapsMade` both topic maps are NULL pointers, into which nothing is inserted. */
  datatype Client = Client(
    current: nat,
    table: map<int, Stored>,
    idOf: map<string, int>,
    nameOf: map<int, string>,
    mapsMade: bool,
    fired: seq<Packet>,
    saved: seq<Outgoing>,
    dropped: seq<Outgoing>,
    delivered: seq<Packet>,
    faulted: bool)

  function Wire(p: Outgoing): Packet {
    Publish(p.messageId, p.topicId, p.data, p.qos, p.retain, p.dup)
  }

  function Fire(c: Client, p: Packet): Client {
    c.(fired := c.fired + [p])
  }

  /** `sn_add_message_in_map`; a REGISTER has no case there and lands under 0. */
  function AddMessage(c: Client, m: Stored): Client {
    var key := match m
      case Parcel(p) => p.messageId
      case Other(Subscribe(id, _, _, _, _)) => id
      case Other(Unsubscribe(id, _, _, _)) => id
      case Other(_) => 0;
    c.(table := c.table[key := m])
  }

  function Connected(): Client {
    AddMessage(Fire(Client(0, map[], map[], map[], false, [], [], [], [], false), Connect), Other(Connect))
  }

  function TopicId(c: Client, name: string): int {
    if name in c.idOf then c.idOf[name] else NO_TOPIC_ID
  }

  function SendRegister(c: Client, name: string): Client {
    var p := Register(NO_TOPIC_ID, (c.current + 1) % ID_SPACE, name);
    Fire(AddMessage(c.(current := c.current + 1), Other(p)), p)
  }

  function SendPublish(c: Client, p: Outgoing): Client {
    var q := p.(messageId := (c.current + 1) % ID_SPACE);
    var d := Fire(c.(current := c.current + 1), Wire(q));
    if p.qos == AT_MOST_ONCE then d.(saved := d.saved + [q]) else AddMessage(d, Parcel(q))
  }

  function SendMessage(c: Client, data: string, name: string, qos: int, retain: bool, dup: bool): Client {
    var n := c.current + 1;
    var p := Outgoing(n, n % ID_SPACE, TopicId(c, name), name, data, qos, retain, dup);
    var d := c.(current := n);
    if p.topicId == NO_TOPIC_ID then SendRegister(AddMessage(d, Parcel(p)), name) else SendPublish(d, p)
  }

  function SendSubscribe(c: Client, name: string, qos: int): Client {
    var t := TopicId(c, name);
    var p := Subscribe((c.current + 1) % ID_SPACE, t != NO_TOPIC_ID, t, name, qos);
    Fire(AddMessage(c.(current := c.current + 1), Other(p)), p)
  }

  function SendUnsubscribe(c: Client, name: string): Client {
    var t := TopicId(c, name);
    var p := Unsubscribe((c.current + 1) % ID_SPACE, t != NO_TOPIC_ID, t, name);
    Fire(AddMessage(c.(current := c.current + 1), Other(p)), p)
  }

  function Learn(c: Client, name: string, topicId: int): Client {
    if c.mapsMade then c.(idOf := c.idOf[name := topicId], nameOf := c.nameOf[topicId := name]) else c
  }

  /** The key under which the message parked for a REGISTER was stored. */
  function ParkedKey(msgId: int): int {
    (msgId - 1) % ID_SPACE
  }

  /** What handling `p` in state `c` follows is a pointer to the kind expected.  The
      handlers of PUBCOMP and UNSUBACK test the wrong pointer for NULL.  An incoming
      publish needs data, which the decoder else leaves unset, and a topic name, as does
      an unsubscription by topic id: both are compared or copied without a test. */
  predicate Sound(c: Client, p: Packet) {
    match p
    case Publish(_, t, data, _, _, _) => t in c.nameOf && data != ""
    case Regack(_, id, _) => ParkedKey(id) in c.table ==> c.table[ParkedKey(id)].Parcel?
    case Puback(_, id, _) => id in c.table ==> c.table[id].Parcel?
    case Pubcomp(id) => id in c.table && c.table[id].Parcel?
    case Suback(t, id, accepted) =>
      id in c.table ==>
        && c.table[id].Other? && c.table[id].packet.Subscribe?
        && (accepted && t !in c.nameOf ==> !c.table[id].packet.byId)
    case Unsuback(id) =>
      && id in c.table && c.table[id].Other? && c.table[id].packet.Unsubscribe?
      && (c.table[id].packet.byId ==> c.table[id].packet.topicId in c.nameOf)
    case _ => true
  }

  function OnRegack(c: Client, topicId: int, msgId: int, accepted: bool): Client
    requires Sound(c, Regack(topicId, msgId, accepted))
  {
    var key := ParkedKey(msgId);
    if key !in c.table then c
    else
      var p := c.table[key].pub;
      var d := if accepted then SendPublish(Learn(c, p.name, topicId), p.(topicId := topicId))
               else c.(dropped := c.dropped + [p]);
      d.(table := d.table - {key} - {msgId})
  }

  function Retire(c: Client, id: int): Client
    requires id in c.table && c.table[id].Parcel?
  {
    var p := c.table[id].pub;
    c.(saved := c.saved + [p])
  }

  /** `process_sn_rx` on one decoded packet.  The return code of a PUBACK is not looked at. */
  function Receive(c: Client, p: Packet): Client {
    if !Sound(c, p) then c.(faulted := true)
    else match p
      case Connack(accepted) =>
        var d := c.(table := c.table - {0});
        if accepted then d.(idOf := map[], nameOf := map[], mapsMade := true) else d
      case Register(t, id, name) => Fire(Learn(c, name, t), Regack(t, id, true))
      case Regack(t, id, accepted) => OnRegack(c, t, id, accepted)
      case Publish(id, t, _, qos, _, _) =>
        var d := c.(delivered := c.delivered + [p]);
        if qos == AT_LEAST_ONCE then Fire(d, Puback(t, id, true))
        else if qos == EXACTLY_ONCE then Fire(d, Pubrec(id))
        else d
      case Puback(_, id, _) => if id !in c.table then c else Retire(c, id).(table := c.table - {id})
      case Pubrec(id) => Fire(c, Pubrel(id))
      case Pubrel(id) => Fire(c, Pubcomp(id))
      case Pubcomp(id) => Retire(c, id).(table := c.table - {c.table[id].pub.messageId})
      case Suback(t, id, accepted) =>
        if id !in c.table then c
        else
          var d := if accepted && t !in c.nameOf then Learn(c, c.table[id].packet.name, t) else c;
          d.(table := d.table - {id})
      case Unsuback(id) => c.(table := c.table - {c.table[id].packet.msgId})
      case _ => c
  }

  class SnPublish {
    var messageId: int
    var topicId: int
    const value: string
    const data: string
    const qos: int
    const retain: bool
    const dup: bool
    ghost const origin: int

    constructor (origin: int, messageId: int, topicId: int, value: string, data: string, qos: int, retain: bool, dup: bool)
      ensures View() == Outgoing(origin, messageId, topicId, value, data, qos, retain, dup)
    {
      this.messageId, this.topicId, this.value, this.data := messageId, topicId, value, data;
      this.qos, this.retain, this.dup, this.origin := qos, retain, dup, origin;
    }

    ghost function View(): Outgoing
      reads this
    {
      Outgoing(origin, messageId, topicId, value, data, qos, retain, dup)
    }
  }

  datatype SnMessage = PublishMessage(pub: SnPublish) | OtherMessage(packet: Packet)

  class SnClient {
    var current: nat
    var messagesMap: map<int, SnMessage>
    var topicNameMap: map<string, int>
    var reverseTopicNameMap: map<int, string>
    var mapsMade: bool
    var fired: seq<Packet>
    var delivered: seq<Packet>
    ghost var saved: seq<Outgoing>      // what save_message was given
    ghost var dropped: seq<Outgoing>
    ghost var table: map<int, Stored>   // messagesMap, read through its packet objects

    ghost function Packets(): set<SnPublish>
      reads this
    {
      set k | k in messagesMap && messagesMap[k].PublishMessage? :: messagesMap[k].pub
    }

    /** No packet object is stored under two keys, and `table` is what is stored. */
    ghost predicate Valid()
      reads this, Packets()
    {
      ValidBut({})
    }

    /** As `Valid`, but the packets under the keys in `stale` may have changed since. */
    ghost predicate ValidBut(stale: set<int>)
      reads this, Packets()
    {
      && table.Keys == messagesMap.Keys
      && (forall k, l :: k in messagesMap && l in messagesMap && k !in stale && l !in stale ==>
            messagesMap[k].PublishMessage? && messagesMap[k] == messagesMap[l] ==> k == l)
      && (forall k :: k in messagesMap && k !in stale ==> Reads(messagesMap[k], table[k]))
    }

    ghost predicate Reads(m: SnMessage, s: Stored)
      reads match m case PublishMessage(p) => {p} case OtherMessage(_) => {}
    {
      match m
      case PublishMessage(p) => s == Parcel(p.View())
      case OtherMessage(p) => s == Other(p)
    }

    ghost function State(): Client
      reads this
    {
      Client(current, table, topicNameMap, reverseTopicNameMap, mapsMade, fired, saved, dropped, delivered, false)
    }

    constructor SendConnect()
      ensures Valid() && State() == Connected()
    {
      current, messagesMap := 0, map[0 := OtherMessage(Connect)];
      topicNameMap, reverseTopicNameMap, mapsMade := map[], map[], false;
      fired, saved, dropped, delivered := [Connect], [], [], [];
      table := map[0 := Other(Connect)];
    }

    method EncodeAndFire(p: Packet)
      modifies this`fired
      ensures fired == old(fired) + [p]
    {
      fired := fired + [p];
    }

    method AddOtherInMap(p: Packet)
      requires Valid()
      modifies this`messagesMap, this`table
      ensures Valid() && State() == AddMessage(old(State()), Other(p))
      ensures Packets() <= old(Packets())
    {
      var packetId := 0;
      match p {
        case Subscribe(id, _, _, _, _) => packetId := id;
        case Unsubscribe(id, _, _, _) => packetId := id;
        case _ =>
      }
      messagesMap := messagesMap[packetId := OtherMessage(p)];
      table := table[packetId := Other(p)];
    }

    method AddPublishInMap(p: SnPublish, ghost stale: set<int>)
      requires ValidBut(stale) && forall k :: k in messagesMap && k !in stale ==> messagesMap[k] != PublishMessage(p)
      modifies this`messagesMap, this`table
      ensures ValidBut(stale) && State() == AddMessage(old(State()), Parcel(p.View()))
    {
      messagesMap := messagesMap[p.messageId := PublishMessage(p)];
      table := table[p.messageId := Parcel(p.View())];
    }

    method RemoveMessageFromMap(id: int, ghost stale: set<int>)
      requires ValidBut(stale)
      modifies this`messagesMap, this`table
      ensures ValidBut(stale - {id}) && State() == old(State()).(table := old(table) - {id})
    {
      messagesMap := map k | k in messagesMap && k != id :: messagesMap[k];
      table := table - {id};
    }

    /** `sn_add_topic_id_in_map` and `sn_add_topic_name_in_map`. */
    method AddTopicInMaps(name: string, topicId: int)
      requires Valid()
      modifies this`topicNameMap, this`reverseTopicNameMap
      ensures Valid() && State() == Learn(old(State()), name, topicId)
    {
      if mapsMade {
        topicNameMap := topicNameMap[name := topicId];
        reverseTopicNameMap := reverseTopicNameMap[topicId := name];
      }
    }

    method SendSnRegister(name: string)
      requires Valid()
      modifies this`current, this`messagesMap, this`table, this`fired
      ensures Valid() && State() == SendRegister(old(State()), name)
    {
      current := current + 1;
      var p := Register(NO_TOPIC_ID, current % ID_SPACE, name);
      AddOtherInMap(p);
      EncodeAndFire(p);
    }

    /** `send_sn_publish` renumbers its packet object, which may be stored under a key
        in `stale` at the time. */
    method SendSnPublish(p: SnPublish, ghost stale: set<int>)
      requires ValidBut(stale) && forall k :: k in messagesMap && k !in stale ==> messagesMap[k] != PublishMessage(p)
      modifies this`current, this`fired, this`messagesMap, this`table, this`saved, p
      ensures ValidBut(stale) && State() == SendPublish(old(State()), old(p.View()))
    {
      current := current + 1;
      p.messageId := current % ID_SPACE;
      EncodeAndFire(Publish(p.messageId, p.topicId, p.data, p.qos, p.retain, p.dup));
      if p.qos == AT_MOST_ONCE {
        saved := saved + [p.View()];
      } else {
        AddPublishInMap(p, stale);
      }
    }

    method SendSnMessage(data: string, name: string, qos: int, retain: bool, dup: bool)
      requires Valid()
      modifies this
      ensures Valid() && State() == SendMessage(old(State()), data, name, qos, retain, dup)
    {
      var topicId := if name in topicNameMap then topicNameMap[name] else NO_TOPIC_ID;
      current := current + 1;
      var p := new SnPublish(current, current % ID_SPACE, topicId, name, data, qos, retain, dup);
      if topicId == NO_TOPIC_ID {
        AddPublishInMap(p, {});
        SendSnRegister(name);
      } else {
        SendSnPublish(p, {});
      }
    }

    method SendSnSubscribe(name: string, qos: int)
      requires Valid()
      modifies this
      ensures Valid() && State() == SendSubscribe(old(State()), name, qos)
    {
      var topicId := if name in topicNameMap then topicNameMap[name] else NO_TOPIC_ID;
      current := current + 1;
      var p := Subscribe(current % ID_SPACE, topicId != NO_TOPIC_ID, topicId, name, qos);
      AddOtherInMap(p);
      EncodeAndFire(p);
    }

    method SendSnUnsubscribe(name: string)
      requires Valid()
      modifies this
      ensures Valid() && State() == SendUnsubscribe(old(State()), name)
    {
      var topicId := if name in topicNameMap then topicNameMap[name] else NO_TOPIC_ID;
      current := current + 1;
      var p := Unsubscribe(current % ID_SPACE, topicId != NO_TOPIC_ID, topicId, name);
      AddOtherInMap(p);
      EncodeAndFire(p);
    }

    method HandleRegack(topicId: int, msgId: int, accepted: bool)
      requires Valid() && Sound(State(), Regack(topicId, msgId, accepted))
      modifies this, Packets()
      ensures Valid() && State() == OnRegack(old(State()), topicId, msgId, accepted)
    {
      var key := ParkedKey(msgId);
      if key in messagesMap {
        var p := messagesMap[key].pub;
        if accepted {
          AddTopicInMaps(p.value, topicId);
          p.topicId := topicId;
          SendSnPublish(p, {key});
        } else {
          dropped := dropped + [p.View()];
        }
        RemoveMessageFromMap(key, {key});
        RemoveMessageFromMap(msgId, {});
      }
    }

    method SavePublish(p: SnPublish)
      modifies this`saved
      ensures saved == old(saved) + [p.View()]
    {
      saved := saved + [p.View()];
    }

    method HandlePublish(p: Packet)
      requires Valid() && p.Publish? && Sound(State(), p)
      modifies this`delivered, this`fired
      ensures Valid() && State() == Receive(old(State()), p)
    {
      delivered := delivered + [p];
      if p.qos == AT_LEAST_ONCE {
        EncodeAndFire(Puback(p.topicId, p.msgId, true));
      } else if p.qos == EXACTLY_ONCE {
        EncodeAndFire(Pubrec(p.msgId));
      }
    }

    method HandlePuback(p: Packet)
      requires Valid() && p.Puback? && Sound(State(), p)
      modifies this`saved, this`messagesMap, this`table
      ensures Valid() && State() == Receive(old(State()), p)
    {
      if p.msgId in messagesMap {
        SavePublish(messagesMap[p.msgId].pub);
        RemoveMessageFromMap(p.msgId, {});
      }
    }

    method HandlePubcomp(p: Packet)
      requires Valid() && p.Pubcomp? && Sound(State(), p)
      modifies this`saved, this`messagesMap, this`table
      ensures Valid() && State() == Receive(old(State()), p)
    {
      var publish := messagesMap[p.msgId].pub;
      SavePublish(publish);
      RemoveMessageFromMap(publish.messageId, {});
    }

    method HandleSuback(p: Packet)
      requires Valid() && p.Suback? && Sound(State(), p)
      modifies this`topicNameMap, this`reverseTopicNameMap, this`messagesMap, this`table
      ensures Valid() && State() == Receive(old(State()), p)
    {
      if p.msgId in messagesMap {
        if p.accepted && p.topicId !in reverseTopicNameMap {
          var s := messagesMap[p.msgId].packet;
          AddTopicInMaps(s.name, p.topicId);
        }
        RemoveMessageFromMap(p.msgId, {});
      }
    }

    method HandleConnack(accepted: bool)
      requires Valid()
      modifies this`topicNameMap, this`reverseTopicNameMap, this`mapsMade, this`messagesMap, this`table
      ensures Valid() && State() == Receive(old(State()), Connack(accepted))
    {
      RemoveMessageFromMap(0, {});
      if accepted {
        topicNameMap, reverseTopicNameMap, mapsMade := map[], map[], true;
      }
    }

    method ProcessRx(p: Packet)
      requires Valid() && Sound(State(), p)
      modifies this, Packets()
      ensures Valid() && State() == Receive(old(State()), p)
    {
      match p {
        case Connack(accepted) => HandleConnack(accepted);
        case Register(topicId, msgId, name) =>
          AddTopicInMaps(name, topicId);
          EncodeAndFire(Regack(topicId, msgId, true));
        case Regack(topicId, msgId, accepted) => HandleRegack(topicId, msgId, accepted);
        case Publish(_, _, _, _, _, _) => HandlePublish(p);
        case Puback(_, _, _) => HandlePuback(p);
        case Pubrec(msgId) => EncodeAndFire(Pubrel(msgId));
        case Pubrel(msgId) => EncodeAndFire(Pubcomp(msgId));
        case Pubcomp(_) => HandlePubcomp(p);
        case Suback(_, _, _) => HandleSuback(p);
        case Unsuback(msgId) => RemoveMessageFromMap(messagesMap[msgId].packet.msgId, {});
        case _ =>
      }
    }
  }
}
