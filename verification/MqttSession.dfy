/**
 The MQTT client: packet ids, the table of unacknowledged packets, the
 acknowledgement handlers and the resend pass.

 `Client` is the client's state as a value and every operation is a function on
 it.  The class `MqttClient` holds the same state in fields that its methods
 update in place; each method is proved to compute the function of its name.
 */
module MqttSession {

  const ID_SPACE := 65536       // packet ids are unsigned shorts
  const RESEND_AGE := 10        // seconds
  const AT_MOST_ONCE := 0
  const AT_LEAST_ONCE := 1
  const EXACTLY_ONCE := 2

  datatype Packet =
    | Connect
    | Connack(accepted: bool)
    | Publish(id: int, content: string, topic: string, qos: int, retain: bool, dup: bool)
    | Puback(id: int)
    | Pubrec(id: int)
    | Pubrel(id: int)
    | Pubcomp(id: int)
    | Subscribe(id: int, topic: string, qos: int)
    | Suback(id: int, failure: bool)
    | Unsubscribe(id: int, topic: string)
    | Unsuback(id: int)
    | Pingreq
    | Pingresp
    | Disconnect

  datatype Entry = Entry(packet: Packet, timeStamp: int)

  /** `fired` lists what was handed to the socket, `saved` what `save_message` was
      given, `delivered` the publishes passed up to the listener, `topics` the
      subscriptions in the database.  `faulted` says that a handler has left
      defined behaviour, `exited` that the process has ended. */
  datatype Client = Client(
    current: nat,
    table: map<int, Entry>,
    fired: seq<Packet>,
    saved: seq<Packet>,
    delivered: seq<Packet>,
    topics: map<string, int>,
    faulted: bool,
    exited: bool)

  /** The key `add_message_in_map` stores a packet under. */
  function TableKey(p: Packet): int {
    match p
    case Publish(id, _, _, _, _, _) => id
    case Subscribe(id, _, _) => id
    case Unsubscribe(id, _) => id
    case _ => 0
  }

  function AddMessage(c: Client, p: Packet, now: int): Client {
    c.(table := c.table[TableKey(p) := Entry(p, now)])
  }

  function Fire(c: Client, p: Packet): Client {
    c.(fired := c.fired + [p])
  }

  /** A client that has just sent CONNECT; `send_connect` makes a new table. */
  function Connected(now: int): Client {
    AddMessage(Fire(Client(0, map[], [], [], [], map[], false, false), Connect), Connect, now)
  }

  function SendSubscribe(c: Client, topic: string, qos: int, now: int): Client {
    var p := Subscribe((c.current + 1) % ID_SPACE, topic, qos);
    Fire(AddMessage(c.(current := c.current + 1), p, now), p)
  }

  function SendUnsubscribe(c: Client, topic: string, now: int): Client {
    var p := Unsubscribe((c.current + 1) % ID_SPACE, topic);
    Fire(AddMessage(c.(current := c.current + 1), p, now), p)
  }

  function SendPublish(c: Client, content: string, topic: string, qos: int, retain: bool, dup: bool, now: int): Client {
    if qos == AT_MOST_ONCE then
      var p := Publish(0, content, topic, qos, retain, dup);
      Fire(c, p).(saved := c.saved + [p])
    else
      var p := Publish((c.current + 1) % ID_SPACE, content, topic, qos, retain, dup);
      AddMessage(Fire(c.(current := c.current + 1), p), p, now)
  }

  /** The stored packet, if any, is of the kind the handler of `p` casts it to; and an
      incoming publish has content, the pointer to which is else never set but followed. */
  predicate Sound(c: Client, p: Packet) {
    match p
    case Publish(_, content, _, _, _, _) => content != ""
    case Puback(id) => id in c.table ==> c.table[id].packet.Publish?
    case Pubcomp(id) => id in c.table ==> c.table[id].packet.Publish?
    case Suback(id, _) => id in c.table ==> c.table[id].packet.Subscribe?
    case Unsuback(id) => id in c.table ==> c.table[id].packet.Unsubscribe?
    case _ => true
  }

  /** PUBACK and PUBCOMP: save the stored publish and remove it. */
  function Retire(c: Client, id: int): Client {
    if id !in c.table then c
    else c.(saved := c.saved + [c.table[id].packet], table := c.table - {id})
  }

  /** `process_rx` on one decoded packet. */
  function Receive(c: Client, p: Packet): Client {
    if !Sound(c, p) then c.(faulted := true)
    else match p
      case Connack(_) => c.(table := c.table - {0})
      case Publish(id, _, _, qos, _, _) =>
        var d := c.(delivered := c.delivered + [p]);
        if qos == AT_LEAST_ONCE then Fire(d, Puback(id))
        else if qos == EXACTLY_ONCE then Fire(d, Pubrec(id))
        else d
      case Puback(id) => Retire(c, id)
      case Pubrec(id) => Fire(c, Pubrel(id))
      case Pubrel(id) => Fire(c, Pubcomp(id))
      case Pubcomp(id) => Retire(c, id)
      case Suback(id, failure) =>
        if id !in c.table then c
        else
          var s := c.table[id].packet;
          c.(topics := if failure then c.topics else c.topics[s.topic := s.qos], table := c.table - {id})
      case Unsuback(id) =>
        if id !in c.table then c
        else c.(topics := c.topics - {c.table[id].packet.topic}, table := c.table - {id})
      case Pingresp => c
      case _ => Fire(c, Disconnect).(exited := true)
  }

  predicate Stale(c: Client, key: int, now: int) {
    key in c.table && now - c.table[key].timeStamp > RESEND_AGE
  }

  /** `order` lists each stale key once: the order in which GLib iterates is open. */
  ghost predicate ResendOrder(c: Client, now: int, order: seq<int>) {
    && (forall i :: 0 <= i < |order| ==> Stale(c, order[i], now))
    && (forall k :: Stale(c, k, now) ==> k in order)
    && (forall i, j :: 0 <= i < j < |order| ==> order[i] != order[j])
  }

  function Resend(c: Client, order: seq<int>): Client
    requires forall i :: 0 <= i < |order| ==> order[i] in c.table
  {
    if order == [] then c
    else Fire(Resend(c, order[..|order| - 1]), c.table[order[|order| - 1]].packet)
  }

  /** A resend pass changes nothing but `fired`, and what it adds is in the table. */
  lemma {:induction false} ResendOnlyFires(c: Client, order: seq<int>)
    requires forall i :: 0 <= i < |order| ==> order[i] in c.table
    ensures Resend(c, order) == c.(fired := Resend(c, order).fired)
    ensures forall p :: p in Resend(c, order).fired <==> p in c.fired || exists k :: k in order && c.table[k].packet == p
  {
    if order == [] {
    } else {
      var init, last := order[..|order| - 1], order[|order| - 1];
      ResendOnlyFires(c, init);
      assert forall k :: k in order <==> k in init || k == last by { assert order == init + [last]; }
    }
  }

  /** What a resend pass fires, one after the other, is what is stored. */
  lemma {:induction false} ResendAppends(c: Client, order: seq<int>)
    requires forall i :: 0 <= i < |order| ==> order[i] in c.table
    ensures |Resend(c, order).fired| == |c.fired| + |order| && c.fired <= Resend(c, order).fired
    ensures forall n :: |c.fired| <= n < |Resend(c, order).fired| ==>
      Resend(c, order).fired[n] == c.table[order[n - |c.fired|]].packet
  {
    if order == [] {
    } else {
      ResendAppends(c, order[..|order| - 1]);
    }
  }

  lemma SomeKey(keys: set<int>)
    ensures keys == {} || exists k :: k in keys
  {
    if forall k :: k !in keys { assert keys == {}; }
  }

  class MqttClient {
    var currentPacketNumber: nat
    var messagesMap: map<int, Entry>
    var fired: seq<Packet>
    var saved: seq<Packet>
    var delivered: seq<Packet>
    var topics: map<string, int>
    var exited: bool

    ghost function State(): Client
      reads this
    {
      Client(currentPacketNumber, messagesMap, fired, saved, delivered, topics, false, exited)
    }

    constructor SendConnect(now: int)
      ensures State() == Connected(now)
    {
      currentPacketNumber := 0;
      fired := [Connect];
      messagesMap := map[0 := Entry(Connect, now)];
      saved, delivered, topics, exited := [], [], map[], false;
    }

    method EncodeAndFire(p: Packet)
      modifies this`fired
      ensures State() == Fire(old(State()), p)
    {
      fired := fired + [p];
    }

    method AddMessageInMap(p: Packet, now: int)
      modifies this`messagesMap
      ensures State() == AddMessage(old(State()), p, now)
    {
      var packetId := 0;
      match p {
        case Publish(id, _, _, _, _, _) => packetId := id;
        case Subscribe(id, _, _) => packetId := id;
        case Unsubscribe(id, _) => packetId := id;
        case _ =>
      }
      messagesMap := messagesMap[packetId := Entry(p, now)];
    }

    method RemoveMessageFromMap(id: int)
      modifies this`messagesMap
      ensures State() == old(State()).(table := old(State()).table - {id})
    {
      messagesMap := map k | k in messagesMap && k != id :: messagesMap[k];
    }

    method Subscribe(topic: string, qos: int, now: int)
      modifies this
      ensures State() == SendSubscribe(old(State()), topic, qos, now)
    {
      currentPacketNumber := currentPacketNumber + 1;
      var p := Packet.Subscribe(currentPacketNumber % ID_SPACE, topic, qos);
      AddMessageInMap(p, now);
      EncodeAndFire(p);
    }

    method Unsubscribe(topic: string, now: int)
      modifies this
      ensures State() == SendUnsubscribe(old(State()), topic, now)
    {
      currentPacketNumber := currentPacketNumber + 1;
      var p := Packet.Unsubscribe(currentPacketNumber % ID_SPACE, topic);
      AddMessageInMap(p, now);
      EncodeAndFire(p);
    }

    method Publish(content: string, topic: string, qos: int, retain: bool, dup: bool, now: int)
      modifies this
      ensures State() == SendPublish(old(State()), content, topic, qos, retain, dup, now)
    {
      var id := 0;
      if qos != AT_MOST_ONCE {
        currentPacketNumber := currentPacketNumber + 1;
        id := currentPacketNumber % ID_SPACE;
      }
      var p := Packet.Publish(id, content, topic, qos, retain, dup);
      EncodeAndFire(p);
      if qos == AT_MOST_ONCE {
        saved := saved + [p];
      } else {
        AddMessageInMap(p, now);
      }
    }

    method ProcessRx(p: Packet)
      requires Sound(State(), p)
      modifies this
      ensures State() == Receive(old(State()), p)
    {
      match p {
        case Connack(_) =>
          RemoveMessageFromMap(0);
        case Publish(id, _, _, qos, _, _) =>
          delivered := delivered + [p];
          if qos == AT_LEAST_ONCE {
            EncodeAndFire(Puback(id));
          } else if qos == EXACTLY_ONCE {
            EncodeAndFire(Pubrec(id));
          }
        case Puback(id) =>
          if id in messagesMap {
            saved := saved + [messagesMap[id].packet];
            RemoveMessageFromMap(id);
          }
        case Pubrec(id) =>
          EncodeAndFire(Pubrel(id));
        case Pubrel(id) =>
          EncodeAndFire(Pubcomp(id));
        case Pubcomp(id) =>
          if id in messagesMap {
            saved := saved + [messagesMap[id].packet];
            RemoveMessageFromMap(id);
          }
        case Suback(id, failure) =>
          if id in messagesMap {
            var s := messagesMap[id].packet;
            if !failure {
              topics := topics - {s.topic};
              topics := topics[s.topic := s.qos];
            }
            RemoveMessageFromMap(id);
          }
        case Unsuback(id) =>
          if id in messagesMap {
            topics := topics - {messagesMap[id].packet.topic};
            RemoveMessageFromMap(id);
          }
        case Pingresp =>
        case _ =>
          EncodeAndFire(Disconnect);
          exited := true;
      }
    }

    /** One pass of `message_resend_task`. */
    method ResendPass(now: int) returns (ghost order: seq<int>)
      modifies this`fired
      ensures ResendOrder(old(State()), now, order)
      ensures State() == Resend(old(State()), order)
    {
      ghost var before := State();
      var pending: set<int> := messagesMap.Keys;
      order := [];
      while pending != {}
        invariant forall k :: k in pending ==> k in messagesMap
        invariant forall i :: 0 <= i < |order| ==> Stale(before, order[i], now) && order[i] !in pending
        invariant forall k :: Stale(before, k, now) ==> k in order || k in pending
        invariant forall i, j :: 0 <= i < j < |order| ==> order[i] != order[j]
        invariant State() == Resend(before, order)
      {
        SomeKey(pending);
        var key :| key in pending;
        if now - messagesMap[key].timeStamp > RESEND_AGE {
          EncodeAndFire(messagesMap[key].packet);
          order := order + [key];
          assert order[..|order| - 1] + [key] == order;
        }
        pending := pending - {key};
      }
    }
  }
}
