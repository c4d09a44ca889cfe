/**
 From one read to the handlers: `mqtt_data_received` cuts the read into pieces, copies
 each into memory of its own and has `process_rx` decode and handle it.
 */
module MqttReceive {
  import opened Octets
  import opened Text
  import opened MqttSession
  import opened MqttSystem
  import opened MqttIds
  import MqttSteps
  import MqttRuns
  import Codec = MqttCodec
  import Framing

  /** The packet that `process_rx` takes a decoded one for, where the decoder is modelled. */
  function Arrived(m: Codec.Incoming): Option<Packet> {
    match m
    case Publishing(topic, content, qos, retain, dup, id) =>
      Some(Publish(if id.Some? then id.value else 0,
                   if content.Some? then FromOctets(content.value) else "",
                   FromOctets(topic), qos, retain, dup))
    case Acknowledging(kind, id) =>
      Some(if kind == 4 then Puback(id) else if kind == 5 then Pubrec(id) else if kind == 6 then Pubrel(id)
           else if kind == 7 then Pubcomp(id) else Unsuback(id))
    case _ => None
  }

  /** `process_rx` on each piece in turn, as it stands in its copy. */
  function Process(c: Client, copies: seq<Bytes>): Option<Client>
    decreases |copies|
  {
    if copies == [] then Some(c)
    else
      var m := Arrived(Codec.Decode(copies[0]));
      if m.None? then None else Process(Receive(c, m.value), copies[1..])
  }

  function ReceiveAll(c: Client, packets: seq<Packet>): Client
    decreases |packets|
  {
    if packets == [] then c else ReceiveAll(Receive(c, packets[0]), packets[1..])
  }

  predicate IsAck(p: Packet) {
    p.Puback? || p.Pubrec? || p.Pubrel? || p.Pubcomp?
  }

  /** What a broker sends, within the limits of the format. */
  predicate Deliverable(p: Packet) {
    || (IsAck(p) && IsShort(p.id))
    || (p.Publish?
        && IsText(p.topic) && IsText(p.content) && 0 <= p.qos <= 2 && IsShort(p.id)
        && 0 < |p.topic| < SHORT_SPACE && p.content != "" && |p.topic| + |p.content| + 4 <= Codec.MAX_LENGTH
        && (p.id != 0 <==> p.qos > 0) && (p.dup ==> p.qos > 0))
  }

  function OnWire(p: Packet): (q: Codec.Packet)
    requires Deliverable(p)
    ensures Codec.Sendable(q) && Codec.StringsFit(q)
  {
    if p.Puback? then Codec.Puback(p.id)
    else if p.Pubrec? then Codec.Pubrec(p.id)
    else if p.Pubrel? then Codec.Pubrel(p.id)
    else if p.Pubcomp? then Codec.Pubcomp(p.id)
    else Codec.Publish(ToOctets(p.topic), ToOctets(p.content), p.qos, p.retain, p.dup, p.id)
  }

  function Wire(p: Packet): Bytes
    requires Deliverable(p)
  {
    Codec.Layout(OnWire(p))
  }

  function Wires(packets: seq<Packet>): (r: seq<Bytes>)
    requires forall k :: 0 <= k < |packets| ==> Deliverable(packets[k])
    ensures |r| == |packets| && forall k :: 0 <= k < |r| ==> r[k] == Wire(packets[k])
  {
    seq(|packets|, k requires 0 <= k < |packets| => Wire(packets[k]))
  }

  /** Whatever memory stands behind it, a packet arrives as it was sent. */
  lemma PacketArrives(p: Packet, copy: Bytes)
    requires Deliverable(p) && At(copy, 0, Wire(p))
    ensures Arrived(Codec.Decode(copy)) == Some(p)
  {
    hide Codec.Layout, Codec.Decode, Codec.Sendable, IsText;
    if IsAck(p) {
      Codec.AckRoundTrip(OnWire(p), copy);
    } else {
      Codec.PublishComesBack(OnWire(p), copy);
      FromToOctets(p.topic);
      FromToOctets(p.content);
    }
  }

  ghost predicate Copies(pieces: seq<Bytes>, copies: seq<Bytes>) {
    |copies| == |pieces| && forall k :: 0 <= k < |copies| ==> At(copies[k], 0, pieces[k])
  }

  lemma {:induction false} PacketsArrive(c: Client, packets: seq<Packet>, copies: seq<Bytes>)
    requires forall k :: 0 <= k < |packets| ==> Deliverable(packets[k])
    requires Copies(Wires(packets), copies)
    ensures Process(c, copies) == Some(ReceiveAll(c, packets))
    decreases |packets|
  {
    hide Deliverable, Wire, Receive, Codec.Decode, Arrived, At;
    if packets == [] {
    } else {
      PacketArrives(packets[0], copies[0]);
      assert Wires(packets)[1..] == Wires(packets[1..]);
      PacketsArrive(Receive(c, packets[0]), packets[1..], copies[1..]);
    }
  }

  /** Packets that arrive in one read are handled as if they had come one by one, when
      each but the first has a remaining length of one octet. */
  lemma ReadIsReceived(c: Client, packets: seq<Packet>, buf: Bytes, copies: seq<Bytes>)
    requires packets != [] && forall k :: 0 <= k < |packets| ==> Deliverable(packets[k])
    requires At(buf, 0, Framing.Flat(Wires(packets)))
    requires Framing.AllOneOctet(Wires(packets)[1..])
    requires Copies(Framing.MqttReceived(buf, |Framing.Flat(Wires(packets))|, true).frames, copies)
    ensures Framing.MqttReceived(buf, |Framing.Flat(Wires(packets))|, true).end == Framing.Finished
    ensures Process(c, copies) == Some(ReceiveAll(c, packets))
  {
    hide Deliverable, Wire, Framing.Flat, Framing.MqttReceived, Framing.AllOneOctet, Copies;
    forall k | 0 <= k < |packets| ensures Framing.WholePacket(Wires(packets)[k]) {
      OctetsAreWhole(packets[k]);
    }
    Framing.PacketsAreDelivered(Wires(packets), buf);
    PacketsArrive(c, packets, copies);
  }

  lemma OctetsAreWhole(p: Packet)
    requires Deliverable(p)
    ensures Framing.WholePacket(Wire(p))
  {
    Framing.LayoutIsWhole(OnWire(p));
  }

  /** So a read of packets from the channel leads from a reachable state to another, and
      what holds in every state of every run holds after it. */
  lemma {:induction false} ReadIsSteps(s: System, packets: seq<Packet>)
    requires Reachable(s) && s.client.current < ID_SPACE && !s.client.faulted
    requires forall k :: 0 <= k < |packets| ==> packets[k] in s.toClient && Deliverable(packets[k])
    ensures Reachable(s.(client := ReceiveAll(s.client, packets)))
    decreases |packets|
  {
    hide Reachable, Receive;
    ReachableKeepsInv(s);
    if packets == [] {
      assert s.(client := s.client) == s;
    } else {
      ReceiveStep(s, packets[0]);
      ReadIsSteps(s.(client := Receive(s.client, packets[0])), packets[1..]);
    }
  }

  lemma ReachableKeepsInv(s: System)
    requires Reachable(s) && s.client.current < ID_SPACE
    ensures Inv(s)
  {
    hide Inv;
    var run, actions :| EndsIn(run, actions, s);
    MqttRuns.InvHolds(run, actions, |run| - 1);
  }

  lemma ReceiveStep(s: System, p: Packet)
    requires Reachable(s) && Inv(s) && !s.client.faulted && p in s.toClient && Deliverable(p)
    ensures var c := Receive(s.client, p);
      Reachable(s.(client := c)) && c.current == s.client.current && !c.faulted
  {
    hide Reachable;
    MqttSteps.CastsAreRight(s, p);
    hide Inv;
    ReachNext(s, ClientReceives(p));
  }
}
