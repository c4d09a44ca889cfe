/**
 A read that is cut in the wrong place: its second packet is longer than 127 octets,
 and out of that packet's content the client takes a PUBACK that nobody sent.
 */
module MqttCut {
  import opened Octets
  import opened Text
  import opened MqttSession
  import opened MqttSystem
  import opened MqttIds
  import opened MqttReceive
  import Codec = MqttCodec
  import opened Framing

  function Filling(n: nat): (r: Bytes)
    ensures |r| == n && 0 !in r
  {
    seq(n, _ => 0x78)
  }

  const PUBACK_257: Bytes := [0x40, 2, 1, 1]
  const TAIL: Bytes := [0x40, 123, 1, 2] + Filling(121)
  const FRONT: Bytes := Filling(124)
  const CONTENT: Bytes := FRONT + PUBACK_257 + TAIL

  const SHORT_PUBLISH := Plain([0x62])
  const LONG_PUBLISH := Plain(CONTENT)

  const SHORT_WIRE: Bytes := [0x30, 4, 0, 1, 0x61, 0x62]
  const HEAD: Bytes := [0x30, 0x80, 2, 0, 1, 0x61] + FRONT

  function Plain(content: Bytes): Packet {
    Publish(0, FromOctets(content), "a", AT_MOST_ONCE, false, false)
  }

  lemma PlainIsDeliverable(content: Bytes)
    requires 0 !in content && 0 < |content| < 1000
    ensures Deliverable(Plain(content))
    ensures OnWire(Plain(content)) == Codec.Publish([0x61], content, 0, false, false, 0)
  {
    ToFromOctets(content);
    assert ToOctets("a") == [0x61];
  }

  lemma BodyForm(q: Codec.Packet)
    requires q.Publish? && Codec.Sendable(q) && q == Codec.Publish([0x61], q.content, 0, false, false, 0)
    ensures Codec.Body(q) == [0, 1, 0x61] + q.content && Codec.Header(q) == 0x30
  {
    Codec.PublishBody(q);
    assert Codec.Text([0x61]) == [0, 1, 0x61];
    hide Codec.Body, Codec.Text;
    assert Codec.IdBytes(q) + q.content == q.content;
  }

  /** A QoS 0 publish under topic "a". */
  lemma PublishForm(content: Bytes)
    requires 0 !in content && 0 < |content| < 1000
    ensures Deliverable(Plain(content))
    ensures Wire(Plain(content)) == [0x30] + Codec.Digits(3 + |content|) + ([0, 1, 0x61] + content)
  {
    PlainIsDeliverable(content);
    hide Deliverable, OnWire, Plain, Codec.Sendable, Codec.Body, Codec.Header, Codec.Digits;
    BodyForm(OnWire(Plain(content)));
  }

  lemma ShortOnWire()
    ensures Deliverable(SHORT_PUBLISH) && Wire(SHORT_PUBLISH) == SHORT_WIRE
  {
    PublishForm([0x62]);
    hide Deliverable, Wire, Plain;
  }

  lemma LongOnWire()
    ensures |CONTENT| == 253 && Deliverable(LONG_PUBLISH) && Wire(LONG_PUBLISH) == HEAD + PUBACK_257 + TAIL
  {
    assert |CONTENT| == 253 && 0 !in CONTENT;
    PublishForm(CONTENT);
    hide Deliverable, Wire, Plain, TAIL, FRONT, PUBACK_257;
    assert Codec.Digits(256) == [0x80, 2];
    hide Codec.Digits;
    assert [0x30] + [0x80, 2] + ([0, 1, 0x61] + CONTENT) == HEAD + PUBACK_257 + TAIL;
  }

  lemma PieceIsCut(buf: Bytes, i: nat, piece: Bytes)
    requires At(buf, i, piece) && piece != [] && i + |piece| + 2 <= |buf|
    ensures var j := i + |piece|;
      MqttFrom(buf, |buf|, i, |piece|) == Prepend(piece, MqttFrom(buf, |buf|, j, NextLength(buf, j)))
  {
    hide NextLength;
  }

  lemma Lengths()
    ensures |HEAD| == 130 && |PUBACK_257| == 4 && |TAIL| == 125 && |SHORT_WIRE| == 6
    ensures HEAD[1] == 128 && PUBACK_257[1] == 2 && TAIL[1] == 123 && SHORT_WIRE[1] == 4
  {
  }

  const PIECES: seq<Bytes> := [SHORT_WIRE, HEAD, PUBACK_257, TAIL]

  function ReadOf(): Bytes {
    SHORT_WIRE + (HEAD + (PUBACK_257 + TAIL))
  }

  /** The pieces, where they stand. */
  lemma ReadParts()
    ensures var buf := ReadOf();
      |buf| == 265 && At(buf, 0, SHORT_WIRE) && At(buf, 6, HEAD) && At(buf, 136, PUBACK_257) && At(buf, 140, TAIL)
    ensures var buf := ReadOf(); buf[1] == 4 && buf[7] == 128 && buf[137] == 2 && buf[141] == 123
  {
    Lengths();
    hide SHORT_WIRE, HEAD, PUBACK_257, TAIL;
    var buf := ReadOf();
    AtParts(buf, 0, SHORT_WIRE, HEAD + (PUBACK_257 + TAIL));
    AtParts(buf, 6, HEAD, PUBACK_257 + TAIL);
    AtParts(buf, 136, PUBACK_257, TAIL);
    assert buf[0..6][1] == 4 && buf[6..136][1] == 128 && buf[136..140][1] == 2 && buf[140..265][1] == 123;
  }

  /** The second packet is cut into three. */
  lemma ReadIsCut()
    ensures MqttReceived(ReadOf(), |ReadOf()|, true) == Split(PIECES, Finished)
  {
    ReadParts();
    Lengths();
    hide SHORT_WIRE, HEAD, PUBACK_257, TAIL, ReadOf, At, MqttFrom;
    var buf := ReadOf();
    assert Codec.DecodeLength(buf) == Some(Codec.LengthDetails(6, 1));
    hide Codec.DecodeLength;
    PieceIsCut(buf, 0, SHORT_WIRE);
    PieceIsCut(buf, 6, HEAD);
    PieceIsCut(buf, 136, PUBACK_257);
    LastPiece(buf, 140, TAIL);
  }

  lemma LastPiece(buf: Bytes, i: nat, piece: Bytes)
    requires At(buf, i, piece) && piece != [] && i + |piece| == |buf|
    ensures MqttFrom(buf, |buf|, i, |piece|) == Split([piece], Finished)
  {
  }

  lemma ShortDecodes(mem: Bytes)
    requires At(mem, 0, SHORT_WIRE)
    ensures Arrived(Codec.Decode(mem)) == Some(SHORT_PUBLISH)
  {
    ShortOnWire();
    PacketArrives(SHORT_PUBLISH, mem);
  }

  lemma HeadOctets(mem: Bytes)
    requires At(mem, 0, HEAD)
    ensures |mem| >= 130 && mem[0] == 0x30 && mem[1] == 0x80 && mem[2] == 2
    ensures mem[3] == 0 && mem[4] == 1 && mem[5] == 0x61
  {
    Lengths();
    assert forall k :: 0 <= k < 6 ==> mem[k] == mem[..130][k] == HEAD[k];
  }

  lemma LongLengthDecodes(mem: Bytes)
    requires |mem| > 2 && mem[1] == 0x80 && mem[2] == 2
    ensures Codec.DecodeLength(mem) == Some(Codec.LengthDetails(259, 2))
  {
  }

  /** The front of the long packet, with whatever its copy holds behind it. */
  lemma HeadDecodes(mem: Bytes)
    requires At(mem, 0, HEAD) && |mem| == 8 * 130
    ensures Arrived(Codec.Decode(mem)) == Some(Publish(0, FromOctets(mem[6..259]), "a", AT_MOST_ONCE, false, false))
  {
    HeadOctets(mem);
    LongLengthDecodes(mem);
    assert mem[5..6] == [0x61] && FromOctets([0x61]) == "a";
    hide HEAD, At, FromOctets, Codec.DecodeLength, Codec.Decode;
    Codec.PublishOf(mem, 259, 2, 0, false, false);
  }

  lemma AckDecodes(mem: Bytes, ack: Bytes)
    requires |ack| >= 4 && ack[0] == 0x40 && At(mem, 0, ack)
    ensures Arrived(Codec.Decode(mem)) == Some(Puback(ShortAt(ack, 2)))
  {
    assert mem[0] == ack[0] && mem[2] == ack[2] && mem[3] == ack[3];
  }

  /** Each piece is copied to eight times its length of memory. */
  ghost predicate RoomyCopies(pieces: seq<Bytes>, copies: seq<Bytes>) {
    Copies(pieces, copies) && forall k :: 0 <= k < |copies| ==> |copies[k]| == 8 * |pieces[k]|
  }

  /** The packets that the pieces are taken for. */
  lemma PiecesDecode(copies: seq<Bytes>)
    requires RoomyCopies(PIECES, copies)
    ensures |copies| == 4
    ensures Arrived(Codec.Decode(copies[0])) == Some(SHORT_PUBLISH)
    ensures |copies[1]| == 1040
    ensures Arrived(Codec.Decode(copies[1])) == Some(Plain(copies[1][6..259]))
    ensures Arrived(Codec.Decode(copies[2])) == Some(Puback(257)) && Arrived(Codec.Decode(copies[3])) == Some(Puback(258))
  {
    Lengths();
    assert ShortAt(PUBACK_257, 2) == 257 && ShortAt(TAIL, 2) == 258 && PUBACK_257[0] == 0x40 == TAIL[0];
    hide SHORT_WIRE, HEAD, PUBACK_257, TAIL, At, Codec.Decode, Arrived;
    assert PIECES[0] == SHORT_WIRE && PIECES[1] == HEAD && PIECES[2] == PUBACK_257 && PIECES[3] == TAIL;
    ShortDecodes(copies[0]);
    HeadDecodes(copies[1]);
    AckDecodes(copies[2], PUBACK_257);
    AckDecodes(copies[3], TAIL);
  }

  lemma FourInTurn(c: Client, copies: seq<Bytes>, p: Packet, q: Packet, r: Packet, s: Packet)
    requires |copies| == 4
    requires Arrived(Codec.Decode(copies[0])) == Some(p) && Arrived(Codec.Decode(copies[1])) == Some(q)
    requires Arrived(Codec.Decode(copies[2])) == Some(r) && Arrived(Codec.Decode(copies[3])) == Some(s)
    ensures Process(c, copies) == Some(Receive(Receive(Receive(Receive(c, p), q), r), s))
  {
    hide Receive, Process;
    OneInTurn(c, copies, p);
    OneInTurn(Receive(c, p), copies[1..], q);
    OneInTurn(Receive(Receive(c, p), q), copies[1..][1..], r);
    OneInTurn(Receive(Receive(Receive(c, p), q), r), copies[1..][1..][1..], s);
    NoneInTurn(Receive(Receive(Receive(Receive(c, p), q), r), s), copies[1..][1..][1..][1..]);
  }

  lemma OneInTurn(c: Client, copies: seq<Bytes>, p: Packet)
    requires copies != [] && Arrived(Codec.Decode(copies[0])) == Some(p)
    ensures Process(c, copies) == Process(Receive(c, p), copies[1..])
  {
    hide Receive, Codec.Decode, Arrived;
  }

  lemma NoneInTurn(c: Client, copies: seq<Bytes>)
    requires |copies| == 0
    ensures Process(c, copies) == Some(c)
  {
  }

  /** The PUBACK found in the content records a publish. */
  lemma CutRecords(c: Client, copies: seq<Bytes>, w: Packet)
    requires RoomyCopies(PIECES, copies) && c.saved == []
    requires 257 in c.table && c.table[257].packet == w && w.Publish? && 258 !in c.table
    ensures Process(c, copies).Some? && Process(c, copies).value.saved == [w]
  {
    PiecesDecode(copies);
    hide Codec.Decode, Arrived, Process, RoomyCopies, FromOctets;
    FourInTurn(c, copies, SHORT_PUBLISH, Plain(copies[1][6..259]), Puback(257), Puback(258));
    assert |FromOctets([0x62])| == 1 && |FromOctets(copies[1][6..259])| == 253;
    DeliveringKeeps(c, SHORT_PUBLISH);
    var d := Receive(c, SHORT_PUBLISH);
    DeliveringKeeps(d, Plain(copies[1][6..259]));
    AcksRecord(Receive(d, Plain(copies[1][6..259])), w);
  }

  lemma DeliveringKeeps(c: Client, p: Packet)
    requires p.Publish? && p.qos == AT_MOST_ONCE && |p.content| > 0
    ensures Receive(c, p) == c.(delivered := c.delivered + [p])
  {
  }

  lemma AcksRecord(c: Client, w: Packet)
    requires c.saved == [] && 257 in c.table && c.table[257].packet == w && w.Publish? && 258 !in c.table
    ensures Receive(Receive(c, Puback(257)), Puback(258)).saved == [w]
  {
  }

  /** Two publishes of a broker are on their way to a client that awaits 257 answers. */
  ghost predicate Ambushed(s: System) {
    && Reachable(s) && SHORT_PUBLISH in s.toClient && LONG_PUBLISH in s.toClient && s.accepted == {} && s.client.saved == []
    && 257 in s.client.table && s.client.table[257].packet == Sent(257, "x") && 258 !in s.client.table
  }

  lemma AmbushedIsReached()
    ensures exists s :: Ambushed(s)
  {
    hide Reachable, Plain;
    assert SHORT_PUBLISH.Publish? && LONG_PUBLISH.Publish? by { PlainsArePublishes(); }
    WaitingIsReached(257);
    var s :| Waiting(s, 257);
    ReachNext(s, BrokerPublishes(SHORT_PUBLISH));
    var t := Next(s, BrokerPublishes(SHORT_PUBLISH));
    ReachNext(t, BrokerPublishes(LONG_PUBLISH));
    assert Ambushed(Next(t, BrokerPublishes(LONG_PUBLISH)));
  }

  lemma PlainsArePublishes()
    ensures SHORT_PUBLISH.Publish? && LONG_PUBLISH.Publish?
  {
  }

  /** Whatever the copies of the pieces hold, the read makes the client record a publish
      that the broker has not accepted. */
  ghost predicate Misled(s: System, buf: Bytes) {
    && Ambushed(s)
    && forall copies :: RoomyCopies(MqttReceived(buf, |buf|, true).frames, copies) ==>
         Process(s.client, copies).Some? && Process(s.client, copies).value.saved == [Sent(257, "x")]
  }

  /** The octets of two packets from the channel, received in one read, do that: what holds
      of every run does not survive a read that is cut in the wrong place. */
  lemma CutRecordsUnaccepted()
    ensures Deliverable(SHORT_PUBLISH) && Deliverable(LONG_PUBLISH)
    ensures exists s :: Misled(s, Wire(SHORT_PUBLISH) + Wire(LONG_PUBLISH))
  {
    ShortOnWire();
    LongOnWire();
    ReadIsCut();
    AmbushedIsReached();
    var s :| Ambushed(s);
    hide Deliverable, Wire, Plain, CONTENT, SHORT_WIRE, HEAD;
    hide PUBACK_257, TAIL, PIECES, MqttReceived, RoomyCopies, Process, Reachable;
    assert HEAD + PUBACK_257 + TAIL == HEAD + (PUBACK_257 + TAIL);
    forall copies | RoomyCopies(PIECES, copies)
      ensures Process(s.client, copies).Some? && Process(s.client, copies).value.saved == [Sent(257, "x")]
    {
      CutRecords(s.client, copies, Sent(257, "x"));
    }
    assert Misled(s, ReadOf());
  }
}
