/**
 MQTT-SN packets as section 5 of MQTT-SN 1.2 has a gateway read them, with every code,
 mask and position as the number the standard gives, and which of the packets that the
 client encodes say there what they were meant to say.
 */
module SnStandard {
  import opened Octets
  import opened SnCodec
  import opened Taking

  /** The flags octet (section 5.3.4). */
  datatype FlagFields = FlagFields(dup: bool, qos: int, retain: bool, will: bool, clean: bool, kind: int)

  function TakeFlags(b: octet): FlagFields {
    var n: int := b;
    FlagFields(n / 128 == 1, n / 32 % 4, n / 16 % 2 == 1, n / 8 % 2 == 1, n / 4 % 2 == 1, n % 4)
  }

  /** CONNECT (section 5.4.4): flags, protocol, duration, the rest the client identifier. */
  function ReadConnect(s: Bytes): Option<Packet> {
    if |s| < 4 then None
    else
      var f := TakeFlags(s[0]);
      if f.dup || f.qos != 0 || f.retain || f.kind != 0 then None
      else match TakeNumber(s[2..])
        case Broken => None
        case Part(duration, clientId) => Some(Connect(f.will, f.clean, s[1], duration, clientId))
  }

  /** WILLTOPIC (section 5.4.7): nothing, or flags and the topic. */
  function ReadWillTopic(s: Bytes): Option<Packet> {
    if s == [] then Some(WillTopic(None, 0, false))
    else
      var f := TakeFlags(s[0]);
      if f.dup || f.will || f.clean || f.kind != 0 then None else Some(WillTopic(Some(s[1..]), f.qos, f.retain))
  }

  /** REGISTER, REGACK and PUBACK (sections 5.4.10, 5.4.11 and 5.4.13): two identifiers. */
  function ReadTopicId(kind: octet, s: Bytes): Option<Packet> {
    match TakeNumber(s)
    case Broken => None
    case Part(topicId, t) =>
      match TakeNumber(t)
      case Broken => None
      case Part(messageId, u) =>
        if kind == 0x0A then Some(Register(topicId, messageId, u))
        else if |u| != 1 then None
        else if kind == 0x0B then Some(Regack(topicId, messageId, u[0]))
        else Some(Puback(topicId, messageId, u[0]))
  }

  /** PUBLISH (section 5.4.12).  The client marks every topic identifier as type 1, which
      the standard keeps for predefined ones. */
  function ReadPublish(s: Bytes): Option<Packet> {
    if s == [] then None
    else
      var f := TakeFlags(s[0]);
      if f.will || f.clean || f.kind != 1 then None
      else match TakeNumber(s[1..])
        case Broken => None
        case Part(topicId, t) =>
          match TakeNumber(t)
          case Broken => None
          case Part(messageId, data) => Some(Publish(f.dup, f.qos, f.retain, topicId, messageId, data))
  }

  function ReadAck(kind: octet, s: Bytes): Option<Packet> {
    match TakeNumber(s)
    case Broken => None
    case Part(id, t) =>
      if t != [] then None
      else if kind == 0x0E then Some(Pubcomp(id))
      else if kind == 0x0F then Some(Pubrec(id))
      else Some(Pubrel(id))
  }

  /** SUBSCRIBE and UNSUBSCRIBE (sections 5.4.15 and 5.4.17): flags, the message
      identifier, and a name or, with type 1, an identifier. */
  function ReadRequest(subscribe: bool, s: Bytes): Option<Packet> {
    if s == [] then None
    else
      var f := TakeFlags(s[0]);
      if f.retain || f.will || f.clean || f.kind > 1 || (!subscribe && (f.dup || f.qos != 0)) then None
      else match TakeNumber(s[1..])
        case Broken => None
        case Part(messageId, t) =>
          match TakeTopic(f.kind, t)
          case None => None
          case Some(topic) => Some(if subscribe then Subscribe(f.dup, f.qos, topic, messageId) else Unsubscribe(topic, messageId))
  }

  function TakeTopic(kind: int, s: Bytes): Option<Topic> {
    if kind == 0 then Some(Named(s))
    else match TakeNumber(s)
      case Broken => None
      case Part(id, t) => if t == [] then Some(ById(id)) else None
  }

  function ReadBody(kind: octet, s: Bytes): Option<Packet> {
    if kind == 0x04 then ReadConnect(s)
    else if kind == 0x07 then ReadWillTopic(s)
    else if kind == 0x09 then Some(WillMsg(s))
    else if kind in {0x0A, 0x0B, 0x0D} then ReadTopicId(kind, s)
    else if kind == 0x0C then ReadPublish(s)
    else if kind in {0x0E, 0x0F, 0x10} then ReadAck(kind, s)
    else if kind == 0x12 then ReadRequest(true, s)
    else if kind == 0x14 then ReadRequest(false, s)
    else if kind == 0x16 then Some(Pingreq(if s == [] then None else Some(s)))
    else if kind == 0x18 then ReadDisconnect(s)
    else None
  }

  function ReadDisconnect(s: Bytes): Option<Packet> {
    if s == [] then Some(Disconnect(0))
    else match TakeNumber(s)
      case Broken => None
      case Part(n, t) => if t == [] then Some(Disconnect(n)) else None
  }

  /** One whole packet: its length (section 5.2.1), its type, and its body. */
  function Read(buf: Bytes): Option<Packet> {
    if |buf| < 2 then None
    else if buf[0] != 1 then (if buf[0] != |buf| then None else ReadBody(buf[1], buf[2..]))
    else match TakeNumber(buf[1..])
      case Broken => None
      case Part(n, t) => if n != |buf| || t == [] then None else ReadBody(t[0], t[1..])
  }

  // ---- What is read off what was put together ----

  lemma ShortFraming(buf: Bytes, n: octet, kind: octet, body: Bytes)
    requires n != 1 && buf == [n] + [kind] + body
    ensures Read(buf) == if n == |buf| then ReadBody(kind, body) else None
  {
    hide ReadBody;
    assert buf[0] == n && buf[1] == kind && buf[2..] == body;
  }

  lemma LongFraming(buf: Bytes, n: int, kind: octet, body: Bytes)
    requires IsShort(n) && buf == [1] + Short(n) + [kind] + body
    ensures Read(buf) == if n == |buf| then ReadBody(kind, body) else None
  {
    hide ReadBody, TakeNumber, Short;
    var rest := [kind] + body;
    assert buf == [1] + (Short(n) + rest);
    assert buf[0] == 1 && buf[1..] == Short(n) + rest;
    NumberTaken(n, rest);
    assert rest[1..] == body;
  }

  lemma ReadsTheBody(p: Packet)
    requires Sendable(p)
    ensures Read(Layout(p)) == if Declared(p) == |Layout(p)| then ReadBody(TypeOf(p), Body(p)) else None
  {
    LengthIsNotOne(p);
    var n := GetLength(p);
    hide GetLength, Body, TypeOf, ReadBody, Read, Sendable, Short, Low;
    if n <= 255 {
      ShortFraming(Layout(p), n, TypeOf(p), Body(p));
    } else {
      LongFraming(Layout(p), Low(n), TypeOf(p), Body(p));
    }
  }

  /** The packet with its string as it is copied. */
  function AsCopied(p: Packet): Packet {
    match p
    case Connect(_, _, _, _, clientId) => p.(clientId := Cut(clientId))
    case WillTopic(Some(topicName), _, _) => p.(topicName := Some(Cut(topicName)))
    case WillTopic(None, _, _) => WillTopic(None, 0, false)
    case WillMsg(message) => WillMsg(Cut(message))
    case Register(_, _, name) => p.(name := Cut(name))
    case Publish(_, _, _, _, _, data) => p.(data := Cut(data))
    case Subscribe(dup, qos, Named(value), id) => Subscribe(dup, qos, Named(Cut(value)), id)
    case Unsubscribe(Named(value), id) => Unsubscribe(Named(Cut(value)), id)
    case Pingreq(Some(sender)) => Pingreq(if Cut(sender) == [] then None else Some(Cut(sender)))
    case _ => p
  }

  lemma FlagsRead(f: Flags)
    requires ValidFlags(f)
    ensures TakeFlags(EncodeFlags(f)) == FlagFields(f.dup, f.qos, f.retain, f.will, f.cleanSession, f.topicType)
  {
    var d, r, w, c := Bit(f.dup, 1), Bit(f.retain, 1), Bit(f.will, 1), Bit(f.cleanSession, 1);
    var n: int := EncodeFlags(f);
    assert n == 128 * d + 32 * f.qos + 16 * r + 8 * w + 4 * c + f.topicType;
    DigitsOf(n, d, f.qos, r, w, c, f.topicType);
  }

  lemma DigitsOf(n: int, d: int, q: int, r: int, w: int, c: int, t: int)
    requires 0 <= d <= 1 && 0 <= q <= 3 && 0 <= r <= 1 && 0 <= w <= 1 && 0 <= c <= 1 && 0 <= t <= 3
    requires n == 128 * d + 32 * q + 16 * r + 8 * w + 4 * c + t
    ensures n / 128 == d && n / 32 % 4 == q && n / 16 % 2 == r && n / 8 % 2 == w && n / 4 % 2 == c && n % 4 == t
  {
    assert n / 4 == 32 * d + 8 * q + 4 * r + 2 * w + c;
    assert n / 8 == 16 * d + 4 * q + 2 * r + w;
    assert n / 16 == 8 * d + 2 * q + r;
    assert n / 32 == 4 * d + q;
  }

  lemma TwoTaken(m: int, n: int, rest: Bytes)
    requires IsShort(m) && IsShort(n)
    ensures TakeNumber(Short(m) + Short(n) + rest) == Part(m, Short(n) + rest)
    ensures TakeNumber(Short(n) + rest) == Part(n, rest)
  {
    hide Short, TakeNumber;
    Join([], Short(m), Short(n) + rest);
    assert Short(m) + Short(n) + rest == Short(m) + (Short(n) + rest);
    NumberTaken(m, Short(n) + rest);
    NumberTaken(n, rest);
  }

  lemma TopicIdTaken(kind: octet, topicId: int, messageId: int, rest: Bytes)
    requires IsShort(topicId) && IsShort(messageId)
    ensures ReadTopicId(kind, Short(topicId) + Short(messageId) + rest) ==
      if kind == 0x0A then Some(Register(topicId, messageId, rest))
      else if |rest| != 1 then None
      else if kind == 0x0B then Some(Regack(topicId, messageId, rest[0]))
      else Some(Puback(topicId, messageId, rest[0]))
  {
    TwoTaken(topicId, messageId, rest);
    hide TakeNumber, Short;
  }

  lemma TopicRead(t: Topic)
    requires IsTopic(t)
    ensures TakeTopic(TopicType(t), TopicBytes(t)) == Some(if t.Named? then Named(Cut(t.value)) else t)
  {
    if t.ById? {
      NumberTaken(t.id, []);
      assert Short(t.id) + [] == Short(t.id);
      hide TakeNumber, Short;
    }
  }

  /** Behind flags that a request may have. */
  lemma RequestTaken(subscribe: bool, b: octet, dup: bool, qos: int, messageId: int, topic: Topic)
    requires TakeFlags(b) == FlagFields(dup, qos, false, false, false, TopicType(topic)) && (subscribe || (!dup && qos == 0))
    requires IsShort(messageId) && IsTopic(topic)
    ensures ReadRequest(subscribe, [b] + (Short(messageId) + TopicBytes(topic))) ==
      var t := if topic.Named? then Named(Cut(topic.value)) else topic;
      Some(if subscribe then Subscribe(dup, qos, t, messageId) else Unsubscribe(t, messageId))
  {
    hide TakeNumber, TakeTopic, TakeFlags, Short, TopicBytes, Cut;
    TopicRead(topic);
    NumberTaken(messageId, TopicBytes(topic));
    var s := [b] + (Short(messageId) + TopicBytes(topic));
    assert s[1..] == Short(messageId) + TopicBytes(topic);
  }

  lemma PublishReads(p: Packet)
    requires p.Publish? && Sendable(p)
    ensures ReadBody(TypeOf(p), Body(p)) == Some(AsCopied(p))
  {
    hide TakeNumber, TakeFlags, EncodeFlags, Short, Cut, GetLength, StringOf;
    var f := Plain(p.dup, p.qos, p.retain, ID);
    FlagsRead(f);
    PublishBody(p);
    TwoTaken(p.topicId, p.messageId, Cut(p.data));
    Join(Short(p.topicId), Short(p.messageId), Cut(p.data));
    assert Body(p)[1..] == Short(p.topicId) + Short(p.messageId) + Cut(p.data);
    hide Body;
  }

  lemma ConnectReads(p: Packet)
    requires p.Connect? && Sendable(p)
    ensures ReadBody(TypeOf(p), Body(p)) == Some(AsCopied(p))
  {
    hide TakeNumber, TakeFlags, EncodeFlags, Short, Cut, GetLength, StringOf;
    var f := Flags(false, 0, false, p.willPresent, p.cleanSession, NAMED);
    FlagsRead(f);
    NumberTaken(p.duration, Cut(p.clientId));
    assert Body(p) == [EncodeFlags(f), p.protocolId] + (Short(p.duration) + Cut(p.clientId));
    assert Body(p)[2..] == Short(p.duration) + Cut(p.clientId);
    hide Body;
  }

  /** Every body is read as the packet with its string as it was copied. */
  lemma BodyReads(p: Packet)
    requires Sendable(p)
    ensures ReadBody(TypeOf(p), Body(p)) == Some(AsCopied(p))
  {
    hide TakeNumber, Short, Cut, StringOf, GetLength, EncodeFlags, TakeFlags, ReadRequest, ReadTopicId, TopicBytes;
    match p {
      case Connect(_, _, _, _, _) => ConnectReads(p);
      case WillTopic(topicName, qos, retain) =>
        if topicName.Some? {
          FlagsRead(Plain(false, qos, retain, NAMED));
          WillTaken(EncodeFlags(Plain(false, qos, retain, NAMED)), qos, retain, Cut(topicName.value));
        }
      case WillMsg(_) =>
      case Register(topicId, messageId, name) => TopicIdTaken(0x0A, topicId, messageId, Cut(name));
      case Regack(topicId, messageId, code) => TopicIdTaken(0x0B, topicId, messageId, [code]);
      case Puback(topicId, messageId, code) => TopicIdTaken(0x0D, topicId, messageId, [code]);
      case Publish(_, _, _, _, _, _) => PublishReads(p);
      case Subscribe(dup, qos, topic, messageId) =>
        var f := Plain(dup, qos, false, TopicType(topic));
        FlagsRead(f);
        RequestTaken(true, EncodeFlags(f), dup, qos, messageId, topic);
        assert Body(p) == [EncodeFlags(f)] + (Short(messageId) + TopicBytes(topic));
      case Unsubscribe(topic, messageId) =>
        var f := Plain(false, 0, false, TopicType(topic));
        FlagsRead(f);
        RequestTaken(false, EncodeFlags(f), false, 0, messageId, topic);
        assert Body(p) == [EncodeFlags(f)] + (Short(messageId) + TopicBytes(topic));
      case Pingreq(_) =>
      case Disconnect(duration) => if duration > 0 { AloneTaken(duration); }
      case _ => AloneTaken(p.messageId);
    }
  }

  lemma AloneTaken(n: int)
    requires IsShort(n)
    ensures TakeNumber(Short(n)) == Part(n, [])
  {
    NumberTaken(n, []);
    assert Short(n) + [] == Short(n);
  }

  lemma WillTaken(b: octet, qos: int, retain: bool, topicName: Bytes)
    requires TakeFlags(b) == FlagFields(false, qos, retain, false, false, 0)
    ensures ReadWillTopic([b] + topicName) == Some(WillTopic(Some(topicName), qos, retain))
  {
    assert ([b] + topicName)[1..] == topicName;
    hide TakeFlags;
  }

  /** Which packets say to a gateway that follows the standard what they were meant to say. */
  predicate Conforms(p: Packet) {
    && Declarable(p) && IdentifierFits(p)
    && (p.WillTopic? && p.topicName.None? ==> p.qos == 0 && !p.retain)
    && p != Pingreq(Some([]))
  }

  lemma CopiedWhole(p: Packet)
    requires Sendable(p)
    ensures AsCopied(p) == p <==>
      StringFits(p) && (p.WillTopic? && p.topicName.None? ==> p.qos == 0 && !p.retain) && p != Pingreq(Some([]))
  {
    CutIs(StringOf(p));
    hide Cut, GetLength;
  }

  lemma CutIs(s: Bytes)
    ensures Cut(s) == s <==> |s| < SHORT_SPACE
    ensures s == [] ==> Cut(s) == []
  {
  }

  lemma FitsWhenDeclarable(p: Packet)
    ensures Declarable(p) ==> StringFits(p)
  {
  }

  lemma ReadsAsMeant(p: Packet)
    requires Sendable(p)
    ensures Read(Layout(p)) == Some(p) <==> Conforms(p)
  {
    ReadsTheBody(p);
    BodyReads(p);
    CopiedWhole(p);
    FitsWhenDeclarable(p);
    LengthAgrees(p);
    hide Read, ReadBody, Body, Layout, AsCopied, StringFits, IdentifierFits, GetLength, Sendable;
  }

  // ---- What the client makes of packets of the standard ----

  /** Every octet of flags is taken for what the standard says, types 2 and 3 both for that
      of a short name. */
  lemma FlagsMean(b: octet)
    ensures var f := TakeFlags(b);
      DecodeFlags(b) == Flags(f.dup, f.qos, f.retain, f.will, f.clean, if f.kind > 1 then 2 else f.kind)
  {
    var n: int := b;
    BothBits(b);
    assert n / 128 < 2 && n / 128 % 2 == n / 128;
    var q, t := n / 32 % 4, n % 4;
    assert n / 64 % 2 == q / 2 && n / 32 % 2 == q % 2;
    assert n / 2 % 2 == t / 2 && n / 1 % 2 == t % 2;
  }

  /** A PUBLISH with a length field of one octet and some data: flags, topic identifier,
      message identifier, data. */
  lemma PublishMeans(buf: Bytes, more: Bytes)
    requires 7 < |buf| <= 255 && buf[0] == |buf| && buf[1] == 0x0C
    ensures var f, t := TakeFlags(buf[2]), TakeNumber(buf[3..]);
      && t.Part? && TakeNumber(t.rest).Part?
      && Decode(buf + more) ==
           if f.kind > 1 then ShortTopic
           else Publishing(f.dup, f.qos, f.retain, t.value, TakeNumber(t.rest).value, buf[7..])
  {
    FlagsMean(buf[2]);
    var s := buf + more;
    assert s[0] == |buf| && s[1] == 0x0C && s[2] == buf[2];
    assert s[3] == buf[3] && s[4] == buf[4] && s[5] == buf[5] && s[6] == buf[6];
    assert s[7..|buf|] == buf[7..];
    hide TakeFlags, DecodeFlags;
  }

  /** Acknowledgements: 0x0B and 0x0D with a topic, 0x0E to 0x10 and 0x15 without. */
  lemma AckMeans(buf: Bytes, more: Bytes)
    requires |buf| >= 4 && buf[0] == |buf|
    ensures buf[1] in {0x0E, 0x0F, 0x10, 0x15} && |buf| == 4 ==>
      Decode(buf + more) == Ack(buf[1], TakeNumber(buf[2..]).value)
    ensures buf[1] in {0x0B, 0x0D} && |buf| == 7 ==>
      Decode(buf + more) == TopicAck(buf[1], TakeNumber(buf[2..]).value, TakeNumber(buf[4..]).value, buf[6])
  {
    var s := buf + more;
    assert s[0] == |buf| && s[1] == buf[1] && s[2] == buf[2] && s[3] == buf[3];
    if |buf| == 7 { assert s[4] == buf[4] && s[5] == buf[5] && s[6] == buf[6]; }
    hide DecodeFlags;
  }
}
