/**
 MQTT-SN packets in octets: sn_parser.c for the packets the client sends and for
 the ones that come back to it (section 5 of MQTT-SN 1.2).
 */
module SnCodec {
  import opened Octets
  import opened Buffers

  // ---- Flags ----

  const NAMED := 0
  const ID := 1
  const SHORT := 2

  /** `struct ValidFlags`. */
  datatype Flags = Flags(dup: bool, qos: int, retain: bool, will: bool, cleanSession: bool, topicType: int)

  predicate ValidFlags(f: Flags) {
    0 <= f.qos <= 3 && f.topicType in {NAMED, ID, SHORT}
  }

  /** `encode_flags`; a NULL QoS or topic type counts as 0. */
  function EncodeFlags(f: Flags): octet
    requires ValidFlags(f)
  {
    Bit(f.dup, 128) + 32 * f.qos + Bit(f.retain, 16) + Bit(f.will, 8) + Bit(f.cleanSession, 4) + f.topicType
  }

  /** `(flags & mask) == mask`, for the masks of `enum Flag`. */
  predicate Has(flags: octet, mask: int) {
    var b: int := flags;
    match mask
    case 3 => b % 4 == 3
    case 96 => b / 32 % 4 == 3
    case _ => mask > 0 && b / mask % 2 == 1
  }

  function DecodeFlags(b: octet): Flags {
    Flags(Has(b, 128),
          if Has(b, 96) then 3 else if Has(b, 64) then 2 else if Has(b, 32) then 1 else 0,
          Has(b, 16), Has(b, 8), Has(b, 4),
          if Has(b, 2) then SHORT else if Has(b, 1) then ID else NAMED)
  }

  /** `decode_flag` and `validate_create_flags`: a loop over all values up to the
      largest flag, picking the flags out of them. */
  method DecodeFlag(flagsByte: octet) returns (f: Flags)
    ensures f == DecodeFlags(flagsByte)
  {
    var found: set<int> := {};
    for i := 1 to 129
      invariant forall m :: m in found <==> 1 <= m < i && m in {1, 2, 3, 4, 8, 16, 32, 64, 96, 128} && Has(flagsByte, m)
    {
      if i in {1, 2, 3, 4, 8, 16, 32, 64, 96, 128} && Has(flagsByte, i) {
        found := found + {i};
      }
    }
    var qos := if 96 in found then 3 else if 64 in found then 2 else if 32 in found then 1 else 0;
    var topicType := if 2 in found then SHORT else if 1 in found then ID else NAMED;
    f := Flags(128 in found, qos, 16 in found, 8 in found, 4 in found, topicType);
  }

  /** A digit of weight `m`, between a higher part and a lower one. */
  lemma BitAt(b: octet, m: int, high: int, bit: int, low: int)
    requires m in {1, 2, 4, 8, 16, 32, 64, 128} && 0 <= bit <= 1 && 0 <= low < m
    requires b == high * (2 * m) + bit * m + low
    ensures Has(b, m) <==> bit == 1
  {
    var n: int := b;
    assert n / m == 2 * high + bit by {
      match m {
        case 1 =>
        case 2 =>
        case 4 =>
        case 8 =>
        case 16 =>
        case 32 =>
        case 64 =>
        case _ =>
      }
    }
  }

  predicate Binary(n: int) {
    n == 0 || n == 1
  }

  lemma HighBits(b: octet, d: int, q1: int, q0: int, r: int, low: int)
    requires Binary(d) && Binary(q1) && Binary(q0) && Binary(r) && 0 <= low < 16
    requires b == 128 * d + 64 * q1 + 32 * q0 + 16 * r + low
    ensures Has(b, 128) == (d == 1) && Has(b, 64) == (q1 == 1) && Has(b, 32) == (q0 == 1) && Has(b, 16) == (r == 1)
  {
    hide Has;
    BitAt(b, 128, 0, d, 64 * q1 + 32 * q0 + 16 * r + low);
    BitAt(b, 64, d, q1, 32 * q0 + 16 * r + low);
    BitAt(b, 32, 2 * d + q1, q0, 16 * r + low);
    BitAt(b, 16, 4 * d + 2 * q1 + q0, r, low);
  }

  lemma LowBits(b: octet, high: int, w: int, c: int, t1: int, t0: int)
    requires 0 <= high < 16 && Binary(w) && Binary(c) && Binary(t1) && Binary(t0)
    requires b == 16 * high + 8 * w + 4 * c + 2 * t1 + t0
    ensures Has(b, 8) == (w == 1) && Has(b, 4) == (c == 1) && Has(b, 2) == (t1 == 1) && Has(b, 1) == (t0 == 1)
  {
    hide Has;
    BitAt(b, 8, high, w, 4 * c + 2 * t1 + t0);
    BitAt(b, 4, 2 * high + w, c, 2 * t1 + t0);
    BitAt(b, 2, 4 * high + 2 * w + c, t1, t0);
    BitAt(b, 1, 8 * high + 4 * w + 2 * c + t1, t0, 0);
  }

  function Q1(qos: int): int {
    if qos >= 2 then 1 else 0
  }

  function Q0(qos: int): int {
    if qos == 1 || qos == 3 then 1 else 0
  }

  lemma QosBits(qos: int)
    requires 0 <= qos <= 3
    ensures qos == 2 * Q1(qos) + Q0(qos) && Binary(Q1(qos)) && Binary(Q0(qos))
  {
  }

  /** Every combination of flags comes back. */
  lemma FlagsRoundTrip(f: Flags)
    requires ValidFlags(f)
    ensures DecodeFlags(EncodeFlags(f)) == f
  {
    var b := EncodeFlags(f);
    var d, r, w, c := Bit(f.dup, 1), Bit(f.retain, 1), Bit(f.will, 1), Bit(f.cleanSession, 1);
    var q1, q0 := Q1(f.qos), Q0(f.qos);
    var t1, t0 := Bit(f.topicType == SHORT, 1), Bit(f.topicType == ID, 1);
    QosBits(f.qos);
    hide Has, Q1, Q0;
    var low := 8 * w + 4 * c + 2 * t1 + t0;
    assert b == 128 * d + 64 * q1 + 32 * q0 + 16 * r + low;
    hide EncodeFlags;
    HighBits(b, d, q1, q0, r, low);
    LowBits(b, 8 * d + 4 * q1 + 2 * q0 + r, w, c, t1, t0);
    BothBits(b);
    QosOfBits(f.qos);
  }

  lemma QosOfBits(qos: int)
    requires 0 <= qos <= 3
    ensures qos == if Q1(qos) == 1 && Q0(qos) == 1 then 3 else if Q1(qos) == 1 then 2 else if Q0(qos) == 1 then 1 else 0
  {
  }

  /** The two-bit masks are set when both their bits are. */
  lemma BothBits(b: octet)
    ensures Has(b, 96) <==> Has(b, 64) && Has(b, 32)
    ensures Has(b, 3) <==> Has(b, 2) && Has(b, 1)
  {
    var n: int := b;
    assert n / 64 == n / 32 / 2 && n / 2 == n / 2;
    var q := n / 32 % 4;
    assert n / 64 % 2 == q / 2 && n / 32 % 2 == q % 2;
    var t := n % 4;
    assert n / 2 % 2 == t / 2 && n / 1 % 2 == t % 2;
  }

  // ---- Packets ----

  datatype Topic = Named(value: Bytes) | ById(id: int)

  /** What the client sends.  A PUBLISH names its topic by identifier. */
  datatype Packet =
    | Connect(willPresent: bool, cleanSession: bool, protocolId: octet, duration: int, clientId: Bytes)
    | WillTopic(topicName: Option<Bytes>, qos: int, retain: bool)
    | WillMsg(message: Bytes)
    | Register(topicId: int, messageId: int, name: Bytes)
    | Regack(topicId: int, messageId: int, code: octet)
    | Publish(dup: bool, qos: int, retain: bool, topicId: int, messageId: int, data: Bytes)
    | Puback(topicId: int, messageId: int, code: octet)
    | Pubcomp(messageId: int)
    | Pubrec(messageId: int)
    | Pubrel(messageId: int)
    | Subscribe(dup: bool, qos: int, topic: Topic, messageId: int)
    | Unsubscribe(topic: Topic, messageId: int)
    | Pingreq(sender: Option<Bytes>)
    | Disconnect(duration: int)

  predicate IsTopic(t: Topic) {
    t.ById? ==> IsShort(t.id)
  }

  /** The string of a packet, which has one at most. */
  function StringOf(p: Packet): Bytes {
    match p
    case Connect(_, _, _, _, clientId) => clientId
    case WillTopic(Some(topicName), _, _) => topicName
    case WillMsg(message) => message
    case Register(_, _, name) => name
    case Publish(_, _, _, _, _, data) => data
    case Subscribe(_, _, Named(value), _) => value
    case Unsubscribe(Named(value), _) => value
    case Pingreq(Some(sender)) => sender
    case _ => []
  }

  /** The values the C types admit: a string ends at its first 0, a length is an `int`. */
  predicate Sendable(p: Packet) {
    && 0 !in StringOf(p) && GetLength(p) < INT_SPACE / 2
    && match p
      case Connect(_, _, _, duration, _) => IsShort(duration)
      case WillTopic(_, qos, _) => 0 <= qos <= 3
      case WillMsg(_) => true
      case Register(topicId, messageId, _) => IsShort(topicId) && IsShort(messageId)
      case Regack(topicId, messageId, _) => IsShort(topicId) && IsShort(messageId)
      case Publish(_, qos, _, topicId, messageId, _) => 0 <= qos <= 3 && IsShort(topicId) && IsShort(messageId)
      case Puback(topicId, messageId, _) => IsShort(topicId) && IsShort(messageId)
      case Subscribe(_, qos, topic, messageId) => 0 <= qos <= 3 && IsTopic(topic) && IsShort(messageId)
      case Unsubscribe(topic, messageId) => IsTopic(topic) && IsShort(messageId)
      case Pingreq(_) => true
      case Disconnect(duration) => IsShort(duration)
      case _ => IsShort(p.messageId)
  }

  function TypeOf(p: Packet): octet {
    match p
    case Connect(_, _, _, _, _) => 0x04
    case WillTopic(_, _, _) => 0x07
    case WillMsg(_) => 0x09
    case Register(_, _, _) => 0x0A
    case Regack(_, _, _) => 0x0B
    case Publish(_, _, _, _, _, _) => 0x0C
    case Puback(_, _, _) => 0x0D
    case Pubcomp(_) => 0x0E
    case Pubrec(_) => 0x0F
    case Pubrel(_) => 0x10
    case Subscribe(_, _, _, _) => 0x12
    case Unsubscribe(_, _) => 0x14
    case Pingreq(_) => 0x16
    case Disconnect(_) => 0x18
  }

  /** A length that grows by two once the string is longer than `limit`. */
  function Corrected(length: nat, s: Bytes, limit: nat): nat {
    length + |s| + if |s| > limit then 2 else 0
  }

  function TopicLength(t: Topic): nat {
    match t
    case Named(value) => Corrected(5, value, 250)
    case ById(_) => 7
  }

  /** `sn_get_length`; CONNECT and PINGREQ have no correction. */
  function GetLength(p: Packet): nat {
    match p
    case Connect(_, _, _, _, clientId) => 6 + |clientId|
    case WillTopic(topicName, _, _) => if topicName.Some? then Corrected(3, topicName.value, 252) else 2
    case WillMsg(message) => Corrected(2, message, 253)
    case Register(_, _, name) => Corrected(6, name, 249)
    case Regack(_, _, _) => 7
    case Publish(_, _, _, _, _, data) => Corrected(7, data, 248)
    case Puback(_, _, _) => 7
    case Subscribe(_, _, topic, _) => TopicLength(topic)
    case Unsubscribe(topic, _) => TopicLength(topic)
    case Pingreq(sender) => 2 + if sender.Some? then |sender.value| else 0
    case Disconnect(duration) => if duration > 0 then 4 else 2
    case _ => 4
  }

  function Plain(dup: bool, qos: int, retain: bool, topicType: int): (f: Flags)
    requires 0 <= qos <= 3 && topicType in {NAMED, ID, SHORT}
    ensures ValidFlags(f)
  {
    Flags(dup, qos, retain, false, false, topicType)
  }

  function TopicBytes(t: Topic): Bytes
    requires IsTopic(t)
  {
    if t.ById? then Short(t.id) else Cut(t.value)
  }

  function TopicType(t: Topic): int {
    if t.ById? then ID else NAMED
  }

  /** The octets of a body but for its string. */
  function FixedPart(p: Packet): nat {
    match p
    case Connect(_, _, _, _, _) => 4
    case WillTopic(topicName, _, _) => if topicName.Some? then 1 else 0
    case WillMsg(_) => 0
    case Register(_, _, _) => 4
    case Regack(_, _, _) => 5
    case Publish(_, _, _, _, _, _) => 5
    case Puback(_, _, _) => 5
    case Subscribe(_, _, topic, _) => if topic.ById? then 5 else 3
    case Unsubscribe(topic, _) => if topic.ById? then 5 else 3
    case Pingreq(_) => 0
    case Disconnect(duration) => if duration > 0 then 2 else 0
    case _ => 2
  }

  /** What follows the type; of the string as much as is copied. */
  function Body(p: Packet): (r: Bytes)
    requires Sendable(p)
    ensures |r| == FixedPart(p) + |Cut(StringOf(p))|
  {
    match p
    case Connect(willPresent, cleanSession, protocolId, duration, clientId) =>
      [EncodeFlags(Flags(false, 0, false, willPresent, cleanSession, NAMED)), protocolId] + Short(duration) + Cut(clientId)
    case WillTopic(topicName, qos, retain) =>
      if topicName.Some? then [EncodeFlags(Plain(false, qos, retain, NAMED))] + Cut(topicName.value) else []
    case WillMsg(message) => Cut(message)
    case Register(topicId, messageId, name) => Short(topicId) + Short(messageId) + Cut(name)
    case Regack(topicId, messageId, code) => Short(topicId) + Short(messageId) + [code]
    case Publish(dup, qos, retain, topicId, messageId, data) =>
      [EncodeFlags(Plain(dup, qos, retain, ID))] + Short(topicId) + Short(messageId) + Cut(data)
    case Puback(topicId, messageId, code) => Short(topicId) + Short(messageId) + [code]
    case Subscribe(dup, qos, topic, messageId) =>
      [EncodeFlags(Plain(dup, qos, false, TopicType(topic)))] + Short(messageId) + TopicBytes(topic)
    case Unsubscribe(topic, messageId) =>
      [EncodeFlags(Plain(false, 0, false, TopicType(topic)))] + Short(messageId) + TopicBytes(topic)
    case Pingreq(sender) => if sender.Some? then Cut(sender.value) else []
    case Disconnect(duration) => if duration > 0 then Short(duration) else []
    case _ => Short(p.messageId)
  }

  /** The length field: one octet, or the suffix 1 and as much of the length as two
      octets hold. */
  function LengthField(length: nat): (r: Bytes)
    ensures |r| == if length <= 255 then 1 else 3
  {
    if length <= 255 then [length] else [1] + Short(Low(length))
  }

  /** What `sn_encode` lays out. */
  function Layout(p: Packet): Bytes
    requires Sendable(p)
  {
    LengthField(GetLength(p)) + [TypeOf(p)] + Body(p)
  }

  /** The client identifier leaves the length field in one octet. */
  predicate IdentifierFits(p: Packet) {
    p.Connect? || p.Pingreq? ==> GetLength(p) <= 255
  }

  predicate StringFits(p: Packet) {
    |StringOf(p)| < SHORT_SPACE
  }

  /** The length is one that two octets declare. */
  predicate Declarable(p: Packet) {
    GetLength(p) < SHORT_SPACE
  }

  /** The length that is allocated and sent is that of the two fields in front, the fixed
      part and the string. */
  lemma LengthIsSum(p: Packet)
    ensures GetLength(p) + (if IdentifierFits(p) then 0 else 2)
         == (if GetLength(p) <= 255 then 1 else 3) + 1 + FixedPart(p) + |StringOf(p)|
  {
  }

  /**
   For strings of every length: what is laid out has the length that is allocated and
   sent exactly when the string is shorter than 65536 octets and, in CONNECT and
   PINGREQ, leaves the length field in one octet.  A longer identifier that is shorter
   than 65536 octets is laid out two octets past the end of the buffer, and nothing
   else is; of a longer string the end is missing.
   */
  lemma LengthAgrees(p: Packet)
    requires Sendable(p)
    ensures |Layout(p)| == GetLength(p) <==> StringFits(p) && IdentifierFits(p)
    ensures |Layout(p)| > GetLength(p) <==> StringFits(p) && !IdentifierFits(p)
    ensures StringFits(p) && !IdentifierFits(p) ==> |Layout(p)| == GetLength(p) + 2
  {
    LengthIsSum(p);
    hide Body, GetLength, Sendable, StringOf, Low, IdentifierFits, TypeOf, FixedPart;
  }

  method AddLength(buf: array<octet>, length: nat) returns (i: nat)
    requires |LengthField(length)| <= buf.Length
    modifies buf
    ensures i == |LengthField(length)| && buf[..i] == LengthField(length)
  {
    if length <= 255 {
      i := Put(buf, 0, length);
    } else {
      i := Put(buf, 0, 1);
      i := AddShort(buf, i, Low(length));
    }
  }

  /** `sn_encode`, into a buffer of the length that is sent; None when it would write past
      its end.  What is behind the layout stays as it was allocated. */
  method Encode(p: Packet) returns (encoded: Option<array<octet>>)
    requires Sendable(p)
    ensures encoded.Some? <==> !StringFits(p) || IdentifierFits(p)
    ensures encoded.Some? ==>
      var buf := encoded.value; fresh(buf) && buf.Length == GetLength(p) >= |Layout(p)| && buf[..|Layout(p)|] == Layout(p)
    ensures encoded.Some? && StringFits(p) ==> encoded.value[..] == Layout(p)
  {
    hide Body, GetLength, LengthField, Sendable, TypeOf, IdentifierFits, StringFits;
    LengthAgrees(p);
    var length := GetLength(p);
    if |Layout(p)| > length { return None; }
    var buf := new octet[length];
    var i := AddLength(buf, length);
    i := Put(buf, i, TypeOf(p));
    i := EncodeBody(buf, i, p);
    assert i == |Layout(p)| && (i == buf.Length ==> buf[..] == buf[..i]);
    return Some(buf);
  }

  /** The cases of the switch. */
  method EncodeBody(buf: array<octet>, start: nat, p: Packet) returns (i: nat)
    requires Sendable(p) && start + |Body(p)| <= buf.Length
    modifies buf
    ensures i == start + |Body(p)| && buf[..i] == old(buf[..start]) + Body(p)
  {
    hide EncodeFlags, GetLength, Short, TopicBytes, Cut, StringOf;
    ghost var front := buf[..start];
    i := start;
    match p {
      case Connect(willPresent, cleanSession, protocolId, duration, clientId) =>
        var head := [EncodeFlags(Flags(false, 0, false, willPresent, cleanSession, NAMED)), protocolId];
        i := AddThree(buf, i, head, Short(duration), Cut(clientId));
      case WillTopic(topicName, qos, retain) =>
        if topicName.Some? {
          var flags := EncodeFlags(Plain(false, qos, retain, NAMED));
          i := Put(buf, i, flags);
          i := Copy(buf, i, Cut(topicName.value));
          Join(front, [flags], Cut(topicName.value));
        } else {
          assert front + [] == front;
        }
      case WillMsg(message) => i := Copy(buf, i, Cut(message));
      case Register(topicId, messageId, name) => i := AddThree(buf, i, Short(topicId), Short(messageId), Cut(name));
      case Regack(topicId, messageId, code) => i := AddThree(buf, i, Short(topicId), Short(messageId), [code]);
      case Publish(dup, qos, retain, topicId, messageId, data) =>
        i := AddThree(buf, i, [EncodeFlags(Plain(dup, qos, retain, ID))] + Short(topicId), Short(messageId), Cut(data));
      case Puback(topicId, messageId, code) => i := AddThree(buf, i, Short(topicId), Short(messageId), [code]);
      case Subscribe(dup, qos, topic, messageId) =>
        i := AddThree(buf, i, [EncodeFlags(Plain(dup, qos, false, TopicType(topic)))], Short(messageId), TopicBytes(topic));
      case Unsubscribe(topic, messageId) =>
        i := AddThree(buf, i, [EncodeFlags(Plain(false, 0, false, TopicType(topic)))], Short(messageId), TopicBytes(topic));
      case Pingreq(sender) =>
        if sender.Some? { i := Copy(buf, i, Cut(sender.value)); } else { assert front + [] == front; }
      case Disconnect(duration) =>
        if duration > 0 { i := AddShort(buf, i, duration); } else { assert front + [] == front; }
      case _ => i := AddShort(buf, i, p.messageId);
    }
  }

  method AddThree(buf: array<octet>, i: nat, s: Bytes, t: Bytes, u: Bytes) returns (j: nat)
    requires i + |s + t + u| <= buf.Length
    modifies buf
    ensures j == i + |s + t + u| && buf[..j] == old(buf[..i]) + (s + t + u)
  {
    j := Copy(buf, i, s);
    j := Copy(buf, j, t);
    j := Copy(buf, j, u);
    Join(old(buf[..i]), s, t);
    Join(old(buf[..i]), s + t, u);
  }

  // ---- Decoding ----

  /** What `sn_decode` makes of a buffer. */
  datatype Incoming =
    | Registering(topicId: int, messageId: int, name: Bytes)
    | WillMessage(message: Bytes)
    | Publishing(dup: bool, qos: int, retain: bool, topicId: int, messageId: int, data: Bytes)
    | TopicAck(kind: int, topicId: int, messageId: int, code: int)
    | Ack(kind: int, messageId: int)
    | UnsetData                       // a PUBLISH without data: the pointer to it is followed all the same
    | ShortTopic                      // a topic value that outlives the call
    | OutOfBounds
    | Unmodelled

  /** The length field at the start of a buffer, and where it ends. */
  function LengthFieldAt(buf: Bytes): Option<(int, nat)> {
    if buf == [] then None
    else if buf[0] != 1 then Some((buf[0], 1))
    else if |buf| < 3 then None
    else Some((ShortAt(buf, 1), 3))
  }

  /** `get_string`. */
  function StringAt(buf: Bytes, i: nat, bytesLeft: int): Option<Bytes> {
    if bytesLeft < 0 || i + bytesLeft > |buf| then None else Some(buf[i..i + bytesLeft])
  }

  function Decode(buf: Bytes): Incoming {
    var field := LengthFieldAt(buf);
    if field.None? || field.value.1 == |buf| then OutOfBounds
    else DecodeBody(buf[field.value.1], buf, field.value.1 + 1, field.value.0 - field.value.1 - 1)
  }

  /** The cases of the switch, at `i` with `bytesLeft` octets of the packet left. */
  function DecodeBody(kind: octet, buf: Bytes, i: nat, bytesLeft: int): Incoming {
    if kind == 0x09 then
      var message := StringAt(buf, i, bytesLeft);
      if message.None? then OutOfBounds else WillMessage(message.value)
    else if kind == 0x0A then
      if i + 4 > |buf| || StringAt(buf, i + 4, bytesLeft - 4).None? then OutOfBounds
      else Registering(ShortAt(buf, i), ShortAt(buf, i + 2), StringAt(buf, i + 4, bytesLeft - 4).value)
    else if kind == 0x0C then
      if i + 5 > |buf| then OutOfBounds
      else
        var flags, data := DecodeFlags(buf[i]), StringAt(buf, i + 5, bytesLeft - 5);
        if bytesLeft <= 5 then UnsetData
        else if data.None? then OutOfBounds
        else if flags.topicType == SHORT then ShortTopic
        else Publishing(flags.dup, flags.qos, flags.retain, ShortAt(buf, i + 1), ShortAt(buf, i + 3), data.value)
    else if kind == 0x0B || kind == 0x0D then
      if i + 5 > |buf| then OutOfBounds else TopicAck(kind, ShortAt(buf, i), ShortAt(buf, i + 2), buf[i + 4])
    else if kind == 0x0E || kind == 0x0F || kind == 0x10 || kind == 0x15 then
      if i + 2 > |buf| then OutOfBounds else Ack(kind, ShortAt(buf, i))
    else Unmodelled
  }

  /** `sn_decode`. */
  method DecodeMessage(buf: Bytes) returns (m: Incoming)
    ensures m == Decode(buf)
  {
    if buf == [] { return OutOfBounds; }
    var i := 0;
    var length: int := buf[i];
    i := i + 1;
    if length == 1 {
      if |buf| < 3 { return OutOfBounds; }
      length := ShortAt(buf, i);
      i := i + 2;
    }
    var bytesLeft := length - i;
    if i == |buf| { return OutOfBounds; }
    var kind := buf[i];
    i := i + 1;
    bytesLeft := bytesLeft - 1;
    match kind {
      case 0x09 => m := DecodeWillMessage(buf, i, bytesLeft);
      case 0x0A => m := DecodeRegister(buf, i, bytesLeft);
      case 0x0C => m := DecodePublish(buf, i, bytesLeft);
      case 0x0B => m := DecodeTopicAck(kind, buf, i);
      case 0x0D => m := DecodeTopicAck(kind, buf, i);
      case 0x0E => m := DecodeAck(kind, buf, i);
      case 0x0F => m := DecodeAck(kind, buf, i);
      case 0x10 => m := DecodeAck(kind, buf, i);
      case 0x15 => m := DecodeAck(kind, buf, i);
      case _ => m := Unmodelled;
    }
  }

  method DecodeWillMessage(buf: Bytes, i: nat, bytesLeft: int) returns (m: Incoming)
    ensures m == DecodeBody(0x09, buf, i, bytesLeft)
  {
    var message := StringAt(buf, i, bytesLeft);
    if message.None? { return OutOfBounds; }
    return WillMessage(message.value);
  }

  method DecodeRegister(buf: Bytes, start: nat, bytes: int) returns (m: Incoming)
    ensures m == DecodeBody(0x0A, buf, start, bytes)
  {
    hide ShortAt;
    var i, bytesLeft := start, bytes;
    if i + 4 > |buf| { return OutOfBounds; }
    var topicId := ShortAt(buf, i);
    i := i + 2;
    bytesLeft := bytesLeft - 2;
    var messageId := ShortAt(buf, i);
    i := i + 2;
    bytesLeft := bytesLeft - 2;
    var name := StringAt(buf, i, bytesLeft);
    if name.None? { return OutOfBounds; }
    return Registering(topicId, messageId, name.value);
  }

  /** REGACK and PUBACK. */
  method DecodeTopicAck(kind: octet, buf: Bytes, start: nat) returns (m: Incoming)
    requires kind == 0x0B || kind == 0x0D
    ensures forall bytesLeft :: m == DecodeBody(kind, buf, start, bytesLeft)
  {
    hide ShortAt;
    var i := start;
    if i + 5 > |buf| { return OutOfBounds; }
    var topicId := ShortAt(buf, i);
    i := i + 2;
    var messageId := ShortAt(buf, i);
    i := i + 2;
    return TopicAck(kind, topicId, messageId, buf[i]);
  }

  /** PUBREC, PUBREL, PUBCOMP and UNSUBACK. */
  method DecodeAck(kind: octet, buf: Bytes, i: nat) returns (m: Incoming)
    requires kind == 0x0E || kind == 0x0F || kind == 0x10 || kind == 0x15
    ensures forall bytesLeft :: m == DecodeBody(kind, buf, i, bytesLeft)
  {
    if i + 2 > |buf| { return OutOfBounds; }
    return Ack(kind, ShortAt(buf, i));
  }

  method DecodePublish(buf: Bytes, start: nat, bytes: int) returns (m: Incoming)
    ensures m == DecodeBody(0x0C, buf, start, bytes)
  {
    var i, bytesLeft := start, bytes;
    if i + 5 > |buf| { return OutOfBounds; }
    var flags := DecodeFlag(buf[i]);
    i := i + 1;
    bytesLeft := bytesLeft - 1;
    var topicId := ShortAt(buf, i);
    i := i + 2;
    bytesLeft := bytesLeft - 2;
    var messageId := ShortAt(buf, i);
    i := i + 2;
    bytesLeft := bytesLeft - 2;
    if bytesLeft <= 0 { return UnsetData; }
    var data := StringAt(buf, i, bytesLeft);
    if data.None? { return OutOfBounds; }
    if flags.topicType == SHORT { return ShortTopic; }
    return Publishing(flags.dup, flags.qos, flags.retain, topicId, messageId, data.value);
  }

  // ---- Round trips ----

  /** What the length field says. */
  function Declared(p: Packet): nat {
    if GetLength(p) <= 255 then GetLength(p) else Low(GetLength(p))
  }

  lemma ThreeParts(buf: Bytes, field: Bytes, kind: octet, body: Bytes)
    requires At(buf, 0, field + [kind] + body)
    ensures At(buf, 0, field) && At(buf, |field|, [kind]) && At(buf, |field| + 1, body)
  {
    assert field + [kind] + body == field + ([kind] + body);
    AtParts(buf, 0, field, [kind] + body);
    AtParts(buf, |field|, [kind], body);
  }

  /** Past its length field, a packet is its type and its body, as long as is declared. */
  lemma LayoutParts(p: Packet, buf: Bytes)
    requires Sendable(p) && At(buf, 0, Layout(p))
    ensures var i := |LengthField(GetLength(p))| + 1;
      && At(buf, i, Body(p)) && LengthFieldAt(buf) == Some((Declared(p), i - 1))
      && Decode(buf) == DecodeBody(TypeOf(p), buf, i, Declared(p) - i)
  {
    hide Body, GetLength, TypeOf, Sendable, DecodeBody, ShortAt, LengthFieldAt;
    assert Layout(p) == LengthField(GetLength(p)) + [TypeOf(p)] + Body(p);
    ThreeParts(buf, LengthField(GetLength(p)), TypeOf(p), Body(p));
    LengthIsNotOne(p);
    LengthFieldDecodes(GetLength(p), buf);
    AtOctet(buf, |LengthField(GetLength(p))|, [TypeOf(p)]);
  }

  lemma LengthIsNotOne(p: Packet)
    ensures GetLength(p) >= 2
  {
  }

  /** A packet is at least two octets long, so a first octet of one cannot be a length. */
  lemma LengthFieldDecodes(n: nat, buf: Bytes)
    requires n != 1 && At(buf, 0, LengthField(n))
    ensures LengthFieldAt(buf) == Some((if n <= 255 then n else Low(n), |LengthField(n)|))
  {
    AtOctet(buf, 0, LengthField(n));
    if n > 255 {
      AtParts(buf, 0, [1], Short(Low(n)));
      ShortRoundTrip(buf, 1, Low(n));
    }
  }

  /** The length field declares the length that is sent exactly below 65536. */
  lemma LengthIsDeclared(p: Packet, buf: Bytes)
    requires At(buf, 0, LengthField(GetLength(p)))
    ensures LengthFieldAt(buf) == Some((GetLength(p), |LengthField(GetLength(p))|)) <==> Declarable(p)
  {
    LengthIsNotOne(p);
    LengthFieldDecodes(GetLength(p), buf);
    hide GetLength, LengthFieldAt, LengthField, Low;
  }

  /** Two shorts in front of the rest. */
  lemma TwoShorts(buf: Bytes, i: nat, m: int, n: int, rest: Bytes)
    requires IsShort(m) && IsShort(n) && At(buf, i, Short(m) + Short(n) + rest)
    ensures |Short(m) + Short(n) + rest| == 4 + |rest| && At(buf, i + 4, rest)
    ensures ShortAt(buf, i) == m && ShortAt(buf, i + 2) == n
  {
    hide Short, ShortAt;
    AtParts(buf, i, Short(m) + Short(n), rest);
    AtParts(buf, i, Short(m), Short(n));
    ShortRoundTrip(buf, i, m);
    ShortRoundTrip(buf, i + 2, n);
  }

  /** The octets of the body that the length field of a REGISTER declares. */
  lemma RegisterLeft(p: Packet)
    requires p.Register?
    ensures var left := Declared(p) - |LengthField(GetLength(p))| - 1;
      if Declarable(p) then left == 4 + |p.name| else left < 4 + |p.name|
  {
    hide Low, Short;
  }

  /** REGISTER comes back, whatever follows it, exactly when its length is declared. */
  lemma RegisterRoundTrip(p: Packet, buf: Bytes)
    requires p.Register? && Sendable(p) && At(buf, 0, Layout(p))
    ensures Decode(buf) == Registering(p.topicId, p.messageId, p.name) <==> Declarable(p)
  {
    LayoutParts(p, buf);
    RegisterLeft(p);
    ShortWhenDeclared(p);
    hide LengthField, Decode, Short, ShortAt, Layout, LengthFieldAt, Cut, Low, GetLength, Declared, Declarable;
    TwoShorts(buf, |LengthField(GetLength(p))| + 1, p.topicId, p.messageId, Cut(p.name));
  }

  lemma ShortWhenDeclared(p: Packet)
    ensures Declarable(p) ==> Cut(StringOf(p)) == StringOf(p)
  {
  }

  lemma WillMsgRoundTrip(p: Packet, buf: Bytes)
    requires p.WillMsg? && Sendable(p) && At(buf, 0, Layout(p))
    ensures Decode(buf) == WillMessage(p.message) <==> Declarable(p)
  {
    LayoutParts(p, buf);
    hide LengthField, Decode, Layout, LengthFieldAt, Cut, Low;
  }

  lemma PublishBody(p: Packet)
    requires p.Publish? && Sendable(p)
    ensures Body(p) ==
      [EncodeFlags(Plain(p.dup, p.qos, p.retain, ID))] + (Short(p.topicId) + (Short(p.messageId) + Cut(p.data)))
  {
    hide EncodeFlags, Short, Cut;
  }

  lemma PublishParts(p: Packet, buf: Bytes, i: nat)
    requires p.Publish? && Sendable(p) && At(buf, i, Body(p))
    ensures |Body(p)| == 5 + |Cut(p.data)| && At(buf, i + 5, Cut(p.data))
    ensures buf[i] == EncodeFlags(Plain(p.dup, p.qos, p.retain, ID))
    ensures ShortAt(buf, i + 1) == p.topicId && ShortAt(buf, i + 3) == p.messageId
  {
    hide Short, ShortAt, EncodeFlags, Cut, Body, At;
    PublishBody(p);
    var flags, topicId, messageId := [EncodeFlags(Plain(p.dup, p.qos, p.retain, ID))], Short(p.topicId), Short(p.messageId);
    var data := Cut(p.data);
    AtParts(buf, i, flags, topicId + (messageId + data));
    AtParts(buf, i + 1, topicId, messageId + data);
    AtParts(buf, i + 3, messageId, data);
    AtOctet(buf, i, flags);
    ShortRoundTrip(buf, i + 1, p.topicId);
    ShortRoundTrip(buf, i + 3, p.messageId);
  }

  /** Where its fields are, the data is what the declared length leaves. */
  lemma PublishDecodes(p: Packet, buf: Bytes, i: nat, bytesLeft: int)
    requires p.Publish? && Sendable(p) && At(buf, i, Body(p))
    ensures DecodeBody(0x0C, buf, i, bytesLeft) ==
      if bytesLeft <= 5 then UnsetData
      else if i + bytesLeft > |buf| then OutOfBounds
      else Publishing(p.dup, p.qos, p.retain, p.topicId, p.messageId, buf[i + 5..i + bytesLeft])
  {
    hide Short, ShortAt, EncodeFlags, DecodeFlags, Body, Cut, Low, StringOf;
    PublishParts(p, buf, i);
    FlagsRoundTrip(Plain(p.dup, p.qos, p.retain, ID));
  }

  lemma PublishData(p: Packet, buf: Bytes, i: nat)
    requires p.Publish? && Sendable(p) && At(buf, i, Body(p)) && Declarable(p)
    ensures i + 5 + |p.data| <= |buf| && buf[i + 5..i + 5 + |p.data|] == p.data
  {
    hide EncodeFlags, Short, ShortAt, Body;
    PublishParts(p, buf, i);
  }

  /** The octets of the body that the length field of a PUBLISH declares. */
  lemma PublishLeft(p: Packet)
    requires p.Publish?
    ensures var left := Declared(p) - |LengthField(GetLength(p))| - 1;
      && (Declarable(p) ==> left == 5 + |p.data|)
      && (!Declarable(p) ==> left == Low(GetLength(p)) - 4 && left < 5 + |p.data| && p.data != [])
  {
    hide Low, Short;
  }

  /** A PUBLISH comes back exactly when it has data and its length is declared.  When
      what is declared leaves no data, an unset pointer is followed. */
  lemma PublishRoundTrip(p: Packet, buf: Bytes)
    requires p.Publish? && Sendable(p) && At(buf, 0, Layout(p))
    ensures Decode(buf) == Publishing(p.dup, p.qos, p.retain, p.topicId, p.messageId, p.data)
      <==> p.data != [] && Declarable(p)
    ensures Decode(buf) == UnsetData <==> p.data == [] || (!Declarable(p) && Low(GetLength(p)) <= 9)
  {
    LayoutParts(p, buf);
    PublishLeft(p);
    hide Decode, DecodeBody, Layout, Body, LengthFieldAt, Low, LengthField, GetLength, Declared, Declarable, Sendable, At;
    var i := |LengthField(GetLength(p))| + 1;
    var left := Declared(p) - i;
    PublishDecodes(p, buf, i, left);
    if Declarable(p) {
      PublishData(p, buf, i);
    } else if 5 < left && i + left <= |buf| {
      assert |buf[i + 5..i + left]| != |p.data|;
    }
  }

  lemma TopicAckRoundTrip(p: Packet, buf: Bytes)
    requires (p.Regack? || p.Puback?) && Sendable(p) && At(buf, 0, Layout(p))
    ensures Decode(buf) == TopicAck(if p.Regack? then 0x0B else 0x0D, p.topicId, p.messageId, p.code)
  {
    LayoutParts(p, buf);
    hide Short, ShortAt, Decode, LengthField;
    assert |LengthField(GetLength(p))| == 1;
    TwoShorts(buf, 2, p.topicId, p.messageId, [p.code]);
    AtOctet(buf, 6, [p.code]);
  }

  lemma AckRoundTrip(p: Packet, buf: Bytes)
    requires (p.Pubcomp? || p.Pubrec? || p.Pubrel?) && Sendable(p) && At(buf, 0, Layout(p))
    ensures Decode(buf) == Ack(if p.Pubcomp? then 0x0E else if p.Pubrec? then 0x0F else 0x10, p.messageId)
  {
    LayoutParts(p, buf);
    hide Short, ShortAt, Decode, LengthField;
    assert |LengthField(GetLength(p))| == 1;
    ShortRoundTrip(buf, 2, p.messageId);
  }
}
