/**
 MQTT packets in octets: parser.c for the packets the client sends, and the
 remaining length of helpers.c (section 2.2.3 of MQTT 3.1.1).
 */
module MqttCodec {
  import opened Octets
  import opened Buffers

  const MAX_LENGTH := 268435455

  // ---- The remaining length ----

  /** `add_packet_length`: seven bits an octet, the least significant first. */
  function Digits(n: nat): (r: Bytes)
    ensures r != []
  {
    if n < 128 then [n] else [n % 128 + 128] + Digits(n / 128)
  }

  lemma DigitsLength(n: nat)
    requires n <= MAX_LENGTH
    ensures |Digits(n)| == if n <= 127 then 1 else if n <= 16383 then 2 else if n <= 2097151 then 3 else 4
  {
    if n <= 127 {
    } else {
      DigitsLength(n / 128);
    }
  }

  /** `remaining_length`, which nothing in the program calls. */
  function RemainingLength(length: int): int {
    if length <= 127 then 1
    else if length <= 16383 then 2
    else if length <= 2097151 then 3
    else if length <= 26843545 then 4
    else 0
  }

  /** Its last limit lacks a digit, so it is right up to there and no further. */
  lemma RemainingLengthIsShort(n: nat)
    requires n <= MAX_LENGTH
    ensures RemainingLength(n) == |Digits(n)| <==> n <= 26843545
  {
    DigitsLength(n);
  }

  lemma DigitsAt(done: Bytes, n: nat)
    ensures n < 128 ==> done + Digits(n) == done + [n]
    ensures n >= 128 ==> done + Digits(n) == done + [n % 128 + 128] + Digits(n / 128)
  {
    if n >= 128 {
      assert done + ([n % 128 + 128] + Digits(n / 128)) == done + [n % 128 + 128] + Digits(n / 128);
    }
  }

  /** Writes from the second octet on; returns where the next octet goes. */
  method AddPacketLength(length: nat, remainingLength: array<octet>) returns (pos: nat)
    requires length <= MAX_LENGTH && remainingLength.Length >= 5
    modifies remainingLength
    ensures pos == 1 + |Digits(length)|
    ensures pos <= remainingLength.Length && remainingLength[..pos] == [old(remainingLength[0])] + Digits(length)
  {
    DigitsLength(length);
    var l := length;
    pos := 1;
    ghost var first := [remainingLength[0]];
    assert remainingLength[..1] == first;
    while true
      invariant 1 <= pos <= 4 && pos + |Digits(l)| == 1 + |Digits(length)|
      invariant remainingLength[..pos] + Digits(l) == first + Digits(length)
      decreases l
    {
      var digit := l % 128;
      DigitsAt(remainingLength[..pos], l);
      l := l / 128;
      if l > 0 {
        pos := Put(remainingLength, pos, digit + 128);
      } else {
        pos := Put(remainingLength, pos, digit);
        return;
      }
    }
  }

  datatype LengthDetails = LengthDetails(length: int, bytesUsed: int)

  function Scale(used: nat): nat {
    match used
    case 0 => 1
    case 1 => 128
    case 2 => 128 * 128
    case 3 => 128 * 128 * 128
    case _ => 128 * 128 * 128 * 128
  }

  /** `enc & 0x7f`. */
  function DigitOf(enc: int): int {
    enc % 128
  }

  /** The loop of `decode_remaining_length`; None when it runs off the buffer. */
  function LengthFrom(buf: Bytes, used: nat, length: nat): Option<LengthDetails>
    requires used <= 4
    decreases 4 - used
  {
    if Scale(used) > 128 * 128 * 128 then Some(LengthDetails(-1, -1))
    else if 1 + used >= |buf| then None
    else
      var enc: int := buf[1 + used];
      var total := length + DigitOf(enc) * Scale(used);
      if enc >= 128 then LengthFrom(buf, used + 1, total)
      else Some(LengthDetails(total + 1 + used + 1, used + 1))
  }

  function DecodeLength(buf: Bytes): Option<LengthDetails> {
    LengthFrom(buf, 0, 0)
  }

  /** `decode_remaining_length`. */
  method DecodeRemainingLength(buf: Bytes) returns (details: Option<LengthDetails>)
    ensures details == DecodeLength(buf)
  {
    var i, length, multiplier, bytesUsed := 1, 0, 1, 0;
    while true
      invariant i == 1 + bytesUsed && 0 <= bytesUsed <= 4 && multiplier == Scale(bytesUsed)
      invariant 0 <= length && LengthFrom(buf, bytesUsed, length) == DecodeLength(buf)
      decreases 4 - bytesUsed
    {
      if multiplier > 128 * 128 * 128 {
        return Some(LengthDetails(-1, -1));
      }
      if i >= |buf| {
        return None;
      }
      var enc: int := buf[i];
      i := i + 1;
      length := length + DigitOf(enc) * multiplier;
      multiplier := multiplier * 128;
      bytesUsed := bytesUsed + 1;
      if enc < 128 {
        return Some(LengthDetails(length + 1 + bytesUsed, bytesUsed));
      }
    }
  }

  lemma ScaleStep(used: nat, n: nat)
    requires used <= 3
    ensures n % 128 * Scale(used) + n / 128 * Scale(used + 1) == n * Scale(used)
  {
    var low, high := n % 128, n / 128;
    assert n == 128 * high + low;
    match used {
      case 0 =>
      case 1 =>
      case 2 =>
      case _ =>
    }
  }

  lemma {:induction false} DigitsDecode(buf: Bytes, used: nat, length: nat, n: nat)
    requires used + |Digits(n)| <= 4 && At(buf, 1 + used, Digits(n))
    ensures LengthFrom(buf, used, length)
         == Some(LengthDetails(length + n * Scale(used) + 1 + used + |Digits(n)|, used + |Digits(n)|))
    decreases n
  {
    AtOctet(buf, 1 + used, Digits(n));
    if n < 128 {
    } else {
      AtParts(buf, 1 + used, [n % 128 + 128], Digits(n / 128));
      ScaleStep(used, n);
      var total := length + n % 128 * Scale(used);
      DigitsDecode(buf, used + 1, total, n / 128);
      assert DigitOf(buf[1 + used]) == n % 128;
      hide Digits, At, Scale;
    }
  }

  /** Every length up to the maximum takes at most four octets and comes back, with the
      fixed header counted in. */
  lemma LengthRoundTrip(buf: Bytes, n: nat)
    requires n <= MAX_LENGTH && At(buf, 1, Digits(n))
    ensures |Digits(n)| <= 4
    ensures DecodeLength(buf) == Some(LengthDetails(n + 1 + |Digits(n)|, |Digits(n)|))
  {
    DigitsLength(n);
    DigitsDecode(buf, 0, 0, n);
  }

  // ---- Packets ----

  datatype Will = Will(topic: Bytes, content: Bytes, qos: int, retain: bool)

  /** What the client sends.  SUBSCRIBE and UNSUBSCRIBE always carry one topic. */
  datatype Packet =
    | Connect(username: Bytes, password: Bytes, clientId: Bytes, cleanSession: bool, will: Option<Will>, keepAlive: int)
    | Publish(topic: Bytes, content: Bytes, qos: int, retain: bool, dup: bool, id: int)
    | Puback(id: int)
    | Pubrec(id: int)
    | Pubrel(id: int)
    | Pubcomp(id: int)
    | Subscribe(topic: Bytes, qos: int, id: int)
    | Unsubscribe(topic: Bytes, id: int)
    | Pingreq
    | Disconnect

  /** What a `char *` can hold. */
  predicate CString(s: Bytes) {
    0 !in s
  }

  predicate IsQos(n: int) {
    0 <= n <= 2
  }

  /** The values the C types admit, and a length that can be declared. */
  predicate Sendable(p: Packet) {
    && GetLength(p) <= MAX_LENGTH
    && match p
      case Connect(username, password, clientId, _, will, keepAlive) =>
        CString(username) && CString(password) && CString(clientId) && IsShort(keepAlive)
        && (will.Some? ==> CString(will.value.topic) && CString(will.value.content) && IsQos(will.value.qos))
      case Publish(topic, content, qos, _, _, id) => CString(topic) && CString(content) && IsQos(qos) && IsShort(id)
      case Subscribe(topic, qos, id) => CString(topic) && IsQos(qos) && IsShort(id)
      case Unsubscribe(topic, id) => CString(topic) && IsShort(id)
      case Pingreq => true
      case Disconnect => true
      case _ => IsShort(p.id)
  }

  function GetLength(p: Packet): nat {
    match p
    case Connect(username, password, clientId, _, will, _) =>
      10 + |clientId| + 2
      + (if will.Some? then |will.value.content| + |will.value.topic| + 4 else 0)
      + (if username != [] then |username| + 2 else 0)
      + (if password != [] then |password| + 2 else 0)
    case Publish(topic, content, _, _, _, id) => (if id != 0 then 2 else 0) + |topic| + 2 + |content|
    case Subscribe(topic, _, _) => 2 + |topic| + 3
    case Unsubscribe(topic, _) => 2 + |topic| + 2
    case Pingreq => 0
    case Disconnect => 0
    case _ => 2
  }

  function Header(p: Packet): octet
    requires Sendable(p)
  {
    match p
    case Connect(_, _, _, _, _, _) => 0x10
    case Publish(_, _, qos, retain, dup, _) => 0x30 + Bit(dup, 8) + 2 * qos + Bit(retain, 1)
    case Puback(_) => 0x40
    case Pubrec(_) => 0x50
    case Pubrel(_) => 0x62
    case Pubcomp(_) => 0x70
    case Subscribe(_, _, _) => 0x82
    case Unsubscribe(_, _) => 0xA2
    case Pingreq => 0xC2
    case Disconnect => 0xE2
  }

  function ContentFlags(p: Packet): octet
    requires p.Connect? && Sendable(p)
  {
    Bit(p.cleanSession, 0x02)
    + (if p.will.Some? then 0x04 + 8 * p.will.value.qos + Bit(p.will.value.retain, 0x20) else 0)
    + Bit(p.username != [], 0x40) + Bit(p.password != [], 0x80)
  }

  /** The length of a string goes through an `unsigned short`. */
  function Counted(s: Bytes): (r: Bytes)
    ensures |r| == 2 + |s| % SHORT_SPACE
  {
    Short(|s| % SHORT_SPACE) + s[..|s| % SHORT_SPACE]
  }

  /** A string that is skipped when it counts no octets. */
  function Text(s: Bytes): Bytes {
    if |s| % SHORT_SPACE == 0 then [] else Counted(s)
  }

  function WillBytes(will: Option<Will>): Bytes {
    if will.Some? then Text(will.value.topic) + Text(will.value.content) else []
  }

  function Body(p: Packet): Bytes
    requires Sendable(p)
  {
    match p
    case Connect(username, password, clientId, _, will, keepAlive) =>
      [0, 4] + PROTOCOL_NAME + [4, ContentFlags(p)] + Short(keepAlive) + Counted(clientId)
      + WillBytes(will) + Text(username) + Text(password)
    case Publish(topic, content, _, _, _, id) => Text(topic) + (if id != 0 then Short(id) else []) + content
    case Subscribe(topic, qos, id) => Short(id) + Text(topic) + [qos]
    case Unsubscribe(topic, id) => Short(id) + Text(topic)
    case Pingreq => []
    case Disconnect => []
    case _ => Short(p.id)
  }

  const PROTOCOL_NAME: Bytes := [0x4D, 0x51, 0x54, 0x54]

  /** What `encode` writes. */
  function Layout(p: Packet): Bytes
    requires Sendable(p)
  {
    [Header(p)] + Digits(GetLength(p)) + Body(p)
  }

  /** Every string fits its count, and those the format requires are not empty. */
  predicate StringsFit(p: Packet) {
    match p
    case Connect(username, password, clientId, _, will, _) =>
      && |clientId| < SHORT_SPACE
      && (will.Some? ==> 0 < |will.value.topic| < SHORT_SPACE && 0 < |will.value.content| < SHORT_SPACE)
      && |username| < SHORT_SPACE && |password| < SHORT_SPACE
    case Publish(topic, _, _, _, _, _) => 0 < |topic| < SHORT_SPACE
    case Subscribe(topic, _, _) => 0 < |topic| < SHORT_SPACE
    case Unsubscribe(topic, _) => 0 < |topic| < SHORT_SPACE
    case _ => true
  }

  lemma TextLength(s: Bytes)
    ensures |Counted(s)| <= |s| + 2 && (|Counted(s)| == |s| + 2 <==> |s| < SHORT_SPACE)
    ensures |Text(s)| <= |s| + 2 && (|Text(s)| == |s| + 2 <==> 0 < |s| < SHORT_SPACE)
    ensures |Text(s)| <= (if s != [] then |s| + 2 else 0)
    ensures |Text(s)| == (if s != [] then |s| + 2 else 0) <==> |s| < SHORT_SPACE
  {
  }

  /**
   The declared length is never less than what is laid out, and equal to it exactly
   when the strings fit.  `encode_and_fire` sends the declared number of octets.
   */
  lemma LengthAgrees(p: Packet)
    requires Sendable(p)
    ensures |Body(p)| <= GetLength(p)
    ensures |Body(p)| == GetLength(p) <==> StringsFit(p)
  {
    hide Text, Counted, Sendable;
    match p {
      case Connect(username, password, clientId, _, will, _) =>
        TextLength(username);
        TextLength(password);
        TextLength(clientId);
        if will.Some? {
          TextLength(will.value.topic);
          TextLength(will.value.content);
        }
      case Publish(topic, _, _, _, _, _) => TextLength(topic);
      case Subscribe(topic, _, _) => TextLength(topic);
      case Unsubscribe(topic, _) => TextLength(topic);
      case _ =>
    }
  }

  method AddCounted(buf: array<octet>, i: nat, s: Bytes) returns (j: nat)
    requires i + |Counted(s)| <= buf.Length
    modifies buf
    ensures j == i + |Counted(s)| && buf[..j] == old(buf[..i]) + Counted(s)
  {
    var stringLength := |s| % SHORT_SPACE;
    j := AddShort(buf, i, stringLength);
    j := Copy(buf, j, s[..stringLength]);
    assert old(buf[..i]) + Short(stringLength) + s[..stringLength] == old(buf[..i]) + Counted(s);
  }

  method AddText(buf: array<octet>, i: nat, s: Bytes) returns (j: nat)
    requires i + |Text(s)| <= buf.Length
    modifies buf
    ensures j == i + |Text(s)| && buf[..j] == old(buf[..i]) + Text(s)
  {
    j := i;
    if |s| % SHORT_SPACE != 0 {
      j := AddCounted(buf, i, s);
    } else {
      assert old(buf[..i]) + [] == old(buf[..i]);
    }
  }

  /** The room `encode` allocates is enough for the longest length. */
  lemma RoomIsEnough(p: Packet)
    requires Sendable(p)
    ensures |Layout(p)| <= GetLength(p) + 5
  {
    LengthAgrees(p);
    DigitsLength(GetLength(p));
  }

  lemma LengthIsDeclarable(p: Packet)
    requires Sendable(p)
    ensures GetLength(p) <= MAX_LENGTH
  {
  }

  /** `encode`, of a buffer `length + 5` octets long. */
  method Encode(p: Packet) returns (buf: array<octet>)
    requires Sendable(p)
    ensures fresh(buf) && buf.Length == GetLength(p) + 5
    ensures |Layout(p)| <= buf.Length && buf[..|Layout(p)|] == Layout(p)
  {
    RoomIsEnough(p);
    LengthIsDeclarable(p);
    hide Digits, Body, GetLength, Sendable;
    buf := new octet[GetLength(p) + 5];
    buf[0] := Header(p);
    var i := AddPacketLength(GetLength(p), buf);
    i := EncodeBody(buf, i, p);
  }

  /** The cases of the switch, from the end of the fixed header on. */
  method EncodeBody(buf: array<octet>, start: nat, p: Packet) returns (i: nat)
    requires Sendable(p) && start + |Body(p)| <= buf.Length
    modifies buf
    ensures i == start + |Body(p)| && buf[..i] == old(buf[..start]) + Body(p)
  {
    hide Text, Counted, Short, ContentFlags;
    ghost var front := buf[..start];
    i := start;
    match p {
      case Connect(_, _, _, _, _, _) => i := EncodeConnect(buf, i, p);
      case Publish(topic, content, _, _, _, id) =>
        i := AddText(buf, i, topic);
        ghost var idBytes := if id != 0 then Short(id) else [];
        if id != 0 { i := AddShort(buf, i, id); }
        assert buf[..i] == front + (Text(topic) + idBytes);
        i := Copy(buf, i, content);
        Join(front, Text(topic) + idBytes, content);
      case Subscribe(topic, qos, id) =>
        i := AddShort(buf, i, id);
        i := AddText(buf, i, topic);
        i := Put(buf, i, qos);
        Join(front, Short(id), Text(topic));
        Join(front, Short(id) + Text(topic), [qos]);
      case Unsubscribe(topic, id) =>
        i := AddShort(buf, i, id);
        i := AddText(buf, i, topic);
        Join(front, Short(id), Text(topic));
      case Pingreq => assert front + [] == front;
      case Disconnect => assert front + [] == front;
      case _ => i := AddShort(buf, i, p.id);
    }
  }

  method EncodeConnect(buf: array<octet>, start: nat, p: Packet) returns (i: nat)
    requires p.Connect? && Sendable(p) && start + |Body(p)| <= buf.Length
    modifies buf
    ensures i == start + |Body(p)| && buf[..i] == old(buf[..start]) + Body(p)
  {
    hide Text, Counted, Short, ContentFlags;
    ghost var front := buf[..start];
    ghost var done := [0, 4] + PROTOCOL_NAME + [4, ContentFlags(p)] + Short(p.keepAlive);
    i := Copy(buf, start, [0, 4]);
    i := Copy(buf, i, PROTOCOL_NAME);
    i := Copy(buf, i, [4, ContentFlags(p)]);
    i := AddShort(buf, i, p.keepAlive);
    assert buf[..i] == front + done;
    i := AddCounted(buf, i, p.clientId);
    Join(front, done, Counted(p.clientId));
    done := done + Counted(p.clientId);
    i := AddWill(buf, i, p.will);
    Join(front, done, WillBytes(p.will));
    done := done + WillBytes(p.will);
    i := AddText(buf, i, p.username);
    Join(front, done, Text(p.username));
    done := done + Text(p.username);
    i := AddText(buf, i, p.password);
    Join(front, done, Text(p.password));
  }

  method AddWill(buf: array<octet>, i: nat, will: Option<Will>) returns (j: nat)
    requires i + |WillBytes(will)| <= buf.Length
    modifies buf
    ensures j == i + |WillBytes(will)| && buf[..j] == old(buf[..i]) + WillBytes(will)
  {
    hide Text;
    j := i;
    if will.Some? {
      j := AddText(buf, j, will.value.topic);
      j := AddText(buf, j, will.value.content);
      Join(old(buf[..i]), Text(will.value.topic), Text(will.value.content));
    } else {
      assert old(buf[..i]) + [] == old(buf[..i]);
    }
  }

  // ---- Decoding ----

  /** What `decode` makes of a buffer; None is a field left unset. */
  datatype Incoming =
    | Publishing(topic: Bytes, content: Option<Bytes>, qos: int, retain: bool, dup: bool, id: Option<int>)
    | Acknowledging(kind: int, packetId: int)
    | Refused                         // returned without a packet
    | OutOfBounds                     // reads outside the buffer
    | Unmodelled

  /** The fixed header of a packet and the flags in its low half. */
  function KindOf(h: int): int {
    h / 16
  }

  predicate DupOf(h: int) {
    h % 16 / 8 == 1
  }

  function QosOf(h: int): int {
    h % 16 % 8 / 2
  }

  predicate RetainOf(h: int) {
    h % 16 % 2 == 1
  }

  /** The PUBLISH case. */
  function DecodePublish(buf: Bytes): Incoming
    requires buf != []
  {
    LengthIsPositive(buf);
    var dup, qos, retain := DupOf(buf[0]), QosOf(buf[0]), RetainOf(buf[0]);
    var details := DecodeLength(buf);
    if details.None? then OutOfBounds
    else if qos > 2 || (dup && qos == 0) then Refused
    else TopicAt(buf, 1 + details.value.bytesUsed, details.value.length, qos, retain, dup)
  }

  function TopicAt(buf: Bytes, i: int, length: int, qos: int, retain: bool, dup: bool): Incoming
    requires 0 <= i
  {
    if i + 2 > |buf| || i + 2 + ShortAt(buf, i) > |buf| then OutOfBounds
    else
      var j := i + 2 + ShortAt(buf, i);
      var topic := buf[i + 2..j];
      if qos == 0 then ContentAt(buf, j, length, Publishing(topic, None, qos, retain, dup, None))
      else if j + 2 > |buf| then OutOfBounds
      else ContentAt(buf, j + 2, length, Publishing(topic, None, qos, retain, dup, Some(ShortAt(buf, j))))
  }

  /** The content is what the declared length leaves, if it leaves anything. */
  function ContentAt(buf: Bytes, i: nat, length: int, p: Incoming): Incoming
    requires p.Publishing?
  {
    if length - i <= 0 then p
    else if length > |buf| then OutOfBounds
    else p.(content := Some(buf[i..length]))
  }

  lemma LengthIsPositive(buf: Bytes)
    ensures DecodeLength(buf).Some? ==> DecodeLength(buf).value.bytesUsed >= -1
  {
    BytesUsed(buf, 0, 0);
  }

  lemma {:induction false} BytesUsed(buf: Bytes, used: nat, length: nat)
    requires used <= 4
    ensures LengthFrom(buf, used, length).Some? ==> LengthFrom(buf, used, length).value.bytesUsed >= -1
    decreases 4 - used
  {
    if used == 4 || 1 + used >= |buf| {
    } else {
      var enc: int := buf[1 + used];
      BytesUsed(buf, used + 1, length + DigitOf(enc) * Scale(used));
    }
  }

  predicate IsAck(kind: int) {
    kind in {4, 5, 6, 7, 11}
  }

  function Decode(buf: Bytes): Incoming {
    if buf == [] then OutOfBounds
    else if KindOf(buf[0]) == 3 then DecodePublish(buf)
    else if !IsAck(KindOf(buf[0])) then Unmodelled
    else if |buf| < 4 then OutOfBounds
    else Acknowledging(KindOf(buf[0]), ShortAt(buf, 2))
  }

  /** `decode`, for PUBLISH and the acknowledgements. */
  method DecodeMessage(buf: Bytes) returns (m: Incoming)
    ensures m == Decode(buf)
  {
    if buf == [] { return OutOfBounds; }
    var i := 0;
    var fixedHeader: int := buf[i];
    i := i + 1;
    var kind := KindOf(fixedHeader);
    if kind == 3 {
      m := DecodePublishPacket(buf, i, fixedHeader);
    } else if kind == 4 || kind == 5 || kind == 6 || kind == 7 || kind == 11 {
      i := i + 1;
      if i + 2 > |buf| { return OutOfBounds; }
      return Acknowledging(kind, ShortAt(buf, i));
    } else {
      return Unmodelled;
    }
  }

  method DecodePublishPacket(buf: Bytes, start: nat, fixedHeader: int) returns (m: Incoming)
    requires start == 1 && buf != [] && fixedHeader == buf[0]
    ensures m == DecodePublish(buf)
  {
    LengthIsPositive(buf);
    var details := DecodeRemainingLength(buf);
    if details.None? { return OutOfBounds; }
    var i := start + details.value.bytesUsed;
    var dup, qos, retain := DupOf(fixedHeader), QosOf(fixedHeader), RetainOf(fixedHeader);
    if qos > 2 { return Refused; }
    if dup && qos == 0 { return Refused; }
    if i + 2 > |buf| { return OutOfBounds; }
    var topicLength := ShortAt(buf, i);
    i := i + 2;
    if i + topicLength > |buf| { return OutOfBounds; }
    var topic := buf[i..i + topicLength];
    i := i + topicLength;
    var id := None;
    if qos != 0 {
      if i + 2 > |buf| { return OutOfBounds; }
      id := Some(ShortAt(buf, i));
      i := i + 2;
    }
    var content := None;
    var dataLength := details.value.length - i;
    if dataLength > 0 {
      if i + dataLength > |buf| { return OutOfBounds; }
      content := Some(buf[i..i + dataLength]);
    }
    return Publishing(topic, content, qos, retain, dup, id);
  }

  // ---- PUBLISH comes back ----

  /** The packet as the receiver should see it. */
  function AsReceived(p: Packet): Incoming
    requires p.Publish?
  {
    Publishing(p.topic, Some(p.content), p.qos, p.retain, p.dup, if p.qos > 0 then Some(p.id) else None)
  }

  /** A topic that fits its count, some content, an identifier exactly above QoS 0, and
      no repetition at QoS 0. */
  predicate Faithful(p: Packet)
    requires p.Publish?
  {
    StringsFit(p) && p.content != [] && (p.id != 0 <==> p.qos > 0) && (p.dup ==> p.qos > 0)
  }

  lemma HeaderBits(p: Packet)
    requires p.Publish? && Sendable(p)
    ensures var h := Header(p); KindOf(h) == 3 && DupOf(h) == p.dup && QosOf(h) == p.qos && RetainOf(h) == p.retain
  {
    assert p.qos == 0 || p.qos == 1 || p.qos == 2;
  }

  lemma LayoutParts(p: Packet, buf: Bytes)
    requires Sendable(p) && At(buf, 0, Layout(p))
    ensures buf != [] && buf[0] == Header(p)
    ensures var used := |Digits(GetLength(p))|;
      && DecodeLength(buf) == Some(LengthDetails(GetLength(p) + 1 + used, used))
      && At(buf, 1 + used, Body(p))
  {
    hide Header, Digits, Body, GetLength, Sendable, DecodeLength;
    var h, d := [Header(p)], Digits(GetLength(p));
    assert Layout(p) == h + (d + Body(p));
    AtParts(buf, 0, h, d + Body(p));
    AtParts(buf, 1, d, Body(p));
    AtOctet(buf, 0, h);
    LengthIsDeclarable(p);
    LengthRoundTrip(buf, GetLength(p));
  }

  lemma TextAt(buf: Bytes, i: nat, s: Bytes)
    requires 0 < |s| < SHORT_SPACE && At(buf, i, Text(s))
    ensures |Text(s)| == 2 + |s| && i + 2 + |s| <= |buf|
    ensures ShortAt(buf, i) == |s| && buf[i + 2..i + 2 + |s|] == s
  {
    assert s[..|s|] == s;
    AtParts(buf, i, Short(|s|), s);
    ShortRoundTrip(buf, i, |s|);
  }

  lemma QosIsSmall(p: Packet)
    requires p.Publish? && Sendable(p)
    ensures 0 <= p.qos <= 2
  {
    hide GetLength, CString;
  }

  function IdBytes(p: Packet): Bytes
    requires p.Publish? && Sendable(p)
  {
    if p.id != 0 then Short(p.id) else []
  }

  lemma PublishBody(p: Packet)
    requires p.Publish? && Sendable(p)
    ensures |IdBytes(p)| == if p.id != 0 then 2 else 0
    ensures Body(p) == Text(p.topic) + (IdBytes(p) + p.content)
  {
    hide Text, Short;
  }

  /** The topic, the identifier and the content, where the decoder looks for them. */
  lemma BodyParts(p: Packet, buf: Bytes, i: nat)
    requires p.Publish? && Sendable(p) && 0 < |p.topic| < SHORT_SPACE && At(buf, i, Body(p))
    ensures var j := i + 2 + |p.topic|;
      && j <= |buf| && ShortAt(buf, i) == |p.topic| && buf[i + 2..j] == p.topic
      && (p.id != 0 ==> j + 2 <= |buf| && ShortAt(buf, j) == p.id)
      && At(buf, j + |IdBytes(p)|, p.content)
      && i + |Body(p)| == j + |IdBytes(p)| + |p.content|
  {
    hide Body, ShortAt, IdBytes, Text, Sendable;
    PublishBody(p);
    AtParts(buf, i, Text(p.topic), IdBytes(p) + p.content);
    TextAt(buf, i, p.topic);
    var j := i + 2 + |p.topic|;
    AtParts(buf, j, IdBytes(p), p.content);
    if p.id != 0 { IdAt(p, buf, j); }
  }

  /** What stands after the fixed header comes back. */
  lemma BodyComesBack(p: Packet, buf: Bytes, i: nat)
    requires p.Publish? && Sendable(p) && Faithful(p) && At(buf, i, Body(p))
    ensures TopicAt(buf, i, i + |Body(p)|, p.qos, p.retain, p.dup) == AsReceived(p)
  {
    hide Body, ShortAt, IdBytes, Text, Sendable, CString;
    QosIsSmall(p);
    PublishBody(p);
    BodyParts(p, buf, i);
  }

  lemma IdAt(p: Packet, buf: Bytes, i: nat)
    requires p.Publish? && Sendable(p) && p.id != 0 && At(buf, i, IdBytes(p))
    ensures i + 2 <= |buf| && ShortAt(buf, i) == p.id
  {
    ShortRoundTrip(buf, i, p.id);
  }

  lemma PublishOf(buf: Bytes, length: int, used: nat, qos: int, retain: bool, dup: bool)
    requires buf != [] && DecodeLength(buf) == Some(LengthDetails(length, used))
    requires KindOf(buf[0]) == 3 && DupOf(buf[0]) == dup && QosOf(buf[0]) == qos && RetainOf(buf[0]) == retain
    requires qos <= 2
    ensures Decode(buf) == if dup && qos == 0 then Refused else TopicAt(buf, 1 + used, length, qos, retain, dup)
  {
    hide DecodeLength, KindOf, DupOf, QosOf, RetainOf, TopicAt;
  }

  /** Past the fixed header, decoding a PUBLISH is decoding its body. */
  lemma DecodeIsBody(p: Packet, buf: Bytes)
    requires p.Publish? && Sendable(p) && At(buf, 0, Layout(p))
    ensures var i := 1 + |Digits(GetLength(p))|;
      && At(buf, i, Body(p))
      && Decode(buf) == if p.dup && p.qos == 0 then Refused else TopicAt(buf, i, i + GetLength(p), p.qos, p.retain, p.dup)
  {
    hide *;
    LayoutParts(p, buf);
    HeaderBits(p);
    QosIsSmall(p);
    PublishOf(buf, 1 + |Digits(GetLength(p))| + GetLength(p), |Digits(GetLength(p))|, p.qos, p.retain, p.dup);
  }

  /** Whatever follows it, a faithful PUBLISH decodes to itself. */
  lemma PublishComesBack(p: Packet, buf: Bytes)
    requires p.Publish? && Sendable(p) && Faithful(p) && At(buf, 0, Layout(p))
    ensures Decode(buf) == AsReceived(p)
  {
    hide Digits, Decode, TopicAt, Body, Layout, GetLength, Sendable, At;
    QosIsSmall(p);
    DecodeIsBody(p, buf);
    LengthAgrees(p);
    BodyComesBack(p, buf, 1 + |Digits(GetLength(p))|);
  }

  lemma FirstOctets(buf: Bytes, i: nat, s: Bytes)
    requires At(buf, i, s) && |buf| == i + |s| && CString(s)
    ensures i + 2 <= |buf| ==> ShortAt(buf, i) != 0
  {
    if |s| >= 2 {
      assert buf[i] == s[0] && buf[i + 1] == s[1];
    }
  }

  lemma BodyIsLost(p: Packet, buf: Bytes, i: nat, length: int)
    requires p.Publish? && Sendable(p) && !Faithful(p) && (p.dup ==> p.qos > 0)
    requires At(buf, i, Body(p)) && |buf| == i + |Body(p)| && length == i + GetLength(p)
    ensures TopicAt(buf, i, length, p.qos, p.retain, p.dup) != AsReceived(p)
  {
    hide Body, ShortAt, IdBytes, Counted;
    QosIsSmall(p);
    PublishBody(p);
    if p.topic == [] {
      AtParts(buf, i, IdBytes(p), p.content);
      if p.id != 0 { IdAt(p, buf, i); } else { FirstOctets(buf, i, p.content); }
    } else if |p.topic| < SHORT_SPACE {
      BodyParts(p, buf, i);
      if p.id == 0 && p.qos > 0 { FirstOctets(buf, i + 2 + |p.topic|, p.content); }
    } else {
      TopicIsShort(buf, i, length, p);
    }
  }

  lemma TopicIsShort(buf: Bytes, i: nat, length: int, p: Packet)
    requires p.Publish?
    ensures var m := TopicAt(buf, i, length, p.qos, p.retain, p.dup); m.Publishing? ==> |m.topic| < SHORT_SPACE
  {
    hide ShortAt;
  }

  lemma UnfaithfulIsLost(p: Packet)
    requires p.Publish? && Sendable(p) && !Faithful(p)
    ensures Decode(Layout(p)) != AsReceived(p)
  {
    hide Header, Digits, Decode, TopicAt, Body, GetLength, Sendable, StringsFit;
    var buf := Layout(p);
    assert At(buf, 0, Layout(p));
    QosIsSmall(p);
    DecodeIsBody(p, buf);
    var i := 1 + |Digits(GetLength(p))|;
    if p.dup ==> p.qos > 0 { BodyIsLost(p, buf, i, i + GetLength(p)); }
  }

  /** Exactly the faithful ones come back. */
  lemma PublishRoundTrip(p: Packet)
    requires p.Publish? && Sendable(p)
    ensures Decode(Layout(p)) == AsReceived(p) <==> Faithful(p)
  {
    if Faithful(p) { PublishComesBack(p, Layout(p)); } else { UnfaithfulIsLost(p); }
  }

  /** An acknowledgement comes back with its kind and identifier. */
  lemma AckRoundTrip(p: Packet, buf: Bytes)
    requires Sendable(p) && (p.Puback? || p.Pubrec? || p.Pubrel? || p.Pubcomp?) && At(buf, 0, Layout(p))
    ensures Decode(buf) == Acknowledging(if p.Puback? then 4 else if p.Pubrec? then 5 else if p.Pubrel? then 6 else 7, p.id)
  {
    LayoutParts(p, buf);
    ShortRoundTrip(buf, 2, p.id);
  }
}
