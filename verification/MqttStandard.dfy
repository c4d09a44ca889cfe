/**
 MQTT control packets as section 2 and section 3 of MQTT 3.1.1 have a server read them,
 with every code, mask and position as the number the standard gives, and which of the
 packets that the client encodes say there what they were meant to say.
 */
module MqttStandard {
  import opened Octets
  import opened MqttCodec
  import opened Taking

  /** A string behind its length (section 1.5.3). */
  function TakeString(s: Bytes): Part<Bytes> {
    match TakeNumber(s)
    case Broken => Broken
    case Part(n, t) => if n > |t| then Broken else Part(t[..n], t[n..])
  }

  /** A remaining length of at most `room` octets (section 2.2.3). */
  function TakeLength(s: Bytes, room: nat): Part<int> {
    if room == 0 || s == [] then Broken
    else if s[0] < 128 then Part(s[0], s[1..])
    else match TakeLength(s[1..], room - 1)
      case Broken => Broken
      case Part(n, t) => Part((s[0] - 128) + 128 * n, t)
  }

  /** CONNECT (section 3.1): "MQTT", level 4, the flags, keep alive, and the strings that
      the flags announce. */
  function ReadConnect(s: Bytes): Option<Packet> {
    if |s| < 10 || s[..7] != [0, 4, 0x4D, 0x51, 0x54, 0x54, 4] then None
    else
      var flags: int := s[7];
      var user, password, retain, qos := flags / 128 == 1, flags / 64 % 2 == 1, flags / 32 % 2 == 1, flags / 8 % 4;
      var will, clean := flags / 4 % 2 == 1, flags / 2 % 2 == 1;
      if flags % 2 == 1 || qos == 3 || (!will && (retain || qos != 0)) || (password && !user) then None
      else ReadFields(user, password, retain, qos, will, clean, s[8..])
  }

  function ReadFields(user: bool, password: bool, retain: bool, qos: int, will: bool, clean: bool, s: Bytes): Option<Packet> {
    match TakeNumber(s)
    case Broken => None
    case Part(keepAlive, t) =>
      match TakeString(t)
      case Broken => None
      case Part(clientId, u) =>
        match TakeWill(u, will, qos, retain)
        case Broken => None
        case Part(w, v) =>
          match TakeIf(user, v)
          case Broken => None
          case Part(username, x) =>
            match TakeIf(password, x)
            case Broken => None
            case Part(secret, rest) => if rest != [] then None else Some(Connect(username, secret, clientId, clean, w, keepAlive))
  }

  function TakeIf(present: bool, s: Bytes): Part<Bytes> {
    if present then TakeString(s) else Part([], s)
  }

  function TakeWill(s: Bytes, present: bool, qos: int, retain: bool): Part<Option<Will>> {
    if !present then Part(None, s)
    else match TakeString(s)
      case Broken => Broken
      case Part(topic, t) =>
        match TakeString(t)
        case Broken => Broken
        case Part(content, u) => if topic == [] then Broken else Part(Some(Will(topic, content, qos, retain)), u)
  }

  /** PUBLISH (section 3.3): the topic, a packet identifier above QoS 0, the rest. */
  function ReadPublish(flags: int, s: Bytes): Option<Packet> {
    var dup, qos, retain := flags / 8 % 2 == 1, flags / 2 % 4, flags % 2 == 1;
    if qos == 3 || (dup && qos == 0) then None else ReadTopic(qos, retain, dup, s)
  }

  function ReadTopic(qos: int, retain: bool, dup: bool, s: Bytes): Option<Packet> {
    match TakeString(s)
    case Broken => None
    case Part(topic, t) =>
      if topic == [] then None
      else if qos == 0 then Some(Publish(topic, t, qos, retain, dup, 0))
      else match TakeNumber(t)
        case Broken => None
        case Part(id, content) => if id == 0 then None else Some(Publish(topic, content, qos, retain, dup, id))
  }

  /** The acknowledgements of a publish (sections 3.4 to 3.7). */
  function ReadAck(h: octet, s: Bytes): Option<Packet> {
    match TakeNumber(s)
    case Broken => None
    case Part(id, t) =>
      if t != [] then None
      else if h == 0x40 then Some(Puback(id))
      else if h == 0x50 then Some(Pubrec(id))
      else if h == 0x62 then Some(Pubrel(id))
      else if h == 0x70 then Some(Pubcomp(id))
      else None
  }

  /** SUBSCRIBE and UNSUBSCRIBE with one topic filter (sections 3.8 and 3.10). */
  function ReadRequest(subscribe: bool, s: Bytes): Option<Packet> {
    match TakeNumber(s)
    case Broken => None
    case Part(id, t) =>
      match TakeString(t)
      case Broken => None
      case Part(topic, u) =>
        if id == 0 || topic == [] then None
        else if !subscribe then (if u == [] then Some(Unsubscribe(topic, id)) else None)
        else if |u| == 1 && u[0] <= 2 then Some(Subscribe(topic, u[0], id))
        else None
  }

  function ReadBody(h: octet, s: Bytes): Option<Packet> {
    if h == 0x10 then ReadConnect(s)
    else if 0x30 <= h < 0x40 then ReadPublish(h - 0x30, s)
    else if h == 0x82 then ReadRequest(true, s)
    else if h == 0xA2 then ReadRequest(false, s)
    else if h == 0xC0 then (if s == [] then Some(Pingreq) else None)
    else if h == 0xE0 then (if s == [] then Some(Disconnect) else None)
    else ReadAck(h, s)
  }

  /** One whole packet. */
  function Read(buf: Bytes): Option<Packet> {
    if buf == [] then None
    else match TakeLength(buf[1..], 4)
      case Broken => None
      case Part(n, body) => if n != |body| then None else ReadBody(buf[0], body)
  }

  // ---- What is read off what was put together ----

  lemma StringTaken(s: Bytes, rest: Bytes)
    requires |s| < SHORT_SPACE
    ensures TakeString(Counted(s) + rest) == Part(s, rest)
  {
    hide Short, TakeNumber;
    assert Counted(s) + rest == Short(|s|) + (s + rest);
    NumberTaken(|s|, s + rest);
  }

  lemma TextTaken(s: Bytes, rest: Bytes)
    requires |s| < SHORT_SPACE
    ensures TakeIf(s != [], Text(s) + rest) == Part(s, rest)
    ensures s != [] ==> TakeString(Text(s) + rest) == Part(s, rest)
  {
    if s == [] {
      assert [] + rest == rest;
    } else {
      StringTaken(s, rest);
      hide TakeString, Counted;
    }
  }

  lemma {:induction false} LengthTaken(n: nat, rest: Bytes, room: nat)
    requires |Digits(n)| <= room
    ensures TakeLength(Digits(n) + rest, room) == Part(n, rest)
    decreases n
  {
    if n < 128 {
      assert ([n] + rest)[1..] == rest;
    } else {
      LengthTaken(n / 128, rest, room - 1);
      assert (Digits(n) + rest)[1..] == Digits(n / 128) + rest;
    }
  }

  lemma LaysOut(p: Packet)
    requires Sendable(p)
    ensures Layout(p) != [] && Layout(p)[0] == Header(p) && Layout(p)[1..] == Digits(GetLength(p)) + Body(p)
  {
    hide Body, GetLength, Header, Digits;
  }

  /** Only a packet whose strings fit has the length that it declares. */
  lemma ReadsTheBody(p: Packet)
    requires Sendable(p)
    ensures Read(Layout(p)) == if StringsFit(p) then ReadBody(Header(p), Body(p)) else None
  {
    LengthAgrees(p);
    LengthIsDeclarable(p);
    DigitsLength(GetLength(p));
    LengthTaken(GetLength(p), Body(p), 4);
    LaysOut(p);
    hide Body, GetLength, Header, Digits, TakeLength, ReadBody, StringsFit, Sendable, Layout;
  }

  // ---- Packet by packet ----

  /** The octet of the CONNECT flags, mask by mask: a user name announces a password and a
      password a user name. */
  lemma FlagsMean(p: Packet)
    requires p.Connect? && Sendable(p)
    ensures var flags: int := ContentFlags(p);
      && flags % 2 == 0
      && (flags / 2 % 2 == 1 <==> p.cleanSession)
      && (flags / 4 % 2 == 1 <==> p.will.Some?)
      && flags / 8 % 4 == (if p.will.Some? then p.will.value.qos else 0)
      && (flags / 32 % 2 == 1 <==> p.will.Some? && p.will.value.retain)
      && (flags / 64 % 2 == 1 <==> p.username != [])
      && (flags / 128 == 1 <==> p.password != [])
  {
    hide GetLength, CString;
    var c, w, r := Bit(p.cleanSession, 1), Bit(p.will.Some?, 1), Bit(p.will.Some? && p.will.value.retain, 1);
    var q := if p.will.Some? then p.will.value.qos else 0;
    var u, s := Bit(p.username != [], 1), Bit(p.password != [], 1);
    var flags: int := ContentFlags(p);
    assert flags == 128 * s + 64 * u + 32 * r + 8 * q + 4 * w + 2 * c;
    FlagDigits(flags, s, u, r, q, w, c);
  }

  lemma FlagDigits(n: int, s: int, u: int, r: int, q: int, w: int, c: int)
    requires 0 <= s <= 1 && 0 <= u <= 1 && 0 <= r <= 1 && 0 <= q <= 2 && 0 <= w <= 1 && 0 <= c <= 1
    requires n == 128 * s + 64 * u + 32 * r + 8 * q + 4 * w + 2 * c
    ensures n % 2 == 0 && n / 2 % 2 == c && n / 4 % 2 == w && n / 8 % 4 == q && n / 32 % 2 == r && n / 64 % 2 == u
    ensures n / 128 == s
  {
    assert n / 2 == 64 * s + 32 * u + 16 * r + 4 * q + 2 * w + c;
    assert n / 4 == 32 * s + 16 * u + 8 * r + 2 * q + w;
    assert n / 8 == 16 * s + 8 * u + 4 * r + q;
    assert n / 32 == 4 * s + 2 * u + r;
    assert n / 64 == 2 * s + u;
  }

  lemma WillTaken(will: Option<Will>, rest: Bytes)
    requires will.Some? ==> 0 < |will.value.topic| < SHORT_SPACE && 0 < |will.value.content| < SHORT_SPACE
    ensures TakeWill(WillBytes(will) + rest, will.Some?, if will.Some? then will.value.qos else 0, will.Some? && will.value.retain)
         == Part(will, rest)
  {
    hide Text, TakeString;
    if will.Some? {
      var w := will.value;
      Join([], Text(w.topic), Text(w.content) + rest);
      assert WillBytes(will) + rest == Text(w.topic) + (Text(w.content) + rest);
      TextTaken(w.topic, Text(w.content) + rest);
      TextTaken(w.content, rest);
    } else {
      assert [] + rest == rest;
    }
  }

  lemma Group(a: Bytes, b: Bytes, c: Bytes, d: Bytes, e: Bytes, f: Bytes)
    ensures a + b + c + d + e + f == a + (b + (c + (d + (e + f))))
  {
  }

  lemma ConnectParts(p: Packet)
    requires p.Connect? && Sendable(p)
    ensures var s := Body(p);
      && |s| >= 10 && s[..7] == [0, 4, 0x4D, 0x51, 0x54, 0x54, 4] && s[7] == ContentFlags(p)
      && s[8..] == Short(p.keepAlive) + (Counted(p.clientId) + (WillBytes(p.will) + (Text(p.username) + Text(p.password))))
  {
    hide ContentFlags, Short, Counted, WillBytes, Text, GetLength, CString;
    var head := [0, 4] + PROTOCOL_NAME + [4, ContentFlags(p)];
    assert head == [0, 4, 0x4D, 0x51, 0x54, 0x54, 4, ContentFlags(p)];
    Group(head, Short(p.keepAlive), Counted(p.clientId), WillBytes(p.will), Text(p.username), Text(p.password));
    assert head[..7] == [0, 4, 0x4D, 0x51, 0x54, 0x54, 4];
    HeadOf(Body(p), head, Short(p.keepAlive) + (Counted(p.clientId) + (WillBytes(p.will) + (Text(p.username) + Text(p.password)))));
  }

  lemma HeadOf(s: Bytes, head: Bytes, rest: Bytes)
    requires |head| == 8 && s == head + rest
    ensures s[..7] == head[..7] && s[7] == head[7] && s[8..] == rest
  {
  }

  /** The strings of a CONNECT, where the flags announce those that are there. */
  lemma FieldsRead(p: Packet)
    requires p.Connect? && Sendable(p) && StringsFit(p)
    ensures ReadFields(p.username != [], p.password != [], p.will.Some? && p.will.value.retain,
                       if p.will.Some? then p.will.value.qos else 0, p.will.Some?, p.cleanSession, Body(p)[8..]) == Some(p)
  {
    ConnectParts(p);
    ConnectFits(p);
    hide Body, Short, Counted, WillBytes, Text, TakeNumber, TakeString, TakeWill, TakeIf, Sendable, StringsFit;
    var secret := Text(p.password);
    assert secret + [] == secret;
    TextTaken(p.password, []);
    TextTaken(p.username, secret);
    WillTaken(p.will, Text(p.username) + secret);
    StringTaken(p.clientId, WillBytes(p.will) + (Text(p.username) + secret));
    NumberTaken(p.keepAlive, Counted(p.clientId) + (WillBytes(p.will) + (Text(p.username) + secret)));
  }

  lemma ConnectFits(p: Packet)
    requires p.Connect? && Sendable(p) && StringsFit(p)
    ensures |p.username| < SHORT_SPACE && |p.password| < SHORT_SPACE && |p.clientId| < SHORT_SPACE && IsShort(p.keepAlive)
    ensures p.will.Some? ==>
      0 < |p.will.value.topic| < SHORT_SPACE && 0 < |p.will.value.content| < SHORT_SPACE && 0 <= p.will.value.qos <= 2
  {
    hide GetLength, CString;
  }

  /** A CONNECT is read as it was meant exactly when it has both a user name and a password
      or neither. */
  lemma ConnectReads(p: Packet)
    requires p.Connect? && Sendable(p) && StringsFit(p)
    ensures ReadBody(Header(p), Body(p)) == Some(p) <==> (p.username != [] <==> p.password != [])
  {
    FlagsMean(p);
    ConnectParts(p);
    ConnectFits(p);
    FieldsRead(p);
    hide Body, ContentFlags, ReadFields, Sendable, StringsFit;
    if p.username == [] && p.password != [] {
      var retain, qos := p.will.Some? && p.will.value.retain, if p.will.Some? then p.will.value.qos else 0;
      NoPassword(true, retain, qos, p.will.Some?, p.cleanSession, Body(p)[8..]);
    }
  }

  /** Where no password is announced, none is read. */
  lemma NoPassword(user: bool, retain: bool, qos: int, will: bool, clean: bool, s: Bytes)
    ensures var r := ReadFields(user, false, retain, qos, will, clean, s); r.Some? ==> r.value.Connect? && r.value.password == []
  {
    hide TakeNumber, TakeString, TakeWill;
  }

  /** A PUBLISH is, exactly when it has an identifier above QoS 0 and only there, and is no
      repetition at QoS 0. */
  lemma PublishReads(p: Packet)
    requires p.Publish? && Sendable(p) && StringsFit(p)
    ensures ReadBody(Header(p), Body(p)) == Some(p) <==> (p.id != 0 <==> p.qos > 0) && (p.dup ==> p.qos > 0)
  {
    PublishFlags(p);
    PublishTaken(p);
    PublishFits(p);
    LongerContent(p);
    hide Body, Header, TakeString, TakeNumber, Sendable, StringsFit, IdBytes, IsShort, Short;
  }

  /** The topic, and the identifier, if there is one, in front of the content. */
  lemma PublishTaken(p: Packet)
    requires p.Publish? && Sendable(p) && StringsFit(p)
    ensures TakeString(Body(p)) == Part(p.topic, IdBytes(p) + p.content)
    ensures p.id != 0 ==> TakeNumber(IdBytes(p) + p.content) == Part(p.id, p.content)
    ensures p.id == 0 ==> TakeNumber(p.content).Part? ==> TakeNumber(p.content).value != 0
  {
    PublishBody(p);
    PublishFits(p);
    hide Body, Text, TakeString, TakeNumber, Sendable, StringsFit, Short;
    TextTaken(p.topic, IdBytes(p) + p.content);
    if p.id != 0 {
      NumberTaken(p.id, p.content);
    } else {
      NotZero(p.content);
    }
  }

  lemma PublishFits(p: Packet)
    requires p.Publish? && Sendable(p) && StringsFit(p)
    ensures 0 < |p.topic| < SHORT_SPACE && IsShort(p.id) && 0 !in p.content && 0 <= p.qos <= 2
  {
    hide GetLength;
  }

  lemma LongerContent(p: Packet)
    requires p.Publish? && Sendable(p)
    ensures IdBytes(p) + p.content == p.content <==> p.id == 0
  {
    if p.id != 0 {
      assert |IdBytes(p) + p.content| == 2 + |p.content|;
    }
  }

  /** A string without a zero octet opens with no identifier of zero. */
  lemma NotZero(s: Bytes)
    requires 0 !in s
    ensures TakeNumber(s).Part? ==> TakeNumber(s).value != 0
  {
    if |s| >= 2 { assert s[0] in s; }
  }

  lemma PublishFlags(p: Packet)
    requires p.Publish? && Sendable(p)
    ensures 0x30 <= Header(p) < 0x40
    ensures var flags := Header(p) - 0x30;
      (flags / 8 % 2 == 1 <==> p.dup) && flags / 2 % 4 == p.qos && (flags % 2 == 1 <==> p.retain)
  {
    hide GetLength, CString;
    assert p.qos == 0 || p.qos == 1 || p.qos == 2;
  }

  lemma RequestReads(p: Packet)
    requires (p.Subscribe? || p.Unsubscribe?) && Sendable(p) && StringsFit(p)
    ensures ReadBody(Header(p), Body(p)) == Some(p) <==> p.id != 0
  {
    RequestFits(p);
    hide Text, TakeString, TakeNumber, Sendable, StringsFit, Short;
    var rest := if p.Subscribe? then [p.qos] else [];
    assert Body(p) == Short(p.id) + (Text(p.topic) + rest);
    NumberTaken(p.id, Text(p.topic) + rest);
    TextTaken(p.topic, rest);
    hide Body;
  }

  lemma RequestFits(p: Packet)
    requires (p.Subscribe? || p.Unsubscribe?) && Sendable(p) && StringsFit(p)
    ensures 0 < |p.topic| < SHORT_SPACE && IsShort(p.id) && (p.Subscribe? ==> 0 <= p.qos <= 2)
  {
    hide GetLength, CString;
  }

  lemma AckReads(p: Packet)
    requires (p.Puback? || p.Pubrec? || p.Pubrel? || p.Pubcomp?) && Sendable(p)
    ensures ReadBody(Header(p), Body(p)) == Some(p)
  {
    NumberTaken(p.id, []);
    assert Body(p) + [] == Body(p);
    hide TakeNumber, Short;
  }

  /** Which packets say to a server that follows the standard what they were meant to say.
      The flags of a user name and of a password are each other's, and the fixed headers of
      PINGREQ and DISCONNECT have a reserved bit set. */
  predicate Conforms(p: Packet) {
    && StringsFit(p)
    && match p
       case Connect(username, password, _, _, _, _) => username != [] <==> password != []
       case Publish(_, _, qos, _, dup, id) => (id != 0 <==> qos > 0) && (dup ==> qos > 0)
       case Subscribe(_, _, id) => id != 0
       case Unsubscribe(_, id) => id != 0
       case Pingreq => false
       case Disconnect => false
       case _ => true
  }

  lemma ReadsAsMeant(p: Packet)
    requires Sendable(p)
    ensures Read(Layout(p)) == Some(p) <==> Conforms(p)
  {
    ReadsTheBody(p);
    if StringsFit(p) {
      match p {
        case Connect(_, _, _, _, _, _) => ConnectReads(p);
        case Publish(_, _, _, _, _, _) => PublishReads(p);
        case Subscribe(_, _, _) => RequestReads(p);
        case Unsubscribe(_, _) => RequestReads(p);
        case Pingreq =>
        case Disconnect =>
        case _ => AckReads(p);
      }
    }
    hide Read, Layout, Body, Sendable, StringsFit, ReadConnect, ReadPublish, ReadRequest;
  }

  // ---- What the client makes of packets of the standard ----

  /** What `LengthFrom` makes of a length of `n` in front of `t`, which ends the buffer. */
  predicate IsSeen(buf: Bytes, used: nat, sum: nat, n: int, t: Bytes) {
    && used <= 4 && 0 <= n && |t| < |buf| - 1 - used && t == buf[|buf| - |t|..]
    && LengthFrom(buf, used, sum) == Some(LengthDetails(sum + n * Scale(used) + |buf| - |t|, |buf| - |t| - 1))
  }

  lemma {:induction false} LengthSeen(buf: Bytes, used: nat, sum: nat, n: int, t: Bytes)
    requires used <= 3 && 1 + used <= |buf| && TakeLength(buf[1 + used..], 4 - used) == Part(n, t)
    ensures IsSeen(buf, used, sum, n, t)
    decreases 4 - used
  {
    if buf[1 + used] < 128 {
      LastDigitSeen(buf, used, sum);
    } else {
      assert buf[1 + used..][1..] == buf[2 + used..];
      var m := TakeLength(buf[2 + used..], 3 - used).value;
      LengthSeen(buf, used + 1, sum + DigitOf(buf[1 + used]) * Scale(used), m, t);
      hide *;
      DigitSeen(buf, used, sum, m, t);
    }
  }

  lemma LastDigitSeen(buf: Bytes, used: nat, sum: nat)
    requires used <= 3 && 1 + used < |buf| && buf[1 + used] < 128
    ensures IsSeen(buf, used, sum, buf[1 + used], buf[1 + used..][1..])
  {
    assert buf[1 + used..][1..] == buf[2 + used..];
  }

  lemma DigitSeen(buf: Bytes, used: nat, sum: nat, m: int, t: Bytes)
    requires used < 3 && 1 + used < |buf| && buf[1 + used] >= 128
    requires IsSeen(buf, used + 1, sum + DigitOf(buf[1 + used]) * Scale(used), m, t)
    ensures IsSeen(buf, used, sum, buf[1 + used] as int - 128 + 128 * m, t)
  {
    var enc: int := buf[1 + used];
    ScaleUp(used, enc - 128, m);
    assert LengthFrom(buf, used, sum) == LengthFrom(buf, used + 1, sum + DigitOf(enc) * Scale(used));
    assert DigitOf(enc) == enc - 128;
    hide LengthFrom, Scale;
  }

  /** A length of more than four octets is refused; one that the buffer cuts short is read
      past its end. */
  lemma {:induction false} LengthFails(buf: Bytes, used: nat, sum: nat)
    requires used <= 4 && 1 + used <= |buf| && TakeLength(buf[1 + used..], 4 - used).Broken?
    ensures LengthFrom(buf, used, sum) == if |buf| >= 5 then Some(LengthDetails(-1, -1)) else None
    decreases 4 - used
  {
    if used < 4 && 1 + used < |buf| {
      assert buf[1 + used..][1..] == buf[2 + used..];
      LengthFails(buf, used + 1, sum + DigitOf(buf[1 + used]) * Scale(used));
    }
  }

  lemma ScaleUp(used: nat, d: int, m: int)
    requires used <= 3
    ensures d * Scale(used) + m * Scale(used + 1) == (d + 128 * m) * Scale(used)
  {
    match used {
      case 0 =>
      case 1 =>
      case 2 =>
      case _ =>
    }
  }

  lemma {:induction false} MoreBehind(s: Bytes, room: nat, more: Bytes)
    requires TakeLength(s, room).Part?
    ensures TakeLength(s + more, room) == Part(TakeLength(s, room).value, TakeLength(s, room).rest + more)
    decreases room
  {
    if s[0] < 128 {
      assert (s + more)[1..] == s[1..] + more;
    } else {
      MoreBehind(s[1..], room - 1, more);
      assert (s + more)[1..] == s[1..] + more;
    }
  }

  /** A packet of the standard at the start of a buffer: where its body stands and how long
      the client takes it to be. */
  lemma BodyStands(buf: Bytes, more: Bytes) returns (i: nat, body: Bytes)
    requires Read(buf).Some?
    ensures Read(buf) == ReadBody(buf[0], body) && 1 < i && i + |body| == |buf| && At(buf + more, i, body)
    ensures DecodeLength(buf + more) == Some(LengthDetails(|buf|, i - 1))
  {
    hide ReadBody, TakeLength, DecodeLength, At;
    body := TakeLength(buf[1..], 4).rest;
    MoreBehind(buf[1..], 4, more);
    assert (buf + more)[1..] == buf[1..] + more;
    LengthOf(buf + more, |body|, body + more);
    i := |buf| - |body|;
    Front(buf + more, i, body, more);
  }

  lemma LengthOf(buf: Bytes, n: nat, t: Bytes)
    requires buf != [] && TakeLength(buf[1..], 4) == Part(n, t)
    ensures |t| < |buf| - 1 && t == buf[|buf| - |t|..]
    ensures DecodeLength(buf) == Some(LengthDetails(n + |buf| - |t|, |buf| - |t| - 1))
  {
    LengthSeen(buf, 0, 0, n, t);
    hide TakeLength, LengthFrom;
    assert Scale(0) == 1;
  }

  lemma Front(buf: Bytes, i: nat, body: Bytes, more: Bytes)
    requires i <= |buf| && buf[i..] == body + more
    ensures At(buf, i, body)
  {
    assert buf[i..][..|body|] == body;
  }

  lemma StringStands(buf: Bytes, i: nat, s: Bytes)
    requires At(buf, i, s) && TakeString(s).Part?
    ensures var topic, j := TakeString(s).value, i + 2 + |TakeString(s).value|;
      && j <= |buf| && ShortAt(buf, i) == |topic| && buf[i + 2..j] == topic && At(buf, j, TakeString(s).rest)
      && |TakeString(s).rest| == |s| - 2 - |topic|
  {
    NumberAt(buf, i, s);
    var n, t := TakeNumber(s).value, TakeNumber(s).rest;
    hide TakeNumber, ShortAt;
    assert t == t[..n] + t[n..];
    AtParts(buf, i + 2, t[..n], t[n..]);
  }

  /** What a PUBLISH says; a content of no octets is left unset. */
  function Said(p: Packet): Incoming
    requires p.Publish?
  {
    Publishing(p.topic, if p.content == [] then None else Some(p.content), p.qos, p.retain, p.dup,
               if p.qos > 0 then Some(p.id) else None)
  }

  lemma PublishStands(buf: Bytes, i: nat, body: Bytes, qos: int, retain: bool, dup: bool)
    requires At(buf, i, body) && 0 <= qos <= 2 && ReadTopic(qos, retain, dup, body).Some?
    ensures var p := ReadTopic(qos, retain, dup, body).value;
      p.Publish? && TopicAt(buf, i, i + |body|, qos, retain, dup) == Said(p)
  {
    StringStands(buf, i, body);
    var topic, t := TakeString(body).value, TakeString(body).rest;
    RestStands(buf, i + 2 + |topic|, topic, t, qos, retain, dup);
    hide TakeString, ShortAt, At, TakeNumber, ContentAt;
  }

  /** The identifier, above QoS 0, and the content. */
  lemma RestStands(buf: Bytes, j: nat, topic: Bytes, t: Bytes, qos: int, retain: bool, dup: bool)
    requires At(buf, j, t)
    ensures qos == 0 ==>
      ContentAt(buf, j, j + |t|, Publishing(topic, None, qos, retain, dup, None)) == Said(Publish(topic, t, qos, retain, dup, 0))
    ensures qos > 0 && TakeNumber(t).Part? ==>
      && j + 2 <= |buf| && ShortAt(buf, j) == TakeNumber(t).value
      && ContentAt(buf, j + 2, j + |t|, Publishing(topic, None, qos, retain, dup, Some(ShortAt(buf, j))))
         == Said(Publish(topic, TakeNumber(t).rest, qos, retain, dup, TakeNumber(t).value))
  {
    ContentStands(buf, j, t);
    if TakeNumber(t).Part? {
      NumberAt(buf, j, t);
      ShorterByTwo(t);
      ContentStands(buf, j + 2, TakeNumber(t).rest);
    }
    hide TakeNumber, At, ShortAt;
  }

  lemma ShorterByTwo(t: Bytes)
    requires TakeNumber(t).Part?
    ensures |TakeNumber(t).rest| == |t| - 2
  {
  }

  lemma ContentStands(buf: Bytes, j: nat, t: Bytes)
    requires At(buf, j, t)
    ensures t != [] ==> j + |t| <= |buf| && buf[j..j + |t|] == t
  {
  }

  lemma HeaderNibbles(h: octet)
    requires 0x30 <= h < 0x40
    ensures var flags := h - 0x30;
      && KindOf(h) == 3 && DupOf(h) == (flags / 8 % 2 == 1) && QosOf(h) == flags / 2 % 4 && RetainOf(h) == (flags % 2 == 1)
      && 0 <= flags < 16
  {
    var n: int := h;
    var low := n - 48;
    assert n % 16 == low && low / 8 % 2 == low / 8;
    assert low % 8 / 2 == low / 2 % 4;
    assert low % 2 == low % 16 % 2;
  }

  /** A PUBLISH of the standard, whoever encoded it and whatever follows it, is decoded to
      what it says. */
  lemma PublishMeans(buf: Bytes, more: Bytes)
    requires Read(buf).Some? && Read(buf).value.Publish?
    ensures Decode(buf + more) == Said(Read(buf).value)
  {
    var i, body := BodyStands(buf, more);
    assert buf != [] by { ReadsSome(buf); }
    var h := buf[0];
    KindRead(h, body);
    HeaderNibbles(h);
    hide Read, ReadConnect, ReadRequest, ReadAck, KindOf, DupOf, QosOf, RetainOf, DecodeLength, TopicAt;
    QosRead(h - 0x30, body);
    PublishStands(buf + more, i, body, QosOf(h), RetainOf(h), DupOf(h));
    hide ReadTopic;
    assert (buf + more)[0] == h;
    PublishOf(buf + more, |buf|, i - 1, QosOf(h), RetainOf(h), DupOf(h));
  }

  lemma ReadsSome(buf: Bytes)
    ensures Read(buf).Some? ==> buf != []
  {
    hide TakeLength, ReadBody;
  }

  lemma QosRead(flags: int, s: Bytes)
    ensures ReadPublish(flags, s).Some? ==> flags / 2 % 4 != 3 && !(flags / 8 % 2 == 1 && flags / 2 % 4 == 0)
  {
    hide ReadTopic;
  }

  /** Only a header of 0x30 to 0x3F makes a PUBLISH. */
  lemma KindRead(h: octet, s: Bytes)
    ensures ReadBody(h, s).Some? && ReadBody(h, s).value.Publish? ==> 0x30 <= h < 0x40 && ReadBody(h, s) == ReadPublish(h - 0x30, s)
  {
    ConnectRead(s);
    hide TakeString, TakeNumber, ReadConnect, ReadPublish;
  }

  lemma ConnectRead(s: Bytes)
    ensures ReadConnect(s).Some? ==> ReadConnect(s).value.Connect?
  {
    hide TakeString, TakeNumber, TakeWill, TakeIf;
  }

  /** An acknowledgement, likewise: the high half of its header is its kind. */
  lemma AckMeans(buf: Bytes, more: Bytes)
    requires |buf| == 4 && buf[1] == 2 && (0x40 <= buf[0] < 0x80 || 0xB0 <= buf[0] < 0xC0)
    ensures Decode(buf + more) == Acknowledging(
      if buf[0] < 0x50 then 4 else if buf[0] < 0x60 then 5 else if buf[0] < 0x70 then 6 else if buf[0] < 0x80 then 7 else 11,
      TakeNumber(buf[2..]).value)
  {
    var s := buf + more;
    assert s[0] == buf[0] && s[2] == buf[2] && s[3] == buf[3];
    hide DecodePublish;
  }
}
