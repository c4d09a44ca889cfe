/** CoAP messages in octets: coap_parser.c (sections 3 and 3.1 of RFC 7252). */
module Coap {
  import opened Octets
  import opened Buffers

  datatype CoapOption = CoapOption(number: int, value: Bytes)
  datatype Message = Message(
    version: int, kind: int, code: int, messageId: int, token: Bytes, options: seq<CoapOption>, payload: Bytes)

  // ---- Encoding ----

  const MARKER: octet := 0xFF

  /** Four bits for an option delta or length, and the octets that extend them.  The
      second form starts at 255 where the standard has 269. */
  function Nibble(n: nat): (r: int)
    ensures 0 <= r <= 14
  {
    if n < 13 then n else if n < 255 then 13 else 14
  }

  function Extension(n: nat): Bytes {
    if n < 13 then [] else if n < 255 then [n - 13] else Short((n - 269) % SHORT_SPACE)
  }

  function OptionBytes(o: CoapOption, previous: int): Bytes
    requires previous <= o.number
  {
    var delta, length := o.number - previous, |o.value|;
    [16 * Nibble(delta) + Nibble(length)] + Extension(delta) + Extension(length) + Cut(o.value)
  }

  predicate Ascending(options: seq<CoapOption>, previous: int) {
    options != [] ==> previous <= options[0].number && Ascending(options[1..], options[0].number)
  }

  function OptionsBytes(options: seq<CoapOption>, previous: int): Bytes
    requires Ascending(options, previous)
  {
    if options == [] then [] else OptionBytes(options[0], previous) + OptionsBytes(options[1..], options[0].number)
  }

  /** What a C function sees of a string: the octets before the first 0. */
  function CText(s: Bytes): (r: Bytes)
    ensures r <= s && 0 !in r && (r == s <==> 0 !in s)
  {
    if s == [] || s[0] == 0 then [] else [s[0]] + CText(s[1..])
  }

  /** The values the C types admit, and option numbers that ascend. */
  predicate Encodable(m: Message) {
    && 0 <= m.version && 0 <= m.kind && 0 <= m.code
    && 0 <= m.messageId < SHORT_SPACE && Ascending(m.options, 0)
  }

  /** The token and the payload as they are copied. */
  function WireToken(m: Message): Bytes {
    Cut(CText(m.token))
  }

  function WirePayload(m: Message): Bytes {
    Cut(CText(m.payload))
  }

  /** Bitwise OR of unsigned numbers, bit by bit. */
  function Or(a: nat, b: nat): nat
    decreases a + b
  {
    if a == 0 && b == 0 then 0 else 2 * Or(a / 2, b / 2) + if a % 2 + b % 2 > 0 then 1 else 0
  }

  lemma OrBits(a: nat, b: nat)
    ensures Or(2 * a, b) == 2 * Or(a, b / 2) + b % 2
  {
  }

  lemma OrPairs(a: nat, b: nat)
    ensures Or(4 * a, b) == 4 * Or(a, b / 4) + b % 4
  {
    hide Or;
    OrBits(2 * a, b);
    OrBits(a, b / 2);
    assert b / 2 / 2 == b / 4 && 2 * (b / 2 % 2) + b % 2 == b % 4;
  }

  /** Where the low four bits of `a` are 0, they become those of `b`. */
  lemma OrNibbles(a: nat, b: nat)
    ensures Or(16 * a, b) == 16 * Or(a, b / 16) + b % 16
  {
    hide Or;
    OrPairs(4 * a, b);
    OrPairs(a, b / 4);
    Quarters(b);
  }

  lemma Quarters(b: nat)
    ensures b / 4 / 4 == b / 16 && 4 * (b / 4 % 4) + b % 4 == b % 16
  {
  }

  lemma {:induction false} OrZero(a: nat)
    ensures Or(a, 0) == a
  {
    if a == 0 {
    } else {
      OrZero(a / 2);
    }
  }

  lemma {:induction false} OrIsSmall(a: nat, b: nat, n: nat)
    requires a < Power(n) && b < Power(n)
    ensures Or(a, b) < Power(n)
    decreases n
  {
    if n == 0 {
    } else {
      OrIsSmall(a / 2, b / 2, n - 1);
    }
  }

  function Power(n: nat): nat {
    if n == 0 then 1 else 2 * Power(n - 1)
  }

  /** Version, type and the length of the token, which may run into both. */
  function FirstOctet(m: Message): octet
    requires Encodable(m)
  {
    var fields, length := (64 * m.version + 16 * m.kind) % 256, |WireToken(m)| % 256;
    assert Power(8) == 256 by { assert Power(4) == 16; }
    OrIsSmall(fields, length, 8);
    Or(fields, length)
  }

  function CodeOctet(code: nat): octet {
    (32 * (code / 100) + code % 100) % 256
  }

  function Head(m: Message): (r: Bytes)
    requires Encodable(m)
    ensures |r| == 4
  {
    [FirstOctet(m), CodeOctet(m.code)] + Short(m.messageId)
  }

  function Layout(m: Message): Bytes
    requires Encodable(m)
  {
    Head(m) + WireToken(m) + OptionsBytes(m.options, 0) + ([MARKER] + WirePayload(m))
  }

  method AddExtension(buf: array<octet>, i: nat, n: nat) returns (j: nat)
    requires i + |Extension(n)| <= buf.Length
    modifies buf
    ensures j == i + |Extension(n)| && buf[..j] == old(buf[..i]) + Extension(n)
  {
    j := i;
    if n < 13 {
      assert old(buf[..i]) + [] == old(buf[..i]);
    } else if n < 255 {
      j := Put(buf, i, n - 13);
    } else {
      j := AddShort(buf, i, (n - 269) % SHORT_SPACE);
    }
  }

  /** One turn of the option loop. */
  method AddOption(buf: array<octet>, i: nat, o: CoapOption, previous: int) returns (j: nat)
    requires previous <= o.number && i + |OptionBytes(o, previous)| <= buf.Length
    modifies buf
    ensures j == i + |OptionBytes(o, previous)| && buf[..j] == old(buf[..i]) + OptionBytes(o, previous)
  {
    hide Nibble, Extension, Cut;
    ghost var front := buf[..i];
    var delta, length := o.number - previous, |o.value|;
    var nextByte := 16 * Nibble(delta) + Nibble(length);
    j := Put(buf, i, nextByte);
    j := AddExtension(buf, j, delta);
    Join(front, [nextByte], Extension(delta));
    j := AddExtension(buf, j, length);
    Join(front, [nextByte] + Extension(delta), Extension(length));
    j := Copy(buf, j, Cut(o.value));
    Join(front, [nextByte] + Extension(delta) + Extension(length), Cut(o.value));
  }

  method AddOptions(buf: array<octet>, i: nat, options: seq<CoapOption>) returns (j: nat)
    requires Ascending(options, 0) && i + |OptionsBytes(options, 0)| <= buf.Length
    modifies buf
    ensures j == i + |OptionsBytes(options, 0)| && buf[..j] == old(buf[..i]) + OptionsBytes(options, 0)
  {
    hide OptionBytes;
    ghost var front := buf[..i];
    var previousNumber := 0;
    j := i;
    assert options[0..] == options;
    for k := 0 to |options|
      invariant Ascending(options[k..], previousNumber)
      invariant j + |OptionsBytes(options[k..], previousNumber)| == i + |OptionsBytes(options, 0)|
      invariant buf[..j] + OptionsBytes(options[k..], previousNumber) == front + OptionsBytes(options, 0)
    {
      var o := options[k];
      assert options[k..][0] == o && options[k..][1..] == options[k + 1..];
      Join(buf[..j], OptionBytes(o, previousNumber), OptionsBytes(options[k + 1..], o.number));
      j := AddOption(buf, j, o, previousNumber);
      previousNumber := o.number;
    }
    assert buf[..j] + [] == buf[..j];
  }

  const PUT := 3

  /** The room `coap_encode` allocates: a payload is counted for PUT only. */
  function BufferSize(m: Message): nat {
    256 + if m.code == PUT && m.messageId > 0 then |CText(m.payload)| else 0
  }

  /** A message whose encoding stays inside its buffer. */
  predicate FitsBuffer(m: Message)
    requires Encodable(m)
  {
    |Layout(m)| <= BufferSize(m)
  }

  /** `coap_encode`; None when it would write past its buffer, which has no room of its
      own for options, nor for the payload of any code but PUT. */
  method Encode(m: Message) returns (encoded: Option<array<octet>>, length: nat)
    requires Encodable(m)
    ensures encoded.Some? <==> FitsBuffer(m)
    ensures encoded.Some? ==>
      var buf := encoded.value; fresh(buf) && length == |Layout(m)| <= buf.Length && buf[..length] == Layout(m)
  {
    hide OptionsBytes, FirstOctet, CodeOctet, Short, Ascending, WireToken, WirePayload;
    assert |Short(m.messageId)| == 2;
    if |Layout(m)| > BufferSize(m) { return None, 0; }
    var buf := new octet[BufferSize(m)];
    var i := Put(buf, 0, FirstOctet(m));
    i := Put(buf, i, CodeOctet(m.code));
    i := AddShort(buf, i, m.messageId);
    assert buf[..i] == Head(m);
    i := Copy(buf, i, WireToken(m));
    i := AddOptions(buf, i, m.options);
    ghost var front := buf[..i];
    i := Put(buf, i, MARKER);
    i := Copy(buf, i, WirePayload(m));
    Join(front, [MARKER], WirePayload(m));
    return Some(buf), i;
  }

  // ---- Decoding ----

  /** None is a field left unset. */
  datatype Outcome =
    | Received(version: int, kind: int, code: int, messageId: int, token: Option<Bytes>,
               options: seq<CoapOption>, payload: Option<Bytes>)
    | Rejected                        // a NULL result
    | OutOfBounds                     // reads outside the buffer

  datatype Parsed<+T> = Ok(value: T, next: nat) | Bad | Over

  /** A delta, with the octets that extend it. */
  function DeltaAt(buf: Bytes, i: nat, nibble: int): (r: Parsed<int>)
    requires 0 <= nibble
    ensures r.Ok? ==> i <= r.next && 0 <= r.value <= 65804 && r.next == i + DecodedExtension(r.value)
  {
    if nibble < 13 then Ok(nibble, i)
    else if nibble == 13 then (
      if i + 1 > |buf| then Over
      else
        var b: int := buf[i];
        Ok(b + 13, i + 1))
    else if nibble == 14 then (if i + 2 > |buf| then Over else Ok(ShortAt(buf, i) + 269, i + 2))
    else Bad
  }

  /** The octets the decoder passes for a delta. */
  function DecodedExtension(n: int): nat {
    if n < 13 then 0 else if n < 269 then 1 else 2
  }

  /** A length; the two octets of the longest form are read but not passed. */
  function LengthAt(buf: Bytes, i: nat, nibble: int): (r: Parsed<int>)
    requires 0 <= nibble
    ensures r.Ok? ==> i <= r.next && 0 <= r.value && r.next == i + if 13 <= r.value < 269 then 1 else 0
  {
    match DeltaAt(buf, i, nibble)
    case Ok(n, next) => Ok(n, if nibble == 14 then i else next)
    case Bad => Bad
    case Over => Over
  }

  function DeltaNibble(b: octet): (n: int)
    ensures 0 <= n <= 15
  {
    b / 16
  }

  function LengthNibble(b: octet): (n: int)
    ensures 0 <= n <= 15
  {
    b % 16
  }

  /** One option, at `j`; `number` is that of the option before it. */
  function OptionAt(buf: Bytes, j: nat, number: int): (r: Parsed<CoapOption>)
    requires j < |buf|
    ensures r.Ok? ==> j < r.next <= |buf|
  {
    match DeltaAt(buf, j + 1, DeltaNibble(buf[j]))
    case Bad => Bad
    case Over => Over
    case Ok(delta, i) =>
      match LengthAt(buf, i, LengthNibble(buf[j]))
      case Bad => Bad
      case Over => Over
      case Ok(length, k) => if k + length > |buf| then Over else Ok(CoapOption(number + delta, buf[k..k + length]), k + length)
  }

  /** The option loop, from `j` on. */
  function OptionsAt(buf: Bytes, j: nat, number: int): (r: Parsed<seq<CoapOption>>)
    requires j <= |buf|
    ensures r.Ok? ==> j <= r.next <= |buf|
    decreases |buf| - j
  {
    if j == |buf| || buf[j] == MARKER then Ok([], j)
    else
      match OptionAt(buf, j, number)
      case Bad => Bad
      case Over => Over
      case Ok(o, k) => Prepend(o, OptionsAt(buf, k, o.number))
  }

  function Prepend(o: CoapOption, r: Parsed<seq<CoapOption>>): Parsed<seq<CoapOption>> {
    match r
    case Ok(options, next) => Ok([o] + options, next)
    case _ => r
  }

  /** The payload behind the marker at `i`; a payload that starts with 0 is not taken. */
  function PayloadAt(buf: Bytes, i: nat): Parsed<Option<Bytes>>
    requires i <= |buf|
  {
    if i == |buf| then Ok(None, i)
    else if i + 1 == |buf| then Over
    else Ok(if buf[i + 1] == 0 then None else Some(buf[i + 1..]), |buf|)
  }

  /** The fields of the first octet; the mask on the type keeps its upper bit only. */
  function VersionOf(first: octet): int {
    first / 64
  }

  function KindOf(first: octet): int {
    first / 32 % 2 * 2
  }

  function TokenLengthOf(first: octet): (n: int)
    ensures 0 <= n <= 15
  {
    first % 16
  }

  function CodeOf(b: octet): int {
    100 * (b as int / 32) + b % 32
  }

  /** `coap_decode`. */
  function Decode(buf: Bytes): Outcome {
    if buf == [] then OutOfBounds
    else if VersionOf(buf[0]) != 1 || TokenLengthOf(buf[0]) > 8 then Rejected
    else
      var i := 4 + TokenLengthOf(buf[0]);
      if i > |buf| then OutOfBounds
      else match OptionsAt(buf, i, 0)
        case Bad => Rejected
        case Over => OutOfBounds
        case Ok(options, j) =>
          match PayloadAt(buf, j)
          case Ok(payload, _) =>
            Received(1, KindOf(buf[0]), CodeOf(buf[1]), ShortAt(buf, 2), if i > 4 then Some(buf[4..i]) else None, options, payload)
          case _ => OutOfBounds
  }

  /** `r` with `done` in front of its options. */
  function After(done: seq<CoapOption>, r: Parsed<seq<CoapOption>>): Parsed<seq<CoapOption>> {
    match r
    case Ok(options, next) => Ok(done + options, next)
    case _ => r
  }

  lemma AfterPrepend(done: seq<CoapOption>, o: CoapOption, r: Parsed<seq<CoapOption>>)
    ensures After(done, Prepend(o, r)) == After(done + [o], r)
  {
    if r.Ok? { assert done + ([o] + r.value) == done + [o] + r.value; }
  }

  lemma AfterEnds(done: seq<CoapOption>, r: Parsed<seq<CoapOption>>, next: nat)
    ensures After([], r) == r && After(done, Ok([], next)) == Ok(done, next)
    ensures !r.Ok? ==> After(done, r) == r
  {
    if r.Ok? { assert [] + r.value == r.value; }
    assert done + [] == done;
  }

  method ReadDelta(buf: Bytes, i: nat, nibble: int) returns (r: Parsed<int>)
    requires 0 <= nibble
    ensures r == DeltaAt(buf, i, nibble)
  {
    var delta, j := nibble, i;
    if delta == 13 {
      if j >= |buf| { return Over; }
      delta := buf[j];
      delta := delta + 13;
      j := j + 1;
    } else if delta == 14 {
      if j + 2 > |buf| { return Over; }
      delta := ShortAt(buf, j) + 269;
      j := j + 2;
    } else if delta > 14 {
      return Bad;
    }
    return Ok(delta, j);
  }

  method ReadOption(buf: Bytes, start: nat, number: int) returns (r: Parsed<CoapOption>)
    requires start < |buf|
    ensures r == OptionAt(buf, start, number)
  {
    var j := start;
    var nextByte := buf[j];
    j := j + 1;
    var delta := ReadDelta(buf, j, DeltaNibble(nextByte));
    if !delta.Ok? { return if delta.Bad? then Bad else Over; }
    j := delta.next;
    var length := ReadDelta(buf, j, LengthNibble(nextByte));
    if !length.Ok? { return if length.Bad? then Bad else Over; }
    if LengthNibble(nextByte) != 14 { j := length.next; }
    if j + length.value > |buf| { return Over; }
    return Ok(CoapOption(number + delta.value, buf[j..j + length.value]), j + length.value);
  }

  /** The option loop of `coap_decode`. */
  method ReadOptions(buf: Bytes, start: nat) returns (r: Parsed<seq<CoapOption>>)
    requires start <= |buf|
    ensures r == OptionsAt(buf, start, 0)
  {
    hide OptionAt, After, Prepend;
    var options: seq<CoapOption> := [];
    var number, i, j := 0, start, start;
    AfterEnds(options, OptionsAt(buf, start, 0), start);
    while j < |buf|
      invariant i == j <= |buf|
      invariant After(options, OptionsAt(buf, j, number)) == OptionsAt(buf, start, 0)
      decreases |buf| - j
    {
      if buf[j] == 0xFF { break; }
      var option := ReadOption(buf, j, number);
      if !option.Ok? {
        AfterEnds(options, if option.Bad? then Bad else Over, 0);
        return if option.Bad? then Bad else Over;
      }
      number := option.value.number;
      j := option.next;
      i := j;
      AfterPrepend(options, option.value, OptionsAt(buf, j, number));
      options := options + [option.value];
    }
    AfterEnds(options, Bad, i);
    return Ok(options, i);
  }

  method DecodeMessage(buf: Bytes) returns (r: Outcome)
    ensures r == Decode(buf)
  {
    hide VersionOf, TokenLengthOf, KindOf, CodeOf, OptionsAt, ShortAt;
    if buf == [] { return OutOfBounds; }
    if VersionOf(buf[0]) != 1 { return Rejected; }
    var tokenLength := TokenLengthOf(buf[0]);
    if tokenLength > 8 { return Rejected; }
    if 4 + tokenLength > |buf| { return OutOfBounds; }
    var kind, code, messageId := KindOf(buf[0]), CodeOf(buf[1]), ShortAt(buf, 2);
    var i := 4;
    var token := None;
    if tokenLength > 0 {
      token := Some(buf[i..i + tokenLength]);
      i := i + tokenLength;
    }
    var options := ReadOptions(buf, i);
    if !options.Ok? { return if options.Bad? then Rejected else OutOfBounds; }
    i := options.next;
    var payload := None;
    var readableBytes := |buf| - i;
    if readableBytes > 0 {
      i := i + 1;
      if i == |buf| { return OutOfBounds; }
      assert buf[i..i + readableBytes - 1] == buf[i..];
      if buf[i] != 0 { payload := Some(buf[i..i + readableBytes - 1]); }
    }
    return Received(1, kind, code, messageId, token, options.value, payload);
  }

  // ---- Round trip ----

  /** Deltas between the two thresholds, or beyond two octets, are not written right. */
  predicate DeltaFits(n: int) {
    0 <= n < 255 || 269 <= n <= 65804
  }

  /** Every option has such a delta and a value of at most 254 octets. */
  predicate OptionsFit(options: seq<CoapOption>, previous: int) {
    options != [] ==>
      && DeltaFits(options[0].number - previous) && |options[0].value| <= 254
      && OptionsFit(options[1..], options[0].number)
  }

  lemma DeltaDecodes(n: int, buf: Bytes, i: nat)
    requires DeltaFits(n) && At(buf, i, Extension(n))
    ensures DeltaAt(buf, i, Nibble(n)) == Ok(n, i + |Extension(n)|)
  {
    hide ShortAt, Short;
    if 13 <= n < 255 {
      AtOctet(buf, i, Extension(n));
    } else if n >= 269 {
      ShortRoundTrip(buf, i, n - 269);
    }
  }

  lemma LengthDecodes(n: int, buf: Bytes, i: nat)
    requires 0 <= n <= 254 && At(buf, i, Extension(n))
    ensures LengthAt(buf, i, Nibble(n)) == Ok(n, i + |Extension(n)|)
  {
    DeltaDecodes(n, buf, i);
  }

  lemma OptionParts(o: CoapOption, previous: int, buf: Bytes, j: nat)
    requires previous <= o.number && At(buf, j, OptionBytes(o, previous))
    ensures var d, l := Extension(o.number - previous), Extension(|o.value|);
      && buf[j] == 16 * Nibble(o.number - previous) + Nibble(|o.value|)
      && At(buf, j + 1, d) && At(buf, j + 1 + |d|, l) && At(buf, j + 1 + |d| + |l|, Cut(o.value))
      && |OptionBytes(o, previous)| == 1 + |d| + |l| + |Cut(o.value)|
  {
    var d, l := Extension(o.number - previous), Extension(|o.value|);
    hide Extension, Nibble, At, Cut;
    var nextByte := [16 * Nibble(o.number - previous) + Nibble(|o.value|)];
    AtParts(buf, j, nextByte + d + l, Cut(o.value));
    AtParts(buf, j, nextByte + d, l);
    AtParts(buf, j, nextByte, d);
    AtOctet(buf, j, nextByte);
  }

  lemma FittingIsNatural(n: int)
    requires DeltaFits(n)
    ensures n >= 0
  {
  }

  lemma OptionDecodes(o: CoapOption, previous: int, buf: Bytes, j: nat)
    requires DeltaFits(o.number - previous) && |o.value| <= 254 && At(buf, j, OptionBytes(o, previous))
    ensures buf[j] != MARKER && OptionAt(buf, j, previous) == Ok(o, j + |OptionBytes(o, previous)|)
  {
    hide *;
    FittingIsNatural(o.number - previous);
    OptionParts(o, previous, buf, j);
    var delta: nat, length := o.number - previous, |o.value|;
    var d, l := Extension(delta), Extension(length);
    DeltaDecodes(delta, buf, j + 1);
    LengthDecodes(length, buf, j + 1 + |d|);
    Nibbles(Nibble(delta), Nibble(length));
    ShortIsWhole(o.value);
    Slice(buf, j + 1 + |d| + |l|, o.value);
    OptionOf(buf, j, previous, delta, j + 1 + |d|, length, j + 1 + |d| + |l|);
  }

  lemma OptionOf(buf: Bytes, j: nat, number: int, delta: int, i: nat, length: int, k: nat)
    requires j < |buf| && DeltaAt(buf, j + 1, DeltaNibble(buf[j])) == Ok(delta, i)
    requires LengthAt(buf, i, LengthNibble(buf[j])) == Ok(length, k) && 0 <= length && k + length <= |buf|
    ensures OptionAt(buf, j, number) == Ok(CoapOption(number + delta, buf[k..k + length]), k + length)
  {
    hide DeltaAt, LengthAt, DeltaNibble, LengthNibble;
  }

  lemma ShortIsWhole(s: Bytes)
    requires |s| <= 254
    ensures Cut(s) == s
  {
  }

  lemma Slice(buf: Bytes, i: nat, s: Bytes)
    requires At(buf, i, s)
    ensures i + |s| <= |buf| && buf[i..i + |s|] == s
  {
  }

  lemma Nibbles(m: int, n: int)
    requires 0 <= m <= 14 && 0 <= n <= 14
    ensures DeltaNibble(16 * m + n) == m && LengthNibble(16 * m + n) == n && 16 * m + n != MARKER
  {
  }

  lemma {:induction false} OptionsDecode(options: seq<CoapOption>, previous: int, buf: Bytes, j: nat)
    requires Ascending(options, previous) && OptionsFit(options, previous)
    requires At(buf, j, OptionsBytes(options, previous) + [MARKER])
    ensures OptionsAt(buf, j, previous) == Ok(options, j + |OptionsBytes(options, previous)|)
    decreases |options|
  {
    hide OptionBytes, OptionAt, DeltaFits;
    AtParts(buf, j, OptionsBytes(options, previous), [MARKER]);
    if options == [] {
      AtOctet(buf, j, [MARKER]);
    } else {
      var o, rest := options[0], options[1..];
      var first, more := OptionBytes(o, previous), OptionsBytes(rest, o.number);
      Join(first, more, [MARKER]);
      AtParts(buf, j, first, more + [MARKER]);
      hide At;
      OptionDecodes(o, previous, buf, j);
      OptionsDecode(rest, o.number, buf, j + |first|);
      assert [o] + rest == options;
    }
  }

  /** The message as the receiver should see it. */
  function AsReceived(m: Message): Outcome {
    Received(m.version, m.kind, m.code, m.messageId, Some(m.token), m.options, Some(m.payload))
  }

  predicate CodeFits(code: int) {
    0 <= code < 800 && code % 100 < 32
  }

  /** What comes back: version 1, a confirmable message or an acknowledgement, a code
      of the standard's form, a token and a payload without a 0, the payload shorter
      than 65536 octets, and options that fit. */
  predicate Faithful(m: Message) {
    && m.version == 1 && m.kind in {0, 2} && CodeFits(m.code)
    && 1 <= |m.token| <= 8 && 0 !in m.token
    && 1 <= |m.payload| < SHORT_SPACE && 0 !in m.payload
    && OptionsFit(m.options, 0)
  }

  lemma CodeOfFits(b: octet)
    ensures CodeFits(CodeOf(b))
  {
    var n: int := b;
    var high, low := n / 32, n % 32;
    assert 0 <= high < 8 && (100 * high + low) % 100 == low;
  }

  lemma Pack(high: int, low: int)
    requires 0 <= high < 8 && 0 <= low < 32
    ensures var n := 32 * high + low; n % 256 == n && n / 32 == high && n % 32 == low
  {
  }

  lemma CodeParts(code: nat)
    ensures code == 100 * (code / 100) + code % 100
    ensures CodeFits(code) ==> code / 100 < 8 && code % 100 < 32
  {
  }

  lemma CodeComesBack(code: nat)
    ensures CodeOf(CodeOctet(code)) == code <==> CodeFits(code)
  {
    CodeOfFits(CodeOctet(code));
    CodeParts(code);
    hide CodeFits;
    if CodeFits(code) {
      Pack(code / 100, code % 100);
    }
  }

  /** The first octet always has the low bits of the token's length, and version and type
      as long as that is short. */
  lemma FirstComesBack(m: Message)
    requires Encodable(m)
    ensures TokenLengthOf(FirstOctet(m)) == |WireToken(m)| % 16
    ensures m.version == 1 && m.kind in {0, 2} && |WireToken(m)| < 16 ==>
      VersionOf(FirstOctet(m)) == 1 && KindOf(FirstOctet(m)) == m.kind
  {
    hide Ascending, Or, WireToken;
    var high, length := (4 * m.version + m.kind) % 16, |WireToken(m)| % 256;
    Sixteenths(m.version, m.kind);
    OrNibbles(high, length);
    OrZero(high);
    NibblesOf(Or(high, length / 16), length % 16);
    assert length % 16 == |WireToken(m)| % 16;
  }

  lemma Sixteenths(version: nat, kind: nat)
    ensures (64 * version + 16 * kind) % 256 == 16 * ((4 * version + kind) % 16)
  {
  }

  lemma NibblesOf(high: nat, low: nat)
    requires low < 16
    ensures (16 * high + low) % 16 == low && (16 * high + low) / 16 == high
  {
  }

  lemma FourParts(buf: Bytes, head: Bytes, token: Bytes, options: Bytes, marker: Bytes, payload: Bytes)
    requires buf == head + token + options + (marker + payload)
    ensures At(buf, 0, head) && At(buf, |head|, token)
    ensures var i := |head| + |token|;
      && At(buf, i, options + marker) && At(buf, i + |options| + |marker|, payload)
      && |buf| == i + |options| + |marker| + |payload|
  {
    var tail := options + marker + payload;
    assert tail == options + (marker + payload);
    assert buf == head + token + tail;
    Join(head, token, tail);
    assert At(buf, 0, head + (token + tail));
    hide At;
    AtParts(buf, 0, head, token + tail);
    AtParts(buf, |head|, token, tail);
    AtParts(buf, |head| + |token|, options + marker, payload);
  }

  lemma LayoutParts(m: Message, buf: Bytes)
    requires Encodable(m) && buf == Layout(m)
    ensures var i := 4 + |WireToken(m)|;
      && i <= |buf| && buf[0] == FirstOctet(m) && buf[1] == CodeOctet(m.code) && ShortAt(buf, 2) == m.messageId
      && buf[4..i] == WireToken(m) && At(buf, i, OptionsBytes(m.options, 0) + [MARKER])
      && |buf| == i + |OptionsBytes(m.options, 0)| + 1 + |WirePayload(m)|
      && At(buf, i + |OptionsBytes(m.options, 0)| + 1, WirePayload(m))
  {
    hide OptionsBytes, FirstOctet, CodeOctet, Short, ShortAt, Ascending, WireToken, WirePayload;
    FourParts(buf, Head(m), WireToken(m), OptionsBytes(m.options, 0), [MARKER], WirePayload(m));
    var fixed := [FirstOctet(m), CodeOctet(m.code)];
    AtParts(buf, 0, fixed, Short(m.messageId));
    assert buf[0..2][0] == buf[0] && buf[0..2][1] == buf[1];
    ShortRoundTrip(buf, 2, m.messageId);
  }

  /** A string is copied whole when it has no 0 and is short. */
  lemma CopiedWhole(s: Bytes)
    ensures |Cut(CText(s))| <= |s|
    ensures |Cut(CText(s))| == |s| <==> 0 !in s && |s| < SHORT_SPACE
    ensures 0 !in s && |s| < SHORT_SPACE ==> Cut(CText(s)) == s
  {
  }

  lemma DecodeOf(buf: Bytes, i: nat, next: nat, options: seq<CoapOption>, payload: Option<Bytes>)
    requires 4 < i <= 12 && i <= |buf| && VersionOf(buf[0]) == 1 && TokenLengthOf(buf[0]) == i - 4
    requires OptionsAt(buf, i, 0) == Ok(options, next) && next <= |buf| && PayloadAt(buf, next) == Ok(payload, |buf|)
    ensures Decode(buf) ==
      Received(1, KindOf(buf[0]), CodeOf(buf[1]), ShortAt(buf, 2), Some(buf[4..i]), options, payload)
  {
    hide VersionOf, TokenLengthOf, KindOf, CodeOf, ShortAt, OptionsAt, PayloadAt;
  }

  lemma FaithfulIsWhole(m: Message)
    requires Faithful(m)
    ensures WireToken(m) == m.token && WirePayload(m) == m.payload
  {
    CopiedWhole(m.token);
    CopiedWhole(m.payload);
  }

  lemma FaithfulComesBack(m: Message)
    requires Encodable(m) && Faithful(m)
    ensures Decode(Layout(m)) == AsReceived(m)
  {
    hide Layout, OptionsBytes, OptionsAt, FirstOctet, CodeOctet, CodeOf, VersionOf, WireToken, WirePayload, CText, Cut;
    hide TokenLengthOf, KindOf, ShortAt, Ascending, OptionsFit, CodeFits, PayloadAt, At, Decode;
    FaithfulIsWhole(m);
    var buf, i, options := Layout(m), 4 + |m.token|, OptionsBytes(m.options, 0);
    LayoutParts(m, buf);
    FirstComesBack(m);
    CodeComesBack(m.code);
    OptionsDecode(m.options, 0, buf, i);
    AtParts(buf, i, options, [MARKER]);
    PayloadComesBack(buf, i + |options|, m.payload);
    DecodeOf(buf, i, i + |options|, m.options, Some(m.payload));
  }

  lemma PayloadComesBack(buf: Bytes, i: nat, payload: Bytes)
    requires payload != [] && 0 !in payload && At(buf, i + 1, payload) && |buf| == i + 1 + |payload|
    ensures PayloadAt(buf, i) == Ok(Some(payload), |buf|)
  {
    assert buf[i + 1..] == payload && buf[i + 1] == payload[0];
  }

  // ---- Nothing else comes back ----

  /** The octets the decoder passes for a length: none for the longest form. */
  function DecodedLengthExtension(n: int): nat {
    if 13 <= n < 269 then 1 else 0
  }

  /** The octets the decoder passes for some options. */
  function DecodedSize(options: seq<CoapOption>, previous: int): nat {
    if options == [] then 0
    else
      var delta, length := options[0].number - previous, |options[0].value|;
      1 + DecodedExtension(delta) + DecodedLengthExtension(length) + length + DecodedSize(options[1..], options[0].number)
  }

  predicate DeltasDecoded(options: seq<CoapOption>, previous: int) {
    options != [] ==> 0 <= options[0].number - previous <= 65804 && DeltasDecoded(options[1..], options[0].number)
  }

  lemma OptionConsumes(buf: Bytes, j: nat, number: int)
    requires j < |buf| && OptionAt(buf, j, number).Ok?
    ensures var r := OptionAt(buf, j, number);
      && 0 <= r.value.number - number <= 65804
      && r.next == j + 1 + DecodedExtension(r.value.number - number) + DecodedLengthExtension(|r.value.value|) + |r.value.value|
  {
    hide DeltaAt, LengthAt;
  }

  lemma {:induction false} OptionsConsume(buf: Bytes, j: nat, number: int)
    requires j <= |buf| && OptionsAt(buf, j, number).Ok?
    ensures var r := OptionsAt(buf, j, number);
      r.next == j + DecodedSize(r.value, number) && DeltasDecoded(r.value, number)
    decreases |buf| - j
  {
    hide OptionAt, DecodedExtension, DecodedLengthExtension;
    if j >= |buf| || buf[j] == MARKER {
    } else {
      OptionConsumes(buf, j, number);
      var o := OptionAt(buf, j, number);
      OptionsConsume(buf, o.next, o.value.number);
      var r := OptionsAt(buf, j, number).value;
      assert r[0] == o.value && r[1..] == OptionsAt(buf, o.next, o.value.number).value;
    }
  }

  predicate ShortValues(options: seq<CoapOption>) {
    options != [] ==> |options[0].value| < SHORT_SPACE && ShortValues(options[1..])
  }

  lemma OptionSize(o: CoapOption, previous: int)
    requires 0 <= o.number - previous <= 65804 && |o.value| < SHORT_SPACE
    ensures var size := 1 + DecodedExtension(o.number - previous) + DecodedLengthExtension(|o.value|) + |o.value|;
      && size <= |OptionBytes(o, previous)|
      && (size == |OptionBytes(o, previous)| <==> DeltaFits(o.number - previous) && |o.value| <= 254)
  {
    assert forall n: nat :: |Extension(n)| == if n < 13 then 0 else if n < 255 then 1 else 2;
    hide Nibble, Extension;
  }

  /** The decoder never passes more octets than were written, and as many only when
      every option fits. */
  lemma {:induction false} SizesCompare(options: seq<CoapOption>, previous: int)
    requires Ascending(options, previous) && ShortValues(options) && DeltasDecoded(options, previous)
    ensures DecodedSize(options, previous) <= |OptionsBytes(options, previous)|
    ensures DecodedSize(options, previous) == |OptionsBytes(options, previous)| <==> OptionsFit(options, previous)
    decreases |options|
  {
    hide OptionBytes, DecodedExtension, DecodedLengthExtension, DeltaFits;
    if options == [] {
    } else {
      OptionSize(options[0], previous);
      SizesCompare(options[1..], options[0].number);
    }
  }

  /** A message that comes back has kept its first octets and its token. */
  lemma HeadIsFaithful(m: Message)
    requires Encodable(m) && Decode(Layout(m)) == AsReceived(m)
    ensures m.version == 1 && m.kind in {0, 2} && CodeFits(m.code) && 1 <= |m.token| <= 8 && WireToken(m) == m.token
    ensures 0 !in m.token
  {
    var buf := Layout(m);
    LayoutParts(m, buf);
    FirstComesBack(m);
    CodeComesBack(m.code);
    CopiedWhole(m.token);
    hide Layout, OptionsAt, FirstOctet, CodeOctet, CodeOf, VersionOf, TokenLengthOf, KindOf, ShortAt, CodeFits, PayloadAt;
    hide CText, Cut, OptionsBytes, Ascending, WirePayload, At;
    KindIsEven(buf[0]);
    Remainder(|WireToken(m)|);
    assert |m.token| == TokenLengthOf(buf[0]);
  }

  lemma KindIsEven(first: octet)
    ensures KindOf(first) in {0, 2}
  {
  }

  lemma Remainder(n: nat)
    ensures n % 16 <= n
  {
  }

  lemma ReceivedParts(buf: Bytes)
    requires Decode(buf).Received? && Decode(buf).payload.Some?
    ensures var i := 4 + TokenLengthOf(buf[0]);
      && i <= |buf| && OptionsAt(buf, i, 0).Ok? && OptionsAt(buf, i, 0).value == Decode(buf).options
      && OptionsAt(buf, i, 0).next + 1 + |Decode(buf).payload.value| == |buf|
  {
    hide OptionsAt, VersionOf, TokenLengthOf, KindOf, CodeOf, ShortAt;
  }

  /** Its options and its payload stand where the decoder has found them. */
  lemma TailIsRead(m: Message)
    requires Encodable(m) && Decode(Layout(m)) == AsReceived(m) && WireToken(m) == m.token && |m.token| <= 8
    ensures var buf, i := Layout(m), 4 + |m.token|;
      && i <= |buf| && OptionsAt(buf, i, 0).Ok? && OptionsAt(buf, i, 0).value == m.options
      && OptionsAt(buf, i, 0).next + 1 + |m.payload| == |buf|
  {
    hide Layout, OptionsAt, Decode, FirstOctet, TokenLengthOf, VersionOf, KindOf, Ascending, WireToken, WirePayload, At, OptionsBytes;
    LayoutParts(m, Layout(m));
    FirstComesBack(m);
    ReceivedParts(Layout(m));
  }

  /** What is left of a buffer that was not overrun, behind the payload, is too short for
      a value of more than 254 octets. */
  lemma {:induction false} ShortValuesInside(options: seq<CoapOption>, previous: int)
    requires DecodedSize(options, previous) <= 254
    ensures SmallValues(options)
    decreases |options|
  {
    if options == [] {
    } else {
      ShortValuesInside(options[1..], options[0].number);
    }
  }

  predicate SmallValues(options: seq<CoapOption>) {
    options != [] ==> |options[0].value| <= 254 && SmallValues(options[1..])
  }

  /** A delta that does not fit is read as another. */
  lemma DeltaIsMistaken(o: CoapOption, previous: int, buf: Bytes, j: nat)
    requires previous <= o.number && !DeltaFits(o.number - previous) && At(buf, j, OptionBytes(o, previous))
    ensures OptionAt(buf, j, previous).Ok? ==> OptionAt(buf, j, previous).value.number != o.number
  {
    hide Short, ShortAt, LengthAt, LengthNibble, Cut;
    OptionParts(o, previous, buf, j);
    var n: nat := o.number - previous;
    Nibbles(Nibble(n), Nibble(|o.value|));
    if n < 269 {
      ShortRoundTrip(buf, j + 1, (n - 269) % SHORT_SPACE);
    }
  }

  lemma {:induction false} ReadOptionsFit(options: seq<CoapOption>, previous: int, buf: Bytes, j: nat)
    requires Ascending(options, previous) && SmallValues(options)
    requires At(buf, j, OptionsBytes(options, previous) + [MARKER])
    requires OptionsAt(buf, j, previous).Ok? && OptionsAt(buf, j, previous).value == options
    ensures OptionsFit(options, previous)
    decreases |options|
  {
    hide OptionBytes, OptionAt, DeltaFits;
    if options == [] {
    } else {
      var o, rest := options[0], options[1..];
      var first, more := OptionBytes(o, previous), OptionsBytes(rest, o.number);
      Join(first, more, [MARKER]);
      AtParts(buf, j, first, more + [MARKER]);
      hide At;
      var r := OptionAt(buf, j, previous);
      assert r.Ok? && r.value == o && OptionsAt(buf, r.next, o.number).value == rest;
      if DeltaFits(o.number - previous) {
        OptionDecodes(o, previous, buf, j);
        ReadOptionsFit(rest, o.number, buf, j + |first|);
      } else {
        DeltaIsMistaken(o, previous, buf, j);
      }
    }
  }

  /** The room that is left for the options, when the payload comes back. */
  lemma LittleRoom(m: Message)
    requires Encodable(m) && FitsBuffer(m) && Decode(Layout(m)) == AsReceived(m) && WireToken(m) == m.token
    requires 1 <= |m.token| <= 8
    ensures DecodedSize(m.options, 0) <= 254
  {
    TailIsRead(m);
    hide Layout, OptionsAt, Decode, Encodable;
    OptionsConsume(Layout(m), 4 + |m.token|, 0);
  }

  lemma WhatFitsIsFaithful(m: Message)
    requires Encodable(m) && FitsBuffer(m) && Decode(Layout(m)) == AsReceived(m)
    ensures Faithful(m)
  {
    hide Layout, OptionsBytes, OptionsAt, Decode, WireToken, WirePayload, OptionsFit, CodeFits, Ascending, FitsBuffer, At;
    hide SmallValues, DecodedSize;
    HeadIsFaithful(m);
    PayloadIsThere(m);
    LittleRoom(m);
    TailIsRead(m);
    ShortValuesInside(m.options, 0);
    var buf, i := Layout(m), 4 + |m.token|;
    LayoutParts(m, buf);
    ReadOptionsFit(m.options, 0, buf, i);
    OptionsDecode(m.options, 0, buf, i);
    PayloadIsWhole(m);
  }

  lemma PayloadIsWhole(m: Message)
    ensures |WirePayload(m)| == |m.payload| <==> 0 !in m.payload && |m.payload| < SHORT_SPACE
  {
    CopiedWhole(m.payload);
  }

  /** Outside its buffer too, as long as nothing is cut off. */
  lemma WhatComesBackIsFaithful(m: Message)
    requires Encodable(m) && Decode(Layout(m)) == AsReceived(m)
    requires |WirePayload(m)| == |m.payload| && ShortValues(m.options)
    ensures Faithful(m)
  {
    hide Layout, OptionsBytes, OptionsAt, Decode, WireToken, WirePayload, OptionsFit, CodeFits, Ascending, At;
    hide ShortValues, DecodedSize, DeltasDecoded;
    HeadIsFaithful(m);
    PayloadIsThere(m);
    TailIsRead(m);
    var buf, i := Layout(m), 4 + |m.token|;
    LayoutParts(m, buf);
    OptionsConsume(buf, i, 0);
    SizesCompare(m.options, 0);
    PayloadIsWhole(m);
  }

  lemma PayloadIsThere(m: Message)
    requires Encodable(m) && Decode(Layout(m)) == AsReceived(m)
    ensures m.payload != []
  {
    hide Layout, OptionsAt, FirstOctet, CodeOctet, CodeOf, VersionOf, TokenLengthOf, KindOf, ShortAt;
  }

  /** Of the messages that are encoded inside their buffer, whatever their fields, exactly
      the faithful ones come back, with any number of options; and so it is of the others,
      as long as their payload and their values are laid out whole. */
  lemma CoapRoundTrip(m: Message)
    requires Encodable(m)
    ensures FitsBuffer(m) || (|WirePayload(m)| == |m.payload| && ShortValues(m.options)) ==>
      (Decode(Layout(m)) == AsReceived(m) <==> Faithful(m))
    ensures Faithful(m) ==> Decode(Layout(m)) == AsReceived(m)
  {
    hide Decode, Layout, Encodable, Faithful, AsReceived, FitsBuffer, WirePayload, ShortValues;
    if Faithful(m) { FaithfulComesBack(m); }
    if Decode(Layout(m)) == AsReceived(m) {
      if FitsBuffer(m) { WhatFitsIsFaithful(m); }
      if |WirePayload(m)| == |m.payload| && ShortValues(m.options) { WhatComesBackIsFaithful(m); }
    }
  }

  function Letters(n: nat): (r: Bytes)
    ensures |r| == n && 0 !in r
  {
    seq(n, _ => 0x61)
  }

  lemma NoneCopied(payload: Bytes)
    requires 0 !in payload && |payload| == SHORT_SPACE
    ensures CText(payload) == payload && Cut(payload) == []
  {
  }

  lemma FirstOctetOf(m: Message)
    requires Encodable(m) && m.version == 1 && m.kind == 0 && |WireToken(m)| <= 1
    ensures FirstOctet(m) == 0x40 + |WireToken(m)|
  {
    hide Or, WireToken, Ascending;
    OrNibbles(4, |WireToken(m)|);
    OrZero(4);
  }

  /** A confirmable message with identifier 1 and no options. */
  lemma SimpleLayout(m: Message)
    requires m == Message(1, 0, m.code, 1, m.token, [], m.payload) && 0 <= m.code < 4 && |WireToken(m)| <= 1
    ensures Encodable(m)
    ensures Layout(m) == [0x40 + |WireToken(m)|, m.code, 0, 1] + WireToken(m) + ([MARKER] + WirePayload(m))
  {
    FirstOctetOf(m);
    hide FirstOctet, WireToken, WirePayload;
    assert Head(m) == [0x40 + |WireToken(m)|, m.code, 0, 1];
    hide Head;
    assert Head(m) + WireToken(m) + [] == Head(m) + WireToken(m);
  }

  /** Of a payload of 65536 octets none is laid out, which no code overruns, and the
      decoder looks for it behind the message. */
  lemma LongPayloadIsLost(code: int)
    requires code == 1 || code == PUT
    ensures var m := Message(1, 0, code, 1, [0x31], [], Letters(SHORT_SPACE));
      Encodable(m) && FitsBuffer(m) && Layout(m) == [0x41, code, 0, 1, 0x31, MARKER] && Decode(Layout(m)) == OutOfBounds
  {
    var m := Message(1, 0, code, 1, [0x31], [], Letters(SHORT_SPACE));
    NoneCopied(m.payload);
    CopiedWhole(m.token);
    hide Letters, CText, Cut;
    SimpleLayout(m);
    hide Layout;
    assert [0x41, code, 0, 1] + [0x31] + ([MARKER] + []) == [0x41, code, 0, 1, 0x31, MARKER];
  }

  lemma NoTokenDecodes(code: octet, payload: Bytes)
    requires code < 32 && payload != [] && 0 !in payload
    ensures Decode([0x40, code, 0, 1] + [] + ([MARKER] + payload)) == Received(1, 0, code, 1, None, [], Some(payload))
  {
    var buf := [0x40, code, 0, 1] + [] + ([MARKER] + payload);
    assert buf[4] == MARKER && buf[5..] == payload && buf[5] == payload[0];
  }

  lemma NothingBeforeZero(s: Bytes)
    requires s != [] && s[0] == 0
    ensures Cut(CText(s)) == []
  {
  }

  /** A token that starts with a 0, as one that was received may, is laid out empty. */
  lemma ZeroTokenIsLost()
    ensures var m := Message(1, 0, PUT, 1, [0], [], [0x61]);
      && Encodable(m) && FitsBuffer(m)
      && Decode(Layout(m)) == Received(1, 0, PUT, 1, None, [], Some(m.payload)) != AsReceived(m)
  {
    var m := Message(1, 0, PUT, 1, [0], [], [0x61]);
    NothingBeforeZero(m.token);
    CopiedWhole(m.payload);
    hide CText, Cut, Decode;
    SimpleLayout(m);
    hide Layout;
    NoTokenDecodes(PUT, m.payload);
  }
}
