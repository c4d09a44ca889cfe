/**
 CoAP messages as section 3 of RFC 7252 has a receiver read them, with every mask and
 position as the number the standard gives, and which of the messages that the client
 encodes say there what they were meant to say.
 */
module CoapStandard {
  import opened Octets
  import opened Coap
  import opened Taking

  /** An option delta or length: four bits, and what extends them (section 3.1). */
  function TakeExtended(nibble: int, s: Bytes): (r: Part<int>)
    requires 0 <= nibble
    ensures r.Part? ==> 0 <= r.value && |r.rest| <= |s|
  {
    if nibble < 13 then Part(nibble, s)
    else if nibble == 13 then (if s == [] then Broken else Part(13 + s[0] as int, s[1..]))
    else if nibble == 14 then
      match TakeNumber(s)
      case Broken => Broken
      case Part(n, t) => Part(269 + n, t)
    else Broken
  }

  function TakeOption(s: Bytes, previous: int): (r: Part<CoapOption>)
    requires s != []
    ensures r.Part? ==> |r.rest| < |s|
  {
    match TakeExtended(s[0] / 16, s[1..])
    case Broken => Broken
    case Part(delta, t) =>
      match TakeExtended(s[0] % 16, t)
      case Broken => Broken
      case Part(length, u) =>
        if length > |u| then Broken else Part(CoapOption(previous + delta, u[..length]), u[length..])
  }

  /** The options and the payload behind the marker; a marker with no payload behind it is
      a format error. */
  function TakeOptions(s: Bytes, previous: int): Option<(seq<CoapOption>, Bytes)>
    decreases |s|
  {
    if s == [] then Some(([], []))
    else if s[0] == 0xFF then (if |s| == 1 then None else Some(([], s[1..])))
    else match TakeOption(s, previous)
      case Broken => None
      case Part(o, t) =>
        match TakeOptions(t, o.number)
        case None => None
        case Some(r) => Some(([o] + r.0, r.1))
  }

  /** One message: version 1, a token of at most eight octets, and nothing behind the
      message identifier when the code is that of an empty message. */
  function Read(buf: Bytes): Option<Message> {
    if |buf| < 4 then None
    else
      var first: int, code: int := buf[0], buf[1];
      var length := first % 16;
      if first / 64 != 1 || length > 8 || 4 + length > |buf| || (code == 0 && |buf| > 4) then None
      else match TakeNumber(buf[2..4])
        case Broken => None
        case Part(id, _) =>
          match TakeOptions(buf[4 + length..], 0)
          case None => None
          case Some(r) =>
            Some(Message(1, first / 16 % 4, 100 * (code / 32) + code % 32, id, buf[4..4 + length], r.0, r.1))
  }

  // ---- Options ----

  /** What a delta or a length of `n` is read as. */
  function Meant(n: nat): (m: nat)
    ensures m == n <==> DeltaFits(n)
  {
    if n < 255 then n else (n - 269) % 65536 + 269
  }

  lemma ExtendedTaken(n: nat, rest: Bytes)
    ensures TakeExtended(Nibble(n), Extension(n) + rest) == Part(Meant(n), rest)
  {
    if n < 13 {
      assert [] + rest == rest;
    } else if n < 255 {
      assert ([n - 13] + rest)[1..] == rest;
    } else {
      NumberTaken((n - 269) % SHORT_SPACE, rest);
      hide TakeNumber, Short;
    }
  }

  lemma OptionTaken(o: CoapOption, previous: int, rest: Bytes)
    requires previous <= o.number && |o.value| < SHORT_SPACE
    ensures var s, all, n := OptionBytes(o, previous) + rest, o.value + rest, Meant(|o.value|);
      && s != [] && s[0] != 0xFF
      && TakeOption(s, previous) ==
           if n > |all| then Broken else Part(CoapOption(previous + Meant(o.number - previous), all[..n]), all[n..])
  {
    var d, l, b := Extension(o.number - previous), Extension(|o.value|), 16 * Nibble(o.number - previous) + Nibble(|o.value|);
    var s, all := OptionBytes(o, previous) + rest, o.value + rest;
    WholeValue(o.value);
    hide Extension, Nibble, TakeExtended, Meant, Cut;
    Five(s, [b], d, l, o.value, rest);
    TwoExtended(s, o.number - previous, |o.value|, previous, all);
  }

  lemma TwoExtended(s: Bytes, delta: nat, length: nat, previous: int, all: Bytes)
    requires s != [] && s[0] == 16 * Nibble(delta) + Nibble(length) && s[1..] == Extension(delta) + (Extension(length) + all)
    ensures s[0] != 0xFF
    ensures TakeOption(s, previous) ==
      if Meant(length) > |all| then Broken else Part(CoapOption(previous + Meant(delta), all[..Meant(length)]), all[Meant(length)..])
  {
    ExtendedTaken(delta, Extension(length) + all);
    ExtendedTaken(length, all);
    Halves(Nibble(delta), Nibble(length));
    hide Extension, Nibble, TakeExtended, Meant;
  }

  lemma Five(s: Bytes, b: Bytes, d: Bytes, l: Bytes, v: Bytes, rest: Bytes)
    requires |b| == 1 && s == b + d + l + v + rest
    ensures s[1..] == d + (l + (v + rest)) && s[0] == b[0]
  {
    assert s == b + (d + (l + (v + rest)));
  }

  lemma Halves(m: int, n: int)
    requires 0 <= m <= 14 && 0 <= n <= 14
    ensures (16 * m + n) / 16 == m && (16 * m + n) % 16 == n && 16 * m + n < 0xFF
  {
  }

  lemma WholeValue(s: Bytes)
    requires |s| < SHORT_SPACE
    ensures Cut(s) == s
  {
  }

  predicate ShortValues(options: seq<CoapOption>) {
    forall k :: 0 <= k < |options| ==> |options[k].value| < SHORT_SPACE
  }

  /** Every delta and every length of a value is one that is written right. */
  predicate OptionsConform(options: seq<CoapOption>, previous: int) {
    options != [] ==>
      && DeltaFits(options[0].number - previous) && DeltaFits(|options[0].value|) && |options[0].value| < SHORT_SPACE
      && OptionsConform(options[1..], options[0].number)
  }

  /** The options are read as they are, with the payload behind them, exactly when both
      conform. */
  predicate ReadExactly(options: seq<CoapOption>, previous: int, payload: Bytes, r: Option<(seq<CoapOption>, Bytes)>) {
    && (OptionsConform(options, previous) && payload != [] ==> r == Some((options, payload)))
    && (r.Some? && r.value.0 == options ==> OptionsConform(options, previous) && payload != [] && r.value.1 == payload)
  }

  lemma {:induction false} OptionsTaken(options: seq<CoapOption>, previous: int, payload: Bytes)
    requires Ascending(options, previous) && ShortValues(options)
    ensures ReadExactly(options, previous, payload, TakeOptions(OptionsBytes(options, previous) + ([0xFF] + payload), previous))
    decreases |options|
  {
    var tail := [0xFF] + payload;
    if options == [] {
      assert [] + tail == tail && tail[1..] == payload;
    } else {
      MoreAreShort(options);
      OptionsTaken(options[1..], options[0].number, payload);
      hide *;
      OneMoreTaken(options, previous, payload);
    }
  }

  lemma OneMoreTaken(options: seq<CoapOption>, previous: int, payload: Bytes)
    requires options != [] && Ascending(options, previous) && |options[0].value| < SHORT_SPACE
    requires var o, more := options[0], options[1..];
      ReadExactly(more, o.number, payload, TakeOptions(OptionsBytes(more, o.number) + ([0xFF] + payload), o.number))
    ensures ReadExactly(options, previous, payload, TakeOptions(OptionsBytes(options, previous) + ([0xFF] + payload), previous))
  {
    var tail, o, more := [0xFF] + payload, options[0], options[1..];
    OneInFront(options, previous, tail);
    FirstTaken(o, previous, OptionsBytes(more, o.number) + tail, more, payload);
    hide OptionBytes, TakeOptions, OptionsBytes, DeltaFits;
    assert [o] + more == options;
  }

  lemma OneInFront(options: seq<CoapOption>, previous: int, tail: Bytes)
    requires options != [] && Ascending(options, previous)
    ensures OptionsBytes(options, previous) + tail
         == OptionBytes(options[0], previous) + (OptionsBytes(options[1..], options[0].number) + tail)
  {
    hide OptionBytes;
  }

  lemma MoreAreShort(options: seq<CoapOption>)
    requires options != [] && ShortValues(options)
    ensures ShortValues(options[1..]) && |options[0].value| < SHORT_SPACE
  {
    forall k | 0 <= k < |options[1..]| ensures |options[1..][k].value| < SHORT_SPACE {
      assert options[1..][k] == options[k + 1];
    }
  }

  /** An option is read as it is, and what is behind it left, exactly when it fits. */
  lemma OptionExact(o: CoapOption, previous: int, rest: Bytes)
    requires previous <= o.number && |o.value| < SHORT_SPACE
    ensures var s := OptionBytes(o, previous) + rest; var r := TakeOption(s, previous);
      && s != [] && s[0] != 0xFF
      && (DeltaFits(o.number - previous) && DeltaFits(|o.value|) <==> r == Part(o, rest))
      && (r.Part? && r.value == o ==> r.rest == rest)
  {
    OptionTaken(o, previous, rest);
    hide TakeOption, OptionBytes, DeltaFits, Meant;
    SplitsWhole(o.value, rest, Meant(|o.value|));
  }

  lemma SplitsWhole(v: Bytes, rest: Bytes, n: nat)
    ensures n <= |v + rest| ==> ((v + rest)[..n] == v <==> n == |v|)
    ensures (v + rest)[..|v|] == v && (v + rest)[|v|..] == rest
  {
    if n <= |v + rest| { assert |(v + rest)[..n]| == n; }
  }

  lemma TakesOne(s: Bytes, previous: int)
    requires s != [] && s[0] != 0xFF
    ensures TakeOptions(s, previous) ==
      match TakeOption(s, previous)
      case Broken => None
      case Part(o, t) =>
        match TakeOptions(t, o.number)
        case None => None
        case Some(r) => Some(([o] + r.0, r.1))
  {
    hide TakeOption;
  }

  /** What reading one more option in front does. */
  lemma FirstTaken(o: CoapOption, previous: int, rest: Bytes, more: seq<CoapOption>, payload: Bytes)
    requires previous <= o.number && |o.value| < SHORT_SPACE
    ensures var r, q := TakeOptions(OptionBytes(o, previous) + rest, previous), TakeOptions(rest, o.number);
      && (DeltaFits(o.number - previous) && DeltaFits(|o.value|) && q == Some((more, payload)) ==> r == Some(([o] + more, payload)))
      && (r.Some? && r.value.0 == [o] + more ==>
           DeltaFits(o.number - previous) && DeltaFits(|o.value|) && q == Some((more, r.value.1)))
  {
    var s := OptionBytes(o, previous) + rest;
    OptionExact(o, previous, rest);
    TakesOne(s, previous);
    hide TakeOption, TakeOptions, DeltaFits, OptionBytes;
    var r, t := TakeOptions(s, previous), TakeOption(s, previous);
    if r.Some? && r.value.0 == [o] + more {
      var q := TakeOptions(t.rest, t.value.number);
      SameHead(t.value, q.value.0, o, more);
    }
  }

  lemma SameHead<T>(x: T, xs: seq<T>, y: T, ys: seq<T>)
    requires [x] + xs == [y] + ys
    ensures x == y && xs == ys
  {
    assert ([x] + xs)[0] == x && ([y] + ys)[0] == y;
    assert ([x] + xs)[1..] == xs && ([y] + ys)[1..] == ys;
  }

  // ---- Messages ----

  /** Version, type and token length, while the token is short. */
  lemma FirstReads(m: Message)
    requires Encodable(m) && |WireToken(m)| < 16
    ensures var first: int := FirstOctet(m);
      && first % 16 == |WireToken(m)| && first / 64 == (4 * m.version + m.kind) % 16 / 4 && first / 16 % 4 == m.kind % 4
  {
    hide Ascending, Or, WireToken;
    var high, length := (4 * m.version + m.kind) % 16, |WireToken(m)|;
    Sixteenths(m.version, m.kind);
    OrNibbles(high, length);
    OrZero(high);
    var first: int := FirstOctet(m);
    assert first == 16 * high + length;
    Quarter(first, high, length, m.version, m.kind);
  }

  lemma Quarter(first: int, high: int, low: int, version: nat, kind: nat)
    requires high == (4 * version + kind) % 16 && 0 <= low < 16 && first == 16 * high + low
    ensures first % 16 == low && first / 64 == high / 4 && first / 16 % 4 == kind % 4
  {
    assert first / 16 == high;
    assert high % 4 == (4 * version + kind) % 4;
  }

  lemma TokenLow(m: Message)
    requires Encodable(m)
    ensures FirstOctet(m) % 16 == |WireToken(m)| % 16
  {
    FirstComesBack(m);
  }

  lemma VersionAndKind(version: nat, kind: nat)
    ensures version == 1 && kind < 4 <==> (4 * version + kind) % 16 / 4 == 1 && version == 1 && kind == kind % 4
  {
  }

  /** Which messages say to a receiver that follows the standard what they were meant to
      say.  Lengths between 255 and 268 are written wrong, as are such deltas; an empty
      message and one without a payload get a marker all the same. */
  predicate Conforms(m: Message) {
    && m.version == 1 && m.kind < 4 && CodeFits(m.code) && m.code != 0
    && |m.token| <= 8 && 0 !in m.token
    && 1 <= |m.payload| < SHORT_SPACE && 0 !in m.payload
    && OptionsConform(m.options, 0)
  }

  lemma {:induction false} ConformIsShort(options: seq<CoapOption>, previous: int)
    requires OptionsConform(options, previous)
    ensures ShortValues(options)
    decreases |options|
  {
    hide DeltaFits;
    if options != [] {
      ConformIsShort(options[1..], options[0].number);
      forall k | 0 <= k < |options| ensures |options[k].value| < SHORT_SPACE {
        if k > 0 { assert options[k] == options[1..][k - 1]; }
      }
    }
  }

  lemma CodeIs(b: octet)
    ensures var n: int := b; CodeOf(b) == 100 * (n / 32) + n % 32
  {
  }

  /** The layout, as `Read` takes it apart. */
  lemma LayoutTaken(m: Message)
    requires Encodable(m)
    ensures var buf, n := Layout(m), |WireToken(m)|;
      && |buf| > 4 + n && buf[0] == FirstOctet(m) && buf[1] == CodeOctet(m.code)
      && TakeNumber(buf[2..4]) == Part(m.messageId, [])
      && buf[4..4 + n] == WireToken(m)
      && buf[4 + n..] == OptionsBytes(m.options, 0) + ([0xFF] + WirePayload(m))
  {
    hide FirstOctet, CodeOctet, WireToken, WirePayload, OptionsBytes, Ascending, Short;
    var buf, tail := Layout(m), OptionsBytes(m.options, 0) + ([0xFF] + WirePayload(m));
    assert buf == Head(m) + WireToken(m) + tail;
    var fixed := [FirstOctet(m), CodeOctet(m.code)];
    assert buf == fixed + (Short(m.messageId) + (WireToken(m) + tail));
    assert buf[2..4] == Short(m.messageId) + [];
    NumberTaken(m.messageId, []);
  }

  lemma TokenIs(m: Message)
    ensures |WireToken(m)| <= |m.token|
    ensures WireToken(m) == m.token <==> 0 !in m.token && |m.token| < SHORT_SPACE
    ensures WirePayload(m) == m.payload <==> 0 !in m.payload && |m.payload| < SHORT_SPACE
  {
    CopiedWhole(m.token);
    CopiedWhole(m.payload);
  }

  /** Where the parts of the message stand decides what is read. */
  lemma ReadIs(buf: Bytes, n: nat, id: int, version: int, kind: int, code: int)
    requires 4 + n <= |buf| && |buf| > 4 && TakeNumber(buf[2..4]) == Part(id, []) && buf[0] % 16 == n
    requires version == buf[0] as int / 64 && kind == buf[0] as int / 16 % 4 && code == 100 * (buf[1] as int / 32) + buf[1] as int % 32
    ensures var o := TakeOptions(buf[4 + n..], 0);
      Read(buf) ==
        if version != 1 || n > 8 || code == 0 || o.None? then None
        else Some(Message(1, kind, code, id, buf[4..4 + n], o.value.0, o.value.1))
  {
    hide TakeNumber, TakeOptions;
    NoCodeIsZero(buf[1]);
  }

  lemma NoCodeIsZero(b: octet)
    ensures 100 * (b as int / 32) + b as int % 32 == 0 <==> b == 0
  {
  }

  /** A message is read as it was meant when it conforms, and, as long as its option values
      are shorter than 65536 octets, only then. */
  lemma ReadsAsMeant(m: Message)
    requires Encodable(m)
    ensures Conforms(m) ==> Read(Layout(m)) == Some(m)
    ensures ShortValues(m.options) && Read(Layout(m)) == Some(m) ==> Conforms(m)
  {
    LayoutTaken(m);
    TokenIs(m);
    if |WireToken(m)| < 16 {
      ShortTokenReads(m);
    } else {
      TokenLow(m);
      hide WireToken, WirePayload, FirstOctet, Layout, TakeOptions, TakeNumber, OptionsConform, ShortValues;
      ReadsShorter(Layout(m));
    }
  }

  /** The token that is read is as long as the low half of the first octet says. */
  lemma ReadsShorter(buf: Bytes)
    ensures Read(buf).Some? ==> |Read(buf).value.token| < 16
  {
    hide TakeOptions, TakeNumber;
  }

  lemma ShortTokenReads(m: Message)
    requires Encodable(m) && |WireToken(m)| < 16
    ensures Conforms(m) ==> Read(Layout(m)) == Some(m)
    ensures ShortValues(m.options) && Read(Layout(m)) == Some(m) ==> Conforms(m)
  {
    LayoutTaken(m);
    TokenIs(m);
    var buf, code := Layout(m), CodeOf(CodeOctet(m.code));
    CodeComesBack(m.code);
    CodeIs(CodeOctet(m.code));
    FirstReads(m);
    VersionAndKind(m.version, m.kind);
    var version := (4 * m.version + m.kind) % 16 / 4;
    hide WireToken, WirePayload, FirstOctet, CodeOctet, CodeOf, Layout, OptionsBytes, TakeOptions, TakeNumber, Ascending, ShortValues;
    ReadIs(buf, |WireToken(m)|, m.messageId, version, m.kind % 4, code);
    hide Read;
    Decides(m, version, m.kind % 4, code);
  }

  lemma Decides(m: Message, version: int, kind: int, code: int)
    requires Encodable(m) && (code == m.code <==> CodeFits(m.code))
    requires m.version == 1 && m.kind < 4 <==> version == 1 && m.version == 1 && m.kind == kind
    ensures var n, o := |WireToken(m)|, TakeOptions(OptionsBytes(m.options, 0) + ([0xFF] + WirePayload(m)), 0);
      var r := if version != 1 || n > 8 || code == 0 || o.None? then None
               else Some(Message(1, kind, code, m.messageId, WireToken(m), o.value.0, o.value.1));
      (Conforms(m) ==> r == Some(m)) && (ShortValues(m.options) && r == Some(m) ==> Conforms(m))
  {
    TokenIs(m);
    if Conforms(m) { ConformIsShort(m.options, 0); }
    if ShortValues(m.options) { OptionsTaken(m.options, 0, WirePayload(m)); }
    hide WireToken, WirePayload, OptionsBytes, TakeOptions, Ascending, ShortValues, CodeFits, OptionsConform;
  }

  // ---- What the client makes of messages of the standard ----

  /** `buf` ends in `s`, which is what is still to be read. */
  predicate Ends(buf: Bytes, s: Bytes) {
    |s| <= |buf| && buf[|buf| - |s|..] == s
  }

  /** Where `s` stands. */
  function Pos(buf: Bytes, s: Bytes): (i: nat)
    requires |s| <= |buf|
    ensures i + |s| == |buf|
  {
    |buf| - |s|
  }

  lemma EndsAfter(buf: Bytes, s: Bytes, n: nat)
    requires Ends(buf, s) && n <= |s|
    ensures Ends(buf, s[n..]) && Pos(buf, s[n..]) == Pos(buf, s) + n
    ensures buf[Pos(buf, s)..Pos(buf, s) + n] == s[..n]
    ensures n > 0 ==> buf[Pos(buf, s)] == s[0]
    ensures n > 1 ==> buf[Pos(buf, s) + 1] == s[1]
  {
    var i := Pos(buf, s);
    assert buf[i..][n..] == buf[i + n..] && buf[i..][..n] == buf[i..i + n];
  }

  lemma DeltaAgrees(buf: Bytes, s: Bytes, nibble: int)
    requires 0 <= nibble && Ends(buf, s) && TakeExtended(nibble, s).Part?
    ensures var r := TakeExtended(nibble, s);
      && Ends(buf, r.rest) && DeltaAt(buf, Pos(buf, s), nibble) == Parsed.Ok(r.value, Pos(buf, r.rest))
      && (r.value < 269 ==> LengthAt(buf, Pos(buf, s), nibble) == Parsed.Ok(r.value, Pos(buf, r.rest)))
  {
    hide Ends;
    if nibble == 13 { EndsAfter(buf, s, 1); }
    if nibble == 14 { EndsAfter(buf, s, 2); }
  }

  lemma ValueAgrees(buf: Bytes, u: Bytes, n: nat)
    requires Ends(buf, u) && n <= |u|
    ensures Pos(buf, u) + n <= |buf| && buf[Pos(buf, u)..Pos(buf, u) + n] == u[..n]
    ensures Ends(buf, u[n..]) && Pos(buf, u[n..]) == Pos(buf, u) + n
  {
    EndsAfter(buf, u, n);
    hide Ends;
  }

  /** What an option that is read was put together from. */
  lemma TakesParts(s: Bytes, previous: int) returns (delta: int, t: Bytes, length: nat, u: Bytes)
    requires s != [] && TakeOption(s, previous).Part?
    ensures TakeExtended(DeltaNibble(s[0]), s[1..]) == Part(delta, t) && TakeExtended(LengthNibble(s[0]), t) == Part(length, u)
    ensures length <= |u|
    ensures TakeOption(s, previous) == Part(CoapOption(previous + delta, u[..length]), u[length..])
  {
    hide TakeExtended;
    delta, t := TakeExtended(s[0] / 16, s[1..]).value, TakeExtended(s[0] / 16, s[1..]).rest;
    length, u := TakeExtended(s[0] % 16, t).value, TakeExtended(s[0] % 16, t).rest;
  }

  lemma OptionStands(buf: Bytes, j: nat, number: int, delta: int, i: nat, length: nat, k: nat, value: Bytes)
    requires j < |buf| && DeltaAt(buf, j + 1, DeltaNibble(buf[j])) == Parsed.Ok(delta, i)
    requires LengthAt(buf, i, LengthNibble(buf[j])) == Parsed.Ok(length, k) && k + length <= |buf| && buf[k..k + length] == value
    ensures OptionAt(buf, j, number) == Parsed.Ok(CoapOption(number + delta, value), k + length)
  {
    OptionOf(buf, j, number, delta, i, length, k);
    hide OptionAt, DeltaAt, LengthAt;
  }

  /** An option whose value has fewer than 269 octets. */
  lemma OptionAgrees(buf: Bytes, s: Bytes, previous: int)
    requires s != [] && Ends(buf, s) && TakeOption(s, previous).Part? && |TakeOption(s, previous).value.value| < 269
    ensures var r := TakeOption(s, previous);
      Ends(buf, r.rest) && OptionAt(buf, Pos(buf, s), previous) == Parsed.Ok(r.value, Pos(buf, r.rest))
  {
    hide *;
    FirstOf(buf, s);
    var delta, t, length, u := TakesParts(s, previous);
    DeltaAgrees(buf, s[1..], DeltaNibble(s[0]));
    DeltaAgrees(buf, t, LengthNibble(s[0]));
    ValueAgrees(buf, u, length);
    OptionStands(buf, Pos(buf, s), previous, delta, Pos(buf, t), length, Pos(buf, u), u[..length]);
  }

  predicate UsualValues(options: seq<CoapOption>) {
    options != [] ==> |options[0].value| < 269 && UsualValues(options[1..])
  }

  lemma FirstUsual(o: CoapOption, more: seq<CoapOption>)
    requires UsualValues([o] + more)
    ensures |o.value| < 269 && UsualValues(more)
  {
    assert ([o] + more)[0] == o && ([o] + more)[1..] == more;
  }

  /** Where the payload's marker stands, or the end. */
  function MarkerAt(buf: Bytes, payload: Bytes): int {
    if payload == [] then |buf| else |buf| - 1 - |payload|
  }

  /** What the client's loop makes of options and a payload that end the buffer. */
  function Seen(buf: Bytes, options: seq<CoapOption>, payload: Bytes): Parsed<seq<CoapOption>> {
    if MarkerAt(buf, payload) < 0 then Bad else Parsed.Ok(options, MarkerAt(buf, payload))
  }

  lemma NoOptions(buf: Bytes, s: Bytes, previous: int)
    requires Ends(buf, s) && TakeOptions(s, previous).Some? && (s == [] || s[0] == 0xFF)
    ensures var r := TakeOptions(s, previous).value;
      |r.1| <= |buf| && Ends(buf, r.1) && OptionsAt(buf, Pos(buf, s), previous) == Seen(buf, r.0, r.1)
  {
    hide Ends;
    if s != [] { EndsAfter(buf, s, 1); } else { EndsAfter(buf, s, 0); }
  }

  lemma ReadsOne(buf: Bytes, j: nat, previous: int)
    requires j < |buf| && buf[j] != 0xFF && OptionAt(buf, j, previous).Ok?
    ensures var o := OptionAt(buf, j, previous);
      OptionsAt(buf, j, previous) == Prepend(o.value, OptionsAt(buf, o.next, o.value.number))
  {
    hide OptionAt;
  }

  lemma OneMoreSeen(buf: Bytes, o: CoapOption, options: seq<CoapOption>, payload: Bytes)
    ensures Prepend(o, Seen(buf, options, payload)) == Seen(buf, [o] + options, payload)
  {
  }

  lemma {:induction false} OptionsAgree(buf: Bytes, s: Bytes, previous: int)
    requires Ends(buf, s) && TakeOptions(s, previous).Some? && UsualValues(TakeOptions(s, previous).value.0)
    ensures var r := TakeOptions(s, previous).value;
      |r.1| <= |buf| && Ends(buf, r.1) && OptionsAt(buf, Pos(buf, s), previous) == Seen(buf, r.0, r.1)
    decreases |s|
  {
    hide Ends, Pos, TakeOptions, TakeOption, OptionsAt, OptionAt, UsualValues, Seen, Prepend;
    if s == [] || s[0] == 0xFF {
      NoOptions(buf, s, previous);
    } else {
      TakesOne(s, previous);
      var o := TakeOption(s, previous);
      var r := TakeOptions(o.rest, o.value.number).value;
      FirstUsual(o.value, r.0);
      OptionAgrees(buf, s, previous);
      OptionsAgree(buf, o.rest, o.value.number);
      FirstOf(buf, s);
      ReadsOne(buf, Pos(buf, s), previous);
      OneMoreSeen(buf, o.value, r.0, r.1);
    }
  }

  lemma FirstOf(buf: Bytes, s: Bytes)
    requires Ends(buf, s) && s != []
    ensures Pos(buf, s) < |buf| && buf[Pos(buf, s)] == s[0]
    ensures Ends(buf, s[1..]) && Pos(buf, s[1..]) == Pos(buf, s) + 1
  {
    EndsAfter(buf, s, 1);
    hide Ends;
  }

  /** The parts of a message that is read. */
  lemma ReadParts(buf: Bytes)
    requires Read(buf).Some?
    ensures |buf| >= 4
    ensures var m, i := Read(buf).value, 4 + buf[0] as int % 16;
      && buf[0] as int / 64 == 1 && i <= 12 && i <= |buf|
      && m.kind == buf[0] as int / 16 % 4 && m.code == CodeOf(buf[1]) && m.messageId == ShortAt(buf, 2)
      && m.token == buf[4..i] && TakeOptions(buf[i..], 0) == Some((m.options, m.payload))
  {
    NumberIs(buf);
    CodeIs(buf[1]);
    hide TakeOptions, TakeNumber, ShortAt, CodeOf;
  }

  lemma NumberIs(buf: Bytes)
    requires |buf| >= 4
    ensures TakeNumber(buf[2..4]) == Part(ShortAt(buf, 2), [])
  {
  }

  lemma HeadMeans(b: octet)
    ensures VersionOf(b) == b as int / 64 && TokenLengthOf(b) == b as int % 16
    ensures KindOf(b) == if b as int / 16 % 4 < 2 then 0 else 2
  {
    var n: int := b;
    assert n / 32 == n / 16 / 2;
    var k := n / 16 % 4;
    assert n / 32 % 2 == k / 2;
  }

  lemma PayloadSeen(buf: Bytes, payload: Bytes)
    requires Ends(buf, payload) && MarkerAt(buf, payload) >= 0
    ensures PayloadAt(buf, MarkerAt(buf, payload)) == Parsed.Ok(if payload == [] || payload[0] == 0 then None else Some(payload), |buf|)
  {
    if payload != [] { EndsAfter(buf, payload, 1); }
  }

  /** The options, and the payload behind them. */
  lemma TailMeans(buf: Bytes, i: nat, options: seq<CoapOption>, payload: Bytes)
    requires i <= |buf| && TakeOptions(buf[i..], 0) == Some((options, payload)) && UsualValues(options)
    ensures var k := MarkerAt(buf, payload);
      && 0 <= k <= |buf| && OptionsAt(buf, i, 0) == Parsed.Ok(options, k)
      && PayloadAt(buf, k) == Parsed.Ok(if payload == [] || payload[0] == 0 then None else Some(payload), |buf|)
  {
    assert Ends(buf, buf[i..]) && Pos(buf, buf[i..]) == i;
    PayloadIsShorter(buf[i..], 0);
    hide Ends, Pos, TakeOptions, OptionsAt, UsualValues, PayloadAt;
    OptionsAgree(buf, buf[i..], 0);
    PayloadSeen(buf, payload);
  }

  lemma {:induction false} PayloadIsShorter(s: Bytes, previous: int)
    requires TakeOptions(s, previous).Some?
    ensures var payload := TakeOptions(s, previous).value.1; payload == [] || |payload| < |s|
    decreases |s|
  {
    if s != [] && s[0] != 0xFF {
      TakesOne(s, previous);
      var o := TakeOption(s, previous);
      PayloadIsShorter(o.rest, o.value.number);
      hide TakeOptions, TakeOption;
    }
  }

  lemma DecodeParts(buf: Bytes, i: nat, k: nat, options: seq<CoapOption>, payload: Option<Bytes>)
    requires 4 <= i <= 12 && i <= |buf| && VersionOf(buf[0]) == 1 && TokenLengthOf(buf[0]) == i - 4
    requires OptionsAt(buf, i, 0) == Parsed.Ok(options, k) && k <= |buf| && PayloadAt(buf, k) == Parsed.Ok(payload, |buf|)
    ensures Decode(buf) == Received(
      1, KindOf(buf[0]), CodeOf(buf[1]), ShortAt(buf, 2), if buf[4..i] == [] then None else Some(buf[4..i]), options, payload)
  {
    assert |buf[4..i]| == i - 4;
    hide VersionOf, TokenLengthOf, KindOf, CodeOf, ShortAt, OptionsAt, PayloadAt;
  }

  /** A message of the standard, whoever encoded it, is decoded to what it says, as long as
      its option values have fewer than 269 octets; but of two types one is taken for the
      other, and a payload that starts with 0 for none. */
  lemma MessageMeans(buf: Bytes)
    requires Read(buf).Some? && UsualValues(Read(buf).value.options)
    ensures var m := Read(buf).value;
      Decode(buf) == Received(1, if m.kind < 2 then 0 else 2, m.code, m.messageId, if m.token == [] then None else Some(m.token),
                              m.options, if m.payload == [] || m.payload[0] == 0 then None else Some(m.payload))
  {
    ReadParts(buf);
    var i, m := 4 + buf[0] as int % 16, Read(buf).value;
    hide Read, TakeOptions, UsualValues;
    TailMeans(buf, i, m.options, m.payload);
    HeadMeans(buf[0]);
    DecodeParts(buf, i, MarkerAt(buf, m.payload), m.options, if m.payload == [] || m.payload[0] == 0 then None else Some(m.payload));
    hide OptionsAt, PayloadAt, VersionOf, KindOf, TokenLengthOf, CodeOf, ShortAt, MarkerAt, Decode;
  }
}
