/**
 The AMQP 1.0 type system on the wire (sections 1.2 and 1.6 of part 1 of the
 standard) and the recursive decoder of tlv_factory.c.

 `Value` is what a peer can send and `Encode` its wire form.  `TlvAt` follows
 `get_tlv` on a buffer and says which record it builds and where it leaves the
 cursor, or that it reads outside the buffer.
 */
module AmqpTlv {
  import opened Octets

  const AMQP_NULL: octet := 0x40
  const BOOLEAN_TRUE: octet := 0x41
  const BOOLEAN_FALSE: octet := 0x42
  const UINT_0: octet := 0x43
  const ULONG_0: octet := 0x44
  const LIST_0: octet := 0x45
  const UBYTE: octet := 0x50
  const SMALL_UINT: octet := 0x52
  const SMALL_ULONG: octet := 0x53
  const BOOLEAN: octet := 0x56
  const UINT: octet := 0x70
  const BINARY_8: octet := 0xA0
  const BINARY_32: octet := 0xB0
  const LIST_8: octet := 0xC0
  const LIST_32: octet := 0xD0
  const ARRAY_8: octet := 0xE0

  /** How the body that follows a constructor is laid out. */
  datatype Layout =
    | Nothing                     // null
    | Constant                    // true, false, uint0, ulong0
    | Fixed(width: nat)
    | Variable(wide: bool)        // binary, string, symbol
    | EmptyList
    | List(wide: bool)
    | Map(wide: bool)
    | Array(wide: bool)
    | Unknown

  /** The cases of the switch in `get_element`. */
  function LayoutOf(code: octet): Layout {
    if code == AMQP_NULL then Nothing
    else if code in {BOOLEAN_TRUE, BOOLEAN_FALSE, UINT_0, ULONG_0} then Constant
    else if code in {UBYTE, 0x51, SMALL_UINT, SMALL_ULONG, 0x54, 0x55, BOOLEAN} then Fixed(1)
    else if code in {0x60, 0x61} then Fixed(2)
    else if code in {UINT, 0x71, 0x72, 0x73, 0x74} then Fixed(4)
    else if code in {0x80, 0x81, 0x82, 0x83, 0x84} then Fixed(8)
    else if code in {0x94, 0x98} then Fixed(16)
    else if code in {BINARY_8, 0xA1, 0xA3} then Variable(false)
    else if code in {BINARY_32, 0xB1, 0xB3} then Variable(true)
    else if code == LIST_0 then EmptyList
    else if code == LIST_8 then List(false)
    else if code == LIST_32 then List(true)
    else if code == 0xC1 then Map(false)
    else if code == 0xD1 then Map(true)
    else if code == ARRAY_8 then Array(false)
    else if code == 0xF0 then Array(true)
    else Unknown
  }

  // ---- The wire form ----

  datatype Value = Value(ctor: Ctor, body: Body)
  datatype Ctor = Plain(code: octet) | Described(descriptor: Value, code: octet)
  datatype Body =
    | Scalar(data: Bytes)
    | Items(items: seq<Value>)
    | Pairs(pairs: seq<Pair>)
    | Elements(ctor: Ctor, bodies: seq<Body>)
  datatype Pair = Pair(key: Value, value: Value)

  /** A size or count field, of one octet or of four. */
  function Field(wide: bool, n: nat): (r: Bytes)
    requires n < if wide then INT_SPACE / 2 else 256
    ensures |r| == FieldWidth(wide)
  {
    if wide then Int(n) else [n]
  }

  function FieldWidth(wide: bool): nat {
    if wide then 4 else 1
  }

  predicate Fits(wide: bool, n: nat) {
    n < if wide then INT_SPACE / 2 else 256
  }

  function Encode(v: Value): Bytes
    requires WellFormed(v)
    decreases v, 1
  {
    EncodeCtor(v.ctor) + EncodeBody(v.ctor.code, v.body)
  }

  function EncodeCtor(c: Ctor): Bytes
    requires WellFormedCtor(c)
    decreases c, 1
  {
    match c
    case Plain(code) => [code]
    case Described(d, code) => [0] + Encode(d) + [code]
  }

  /** Sizes count the octets after the size field, so the count field is included. */
  function EncodeBody(code: octet, b: Body): Bytes
    requires WellFormedBody(code, b)
    decreases b, 1
  {
    match LayoutOf(code)
    case Fixed(_) => b.data
    case Variable(wide) => Field(wide, |b.data|) + b.data
    case List(wide) =>
      var payload := EncodeItems(b.items);
      Field(wide, FieldWidth(wide) + |payload|) + Field(wide, |b.items|) + payload
    case Map(wide) =>
      var payload := EncodePairs(b.pairs);
      Field(wide, FieldWidth(wide) + |payload|) + Field(wide, 2 * |b.pairs|) + payload
    case Array(wide) =>
      var payload := EncodeCtor(b.ctor) + EncodeBodies(b.ctor.code, b.bodies);
      Field(wide, FieldWidth(wide) + |payload|) + Field(wide, |b.bodies|) + payload
    case _ => []
  }

  function EncodeItems(items: seq<Value>): Bytes
    requires forall i :: 0 <= i < |items| ==> WellFormed(items[i])
    decreases items, 1
  {
    if items == [] then [] else Encode(items[0]) + EncodeItems(items[1..])
  }

  function EncodePairs(pairs: seq<Pair>): Bytes
    requires forall i :: 0 <= i < |pairs| ==> WellFormedPair(pairs[i])
    decreases pairs, 1
  {
    if pairs == [] then [] else EncodePair(pairs[0]) + EncodePairs(pairs[1..])
  }

  function EncodePair(p: Pair): Bytes
    requires WellFormedPair(p)
    decreases p, 1
  {
    Encode(p.key) + Encode(p.value)
  }

  function EncodeBodies(code: octet, bodies: seq<Body>): Bytes
    requires forall i :: 0 <= i < |bodies| ==> WellFormedBody(code, bodies[i])
    decreases bodies, 1
  {
    if bodies == [] then [] else EncodeBody(code, bodies[0]) + EncodeBodies(code, bodies[1..])
  }

  /** The body fits the constructor and every size and count fits its field. */
  predicate WellFormed(v: Value)
    decreases v, 0
  {
    WellFormedCtor(v.ctor) && WellFormedBody(v.ctor.code, v.body)
  }

  predicate WellFormedCtor(c: Ctor)
    decreases c, 0
  {
    c.code != 0 && (c.Described? ==> WellFormed(c.descriptor))
  }

  predicate WellFormedPair(p: Pair)
    decreases p, 0
  {
    WellFormed(p.key) && WellFormed(p.value)
  }

  predicate WellFormedBody(code: octet, b: Body)
    decreases b, 0
  {
    match LayoutOf(code)
    case Nothing => b == Scalar([])
    case Constant => b == Scalar([])
    case EmptyList => b == Items([])
    case Fixed(width) => b.Scalar? && |b.data| == width
    case Variable(wide) => b.Scalar? && Fits(wide, |b.data|)
    case List(wide) =>
      b.Items? && Fits(wide, |b.items|) && (forall i :: 0 <= i < |b.items| ==> WellFormed(b.items[i]))
      && Fits(wide, FieldWidth(wide) + |EncodeItems(b.items)|)
    case Map(wide) =>
      b.Pairs? && Fits(wide, 2 * |b.pairs|)
      && (forall i :: 0 <= i < |b.pairs| ==> WellFormedPair(b.pairs[i]))
      && Fits(wide, FieldWidth(wide) + |EncodePairs(b.pairs)|)
    case Array(wide) =>
      b.Elements? && WellFormedCtor(b.ctor) && Fits(wide, |b.bodies|)
      && (forall i :: 0 <= i < |b.bodies| ==> WellFormedBody(b.ctor.code, b.bodies[i]))
      && Fits(wide, FieldWidth(wide) + |EncodeCtor(b.ctor)| + |EncodeBodies(b.ctor.code, b.bodies)|)
    case Unknown => false
  }

  // ---- The decoder ----

  /** `struct TlvAmqp` and `struct TlvConstructor`; None is a field left unset. */
  datatype Tlv = Tlv(
    code: octet,
    ctor: Option<Constructor>,
    list: Option<seq<Tlv>>,
    entries: Option<seq<TlvEntry>>,
    valueArray: Option<Bytes>,
    width: Option<int>,
    size: Option<int>,
    count: Option<int>,
    length: Option<int>)
  datatype Constructor = Constructor(code: octet, tlv: Option<Tlv>)
  datatype TlvEntry = TlvEntry(key: Tlv, value: Tlv)

  datatype Decoded<+T> = Ok(value: T, next: nat) | OutOfBounds

  function Blank(code: octet): Tlv {
    Tlv(code, None, None, None, None, None, None, None, None)
  }

  function ScalarTlv(code: octet, data: Bytes, length: Option<int>): Tlv {
    Blank(code).(valueArray := Some(data), length := length)
  }

  function VariableTlv(code: octet, data: Bytes): Tlv {
    ScalarTlv(code, data, Some(|data|)).(width := Some(if |data| > 255 then 4 else 1))
  }

  /** The two- and eight-octet cases, and the sixteen-octet one, set no length; the
      four-octet case sets 1. */
  function FixedLength(width: nat): Option<int> {
    if width == 1 || width == 4 then Some(1) else None
  }

  function Compound(code: octet, width: int, size: int, count: int): Tlv {
    Blank(code).(width := Some(width), size := Some(size), count := Some(count))
  }

  /** The children of a LIST_32 are read but not stored. */
  function ListTlv(code: octet, wide: bool, size: int, count: int, items: seq<Tlv>): Tlv {
    Compound(code, if wide then 4 else 1, size, count).(list := if wide then None else Some(items))
  }

  function MapTlv(code: octet, wide: bool, size: int, count: int, entries: seq<TlvEntry>): Tlv {
    Compound(code, if wide then 4 else 1, size, count).(entries := Some(entries))
  }

  /** The width of an ARRAY_32 is recorded as 1. */
  function ArrayTlv(code: octet, size: int, count: int, elements: seq<Tlv>): Tlv {
    Compound(code, 1, size, count).(list := Some(elements))
  }

  function FieldAt(wide: bool, buf: Bytes, i: nat): (r: Decoded<int>)
    ensures r.Ok? ==> i < r.next <= |buf|
  {
    if i + FieldWidth(wide) > |buf| then OutOfBounds
    else Ok(if wide then IntAt(buf, i) else buf[i], i + FieldWidth(wide))
  }

  function TlvAt(buf: Bytes, i: nat): (r: Decoded<Tlv>)
    requires i <= |buf|
    ensures r.Ok? ==> i < r.next <= |buf|
    decreases |buf| - i, 3, 0
  {
    match ConstructorAt(buf, i)
    case OutOfBounds => OutOfBounds
    case Ok(c, j) =>
      match ElementAt(c.code, buf, j)
      case OutOfBounds => OutOfBounds
      case Ok(t, k) => Ok(t.(ctor := Some(c)), k)
  }

  function ConstructorAt(buf: Bytes, i: nat): (r: Decoded<Constructor>)
    requires i <= |buf|
    ensures r.Ok? ==> i < r.next <= |buf|
    decreases |buf| - i, 2, 0
  {
    if i == |buf| then OutOfBounds
    else if buf[i] != 0 then Ok(Constructor(buf[i], None), i + 1)
    else match TlvAt(buf, i + 1)
      case OutOfBounds => OutOfBounds
      case Ok(descriptor, j) =>
        if j == |buf| then OutOfBounds else Ok(Constructor(buf[j], Some(descriptor)), j + 1)
  }

  function ElementAt(code: octet, buf: Bytes, i: nat): (r: Decoded<Tlv>)
    requires i <= |buf|
    ensures r.Ok? ==> i <= r.next <= |buf|
    decreases |buf| - i, 1, 0
  {
    match LayoutOf(code)
    case Nothing => Ok(Blank(code), i)
    case Constant => Ok(ScalarTlv(code, [0], Some(0)), i)
    case Fixed(width) =>
      if i + width > |buf| then OutOfBounds
      else Ok(ScalarTlv(code, buf[i..i + width], FixedLength(width)), i + width)
    case Variable(wide) => (
      match FieldAt(wide, buf, i)
      case OutOfBounds => OutOfBounds
      case Ok(n, j) =>
        if n < 0 || j + n > |buf| then OutOfBounds
        else Ok(VariableTlv(code, buf[j..j + n]), j + n))
    case EmptyList => Ok(Compound(code, 0, 0, 0).(list := Some([])), i)
    case Unknown => Ok(Blank(code), i)
    case _ =>
      match FieldAt(IsWide(code), buf, i)
      case OutOfBounds => OutOfBounds
      case Ok(size, j) =>
        match FieldAt(IsWide(code), buf, j)
        case OutOfBounds => OutOfBounds
        case Ok(count, k) => CompoundAt(code, size, count, buf, k)
  }

  predicate IsWide(code: octet) {
    LayoutOf(code) in {List(true), Map(true), Array(true)}
  }

  /** Lists, maps and arrays, after their size and count. */
  function CompoundAt(code: octet, size: int, count: int, buf: Bytes, i: nat): (r: Decoded<Tlv>)
    requires i <= |buf|
    ensures r.Ok? ==> i <= r.next <= |buf|
    decreases |buf| - i, 5, 0
  {
    match LayoutOf(code)
    case List(wide) => (
      match ItemsAt(buf, i, count)
      case OutOfBounds => OutOfBounds
      case Ok(items, j) => Ok(ListTlv(code, wide, size, count, items), j))
    case Map(wide) => (
      match PairsAt(buf, i, i + size - FieldWidth(wide), count)
      case OutOfBounds => OutOfBounds
      case Ok(entries, j) => Ok(MapTlv(code, wide, size, count, entries), j))
    case _ =>
      match ConstructorAt(buf, i)
      case OutOfBounds => OutOfBounds
      case Ok(c, j) =>
        match ElementsAt(c.code, buf, j, count)
        case OutOfBounds => OutOfBounds
        case Ok(elements, k) => Ok(ArrayTlv(code, size, count, elements), k)
  }

  function ItemsAt(buf: Bytes, i: nat, n: int): (r: Decoded<seq<Tlv>>)
    requires i <= |buf|
    ensures r.Ok? ==> i <= r.next <= |buf|
    decreases |buf| - i, 4, n
  {
    if n <= 0 then Ok([], i)
    else match TlvAt(buf, i)
      case OutOfBounds => OutOfBounds
      case Ok(t, j) => Prepend([t], ItemsAt(buf, j, n - 1))
  }

  /** Entries up to `stop`; the array they go to has room for `room` of them. */
  function PairsAt(buf: Bytes, i: nat, stop: int, room: int): (r: Decoded<seq<TlvEntry>>)
    requires i <= |buf|
    ensures r.Ok? ==> i <= r.next <= |buf|
    decreases |buf| - i, 4, 0
  {
    if i >= stop then Ok([], i)
    else if room <= 0 then OutOfBounds
    else match TlvAt(buf, i)
      case OutOfBounds => OutOfBounds
      case Ok(key, j) =>
        match TlvAt(buf, j)
        case OutOfBounds => OutOfBounds
        case Ok(value, k) => Prepend([TlvEntry(key, value)], PairsAt(buf, k, stop, room - 1))
  }

  function ElementsAt(code: octet, buf: Bytes, i: nat, n: int): (r: Decoded<seq<Tlv>>)
    requires i <= |buf|
    ensures r.Ok? ==> i <= r.next <= |buf|
    decreases |buf| - i, 4, n
  {
    if n <= 0 then Ok([], i)
    else match ElementAt(code, buf, i)
      case OutOfBounds => OutOfBounds
      case Ok(t, j) => Prepend([t], ElementsAt(code, buf, j, n - 1))
  }

  function Prepend<T>(front: seq<T>, r: Decoded<seq<T>>): Decoded<seq<T>> {
    match r
    case OutOfBounds => OutOfBounds
    case Ok(back, i) => Ok(front + back, i)
  }

  // ---- What a well-formed value decodes to ----

  function View(v: Value): Tlv
    requires WellFormed(v)
    decreases v, 1
  {
    ViewBody(v.ctor.code, v.body).(ctor := Some(ViewCtor(v.ctor)))
  }

  function ViewCtor(c: Ctor): (r: Constructor)
    requires WellFormedCtor(c)
    ensures r.code == c.code
    decreases c, 1
  {
    Constructor(c.code, if c.Plain? then None else Some(View(c.descriptor)))
  }

  function ViewBody(code: octet, b: Body): (r: Tlv)
    requires WellFormedBody(code, b)
    ensures r.code == code
    decreases b, 1
  {
    match LayoutOf(code)
    case Nothing => Blank(code)
    case Constant => ScalarTlv(code, [0], Some(0))
    case Fixed(width) => ScalarTlv(code, b.data, FixedLength(width))
    case Variable(_) => VariableTlv(code, b.data)
    case EmptyList => Compound(code, 0, 0, 0).(list := Some([]))
    case List(wide) => ListTlv(code, wide, FieldWidth(wide) + |EncodeItems(b.items)|, |b.items|, ViewItems(b.items))
    case Map(wide) => MapTlv(code, wide, FieldWidth(wide) + |EncodePairs(b.pairs)|, 2 * |b.pairs|, ViewPairs(b.pairs))
    case Array(wide) =>
      ArrayTlv(code, FieldWidth(wide) + |EncodeCtor(b.ctor)| + |EncodeBodies(b.ctor.code, b.bodies)|, |b.bodies|,
               ViewBodies(b.ctor.code, b.bodies))
  }

  function ViewItems(items: seq<Value>): (r: seq<Tlv>)
    requires forall i :: 0 <= i < |items| ==> WellFormed(items[i])
    ensures |r| == |items|
    decreases items, 1
  {
    if items == [] then [] else [View(items[0])] + ViewItems(items[1..])
  }

  function ViewPairs(pairs: seq<Pair>): (r: seq<TlvEntry>)
    requires forall i :: 0 <= i < |pairs| ==> WellFormedPair(pairs[i])
    ensures |r| == |pairs|
    decreases pairs, 1
  {
    if pairs == [] then [] else [ViewPair(pairs[0])] + ViewPairs(pairs[1..])
  }

  function ViewPair(p: Pair): TlvEntry
    requires WellFormedPair(p)
    decreases p, 1
  {
    TlvEntry(View(p.key), View(p.value))
  }

  function ViewBodies(code: octet, bodies: seq<Body>): (r: seq<Tlv>)
    requires forall i :: 0 <= i < |bodies| ==> WellFormedBody(code, bodies[i])
    ensures |r| == |bodies|
    decreases bodies, 1
  {
    if bodies == [] then [] else [ViewBody(code, bodies[0])] + ViewBodies(code, bodies[1..])
  }

  // ---- The decoder inverts the wire form ----

  lemma FieldRoundTrip(wide: bool, n: nat, buf: Bytes, i: nat)
    requires Fits(wide, n) && At(buf, i, Field(wide, n))
    ensures FieldAt(wide, buf, i) == Ok(n, i + FieldWidth(wide))
  {
    if wide { IntRoundTrip(buf, i, n); } else { AtOctet(buf, i, [n]); }
  }

  /** Whatever stands before and after it, an encoded value decodes to itself, and the
      cursor moves by its length. */
  lemma {:induction false} RoundTrip(v: Value, buf: Bytes, i: nat)
    requires WellFormed(v) && At(buf, i, Encode(v))
    ensures TlvAt(buf, i) == Ok(View(v), i + |Encode(v)|)
    decreases v, 2
  {
    hide LayoutOf, EncodeCtor, EncodeBody, ViewCtor, ViewBody, ConstructorAt, ElementAt;
    var c, b := EncodeCtor(v.ctor), EncodeBody(v.ctor.code, v.body);
    AtParts(buf, i, c, b);
    CtorRoundTrip(v.ctor, buf, i);
    BodyRoundTrip(v.ctor.code, v.body, buf, i + |c|);
  }

  lemma {:induction false} CtorRoundTrip(c: Ctor, buf: Bytes, i: nat)
    requires WellFormedCtor(c) && At(buf, i, EncodeCtor(c))
    ensures ConstructorAt(buf, i) == Ok(ViewCtor(c), i + |EncodeCtor(c)|)
    decreases c, 2
  {
    hide LayoutOf, Encode, View, TlvAt, WellFormed;
    AtOctet(buf, i, EncodeCtor(c));
    if c.Described? {
      var d := Encode(c.descriptor);
      assert EncodeCtor(c) == [0] + (d + [c.code]);
      AtParts(buf, i, [0], d + [c.code]);
      AtParts(buf, i + 1, d, [c.code]);
      RoundTrip(c.descriptor, buf, i + 1);
      AtOctet(buf, i + 1 + |d|, [c.code]);
    }
  }

  lemma {:induction false} BodyRoundTrip(code: octet, b: Body, buf: Bytes, i: nat)
    requires WellFormedBody(code, b) && At(buf, i, EncodeBody(code, b))
    ensures ElementAt(code, buf, i) == Ok(ViewBody(code, b), i + |EncodeBody(code, b)|)
    decreases b, 2
  {
    match LayoutOf(code) {
      case Variable(wide) =>
        AtParts(buf, i, Field(wide, |b.data|), b.data);
        FieldRoundTrip(wide, |b.data|, buf, i);
      case List(wide) => ListRoundTrip(code, b, buf, i, wide);
      case Map(wide) => MapRoundTrip(code, b, buf, i, wide);
      case Array(wide) => ArrayRoundTrip(code, b, buf, i, wide);
      case _ =>
    }
  }

  lemma {:induction false} ListRoundTrip(code: octet, b: Body, buf: Bytes, i: nat, wide: bool)
    requires LayoutOf(code) == List(wide) && WellFormedBody(code, b) && At(buf, i, EncodeBody(code, b))
    ensures ElementAt(code, buf, i) == Ok(ViewBody(code, b), i + |EncodeBody(code, b)|)
    decreases b, 1
  {
    hide LayoutOf, EncodeItems, ViewItems, FieldAt, WellFormed, ItemsAt;
    var p := EncodeItems(b.items);
    CompoundHeader(wide, |p|, |b.items|, p, buf, i);
    ItemsRoundTrip(b.items, buf, i + 2 * FieldWidth(wide));
  }

  lemma {:induction false} MapRoundTrip(code: octet, b: Body, buf: Bytes, i: nat, wide: bool)
    requires LayoutOf(code) == Map(wide) && WellFormedBody(code, b) && At(buf, i, EncodeBody(code, b))
    ensures ElementAt(code, buf, i) == Ok(ViewBody(code, b), i + |EncodeBody(code, b)|)
    decreases b, 1
  {
    hide LayoutOf, EncodePairs, ViewPairs, FieldAt, WellFormedPair, PairsAt;
    var p := EncodePairs(b.pairs);
    CompoundHeader(wide, |p|, 2 * |b.pairs|, p, buf, i);
    PairsRoundTrip(b.pairs, buf, i + 2 * FieldWidth(wide), 2 * |b.pairs|);
  }

  lemma {:induction false} ArrayRoundTrip(code: octet, b: Body, buf: Bytes, i: nat, wide: bool)
    requires LayoutOf(code) == Array(wide) && WellFormedBody(code, b) && At(buf, i, EncodeBody(code, b))
    ensures ElementAt(code, buf, i) == Ok(ViewBody(code, b), i + |EncodeBody(code, b)|)
    decreases b, 1
  {
    hide LayoutOf, EncodeCtor, EncodeBodies, ViewBodies, FieldAt, WellFormedCtor, ConstructorAt, ElementsAt;
    var c, q := EncodeCtor(b.ctor), EncodeBodies(b.ctor.code, b.bodies);
    CompoundHeader(wide, |c + q|, |b.bodies|, c + q, buf, i);
    var j := i + 2 * FieldWidth(wide);
    AtParts(buf, j, c, q);
    CtorRoundTrip(b.ctor, buf, j);
    BodiesRoundTrip(b.ctor.code, b.bodies, buf, j + |c|);
  }

  /** The size and count fields in front of a payload. */
  lemma CompoundHeader(wide: bool, size: nat, count: nat, payload: Bytes, buf: Bytes, i: nat)
    requires Fits(wide, FieldWidth(wide) + size) && Fits(wide, count)
    requires At(buf, i, Field(wide, FieldWidth(wide) + size) + Field(wide, count) + payload)
    ensures FieldAt(wide, buf, i) == Ok(FieldWidth(wide) + size, i + FieldWidth(wide))
    ensures FieldAt(wide, buf, i + FieldWidth(wide)) == Ok(count, i + 2 * FieldWidth(wide))
    ensures At(buf, i + 2 * FieldWidth(wide), payload)
  {
    var s, n := Field(wide, FieldWidth(wide) + size), Field(wide, count);
    AtParts(buf, i, s + n, payload);
    AtParts(buf, i, s, n);
    FieldRoundTrip(wide, FieldWidth(wide) + size, buf, i);
    FieldRoundTrip(wide, count, buf, i + FieldWidth(wide));
  }

  lemma {:induction false} ItemsRoundTrip(items: seq<Value>, buf: Bytes, i: nat)
    requires (forall k :: 0 <= k < |items| ==> WellFormed(items[k])) && At(buf, i, EncodeItems(items))
    ensures ItemsAt(buf, i, |items|) == Ok(ViewItems(items), i + |EncodeItems(items)|)
    decreases items, 2
  {
    hide Encode, View, TlvAt, WellFormed;
    if items == [] {
    } else {
      var e := Encode(items[0]);
      AtParts(buf, i, e, EncodeItems(items[1..]));
      RoundTrip(items[0], buf, i);
      ItemsRoundTrip(items[1..], buf, i + |e|);
    }
  }

  lemma {:induction false} PairsRoundTrip(pairs: seq<Pair>, buf: Bytes, i: nat, room: nat)
    requires (forall k :: 0 <= k < |pairs| ==> WellFormedPair(pairs[k])) && At(buf, i, EncodePairs(pairs))
    requires |pairs| <= room
    ensures PairsAt(buf, i, i + |EncodePairs(pairs)|, room) == Ok(ViewPairs(pairs), i + |EncodePairs(pairs)|)
    decreases pairs, 2
  {
    hide EncodePair, ViewPair, Encode, View, TlvAt, WellFormed;
    if pairs == [] {
    } else {
      var e := EncodePair(pairs[0]);
      AtParts(buf, i, e, EncodePairs(pairs[1..]));
      PairRoundTrip(pairs[0], buf, i);
      PairsRoundTrip(pairs[1..], buf, i + |e|, room - 1);
    }
  }

  lemma {:induction false} PairRoundTrip(p: Pair, buf: Bytes, i: nat)
    requires WellFormedPair(p) && At(buf, i, EncodePair(p))
    ensures TlvAt(buf, i) == Ok(View(p.key), i + |Encode(p.key)|)
    ensures TlvAt(buf, i + |Encode(p.key)|) == Ok(View(p.value), i + |EncodePair(p)|)
    ensures ViewPair(p) == TlvEntry(View(p.key), View(p.value)) && |EncodePair(p)| > 0
    decreases p, 2
  {
    hide Encode, View, TlvAt, WellFormed;
    AtParts(buf, i, Encode(p.key), Encode(p.value));
    RoundTrip(p.key, buf, i);
    RoundTrip(p.value, buf, i + |Encode(p.key)|);
  }

  lemma {:induction false} BodiesRoundTrip(code: octet, bodies: seq<Body>, buf: Bytes, i: nat)
    requires (forall k :: 0 <= k < |bodies| ==> WellFormedBody(code, bodies[k])) && At(buf, i, EncodeBodies(code, bodies))
    ensures ElementsAt(code, buf, i, |bodies|) == Ok(ViewBodies(code, bodies), i + |EncodeBodies(code, bodies)|)
    decreases bodies, 2
  {
    hide EncodeBody, ViewBody, ElementAt, WellFormedBody, LayoutOf;
    if bodies == [] {
    } else {
      var e := EncodeBody(code, bodies[0]);
      AtParts(buf, i, e, EncodeBodies(code, bodies[1..]));
      BodyRoundTrip(code, bodies[0], buf, i);
      BodiesRoundTrip(code, bodies[1..], buf, i + |e|);
    }
  }

  // ---- What the decoded record keeps ----

  /** Nothing of the value is lost by the record: no children of a LIST_32, and every
      array has elements and a constructor without a descriptor. */
  predicate Kept(v: Value)
    decreases v, 1
  {
    KeptCtor(v.ctor) && KeptBody(v.ctor.code, v.body)
  }

  predicate KeptCtor(c: Ctor)
    decreases c, 1
  {
    c.Described? ==> Kept(c.descriptor)
  }

  predicate KeptBody(code: octet, b: Body)
    decreases b, 1
  {
    match b
    case Scalar(_) => true
    case Items(items) => if code == LIST_32 then items == [] else forall i :: 0 <= i < |items| ==> Kept(items[i])
    case Pairs(pairs) => forall i :: 0 <= i < |pairs| ==> KeptPair(pairs[i])
    case Elements(c, bodies) => c.Plain? && bodies != [] && forall i :: 0 <= i < |bodies| ==> KeptBody(c.code, bodies[i])
  }

  predicate KeptPair(p: Pair)
    decreases p, 1
  {
    Kept(p.key) && Kept(p.value)
  }

  /** The record determines such a value among all well-formed ones. */
  lemma {:induction false} ViewDetermines(v: Value, w: Value)
    requires WellFormed(v) && WellFormed(w) && Kept(v) && View(v) == View(w)
    ensures v == w
    decreases v, 2
  {
    hide LayoutOf, ViewCtor, WellFormedBody, WellFormedCtor, KeptBody, KeptCtor;
    BodyDetermines(v.ctor.code, v.body, w.ctor.code, w.body);
    CtorDetermines(v.ctor, w.ctor);
  }

  lemma {:induction false} CtorDetermines(c: Ctor, d: Ctor)
    requires WellFormedCtor(c) && WellFormedCtor(d) && KeptCtor(c) && ViewCtor(c) == ViewCtor(d)
    ensures c == d
    decreases c, 2
  {
    if c.Described? { ViewDetermines(c.descriptor, d.descriptor); }
  }

  /** Everything but the constructor of the record. */
  predicate SameBody(t: Tlv, u: Tlv) {
    t == u.(ctor := t.ctor)
  }

  lemma {:induction false} BodyDetermines(code: octet, b: Body, code': octet, b': Body)
    requires WellFormedBody(code, b) && WellFormedBody(code', b') && KeptBody(code, b)
    requires SameBody(ViewBody(code, b), ViewBody(code', b'))
    ensures code == code' && b == b'
    decreases b, 2
  {
    hide EncodeItems, EncodePairs, EncodeBodies, EncodeCtor, ViewItems, ViewPairs;
    hide ViewBodies, WellFormed, WellFormedPair, WellFormedCtor, Kept, KeptPair;
    match LayoutOf(code) {
      case List(wide) => if !wide { ItemsDetermine(b.items, b'.items); }
      case Map(_) => PairsDetermine(b.pairs, b'.pairs);
      case Array(_) => ArrayDetermines(code, b, b');
      case _ =>
    }
  }

  lemma {:induction false} ArrayDetermines(code: octet, b: Body, b': Body)
    requires LayoutOf(code).Array? && WellFormedBody(code, b) && WellFormedBody(code, b') && KeptBody(code, b)
    requires SameBody(ViewBody(code, b), ViewBody(code, b'))
    ensures b == b'
    decreases b, 1
  {
    hide LayoutOf;
    var first, first' := ViewBody(b.ctor.code, b.bodies[0]), ViewBody(b'.ctor.code, b'.bodies[0]);
    assert ViewBodies(b.ctor.code, b.bodies)[0] == first && ViewBodies(b'.ctor.code, b'.bodies)[0] == first';
    BodyDetermines(b.ctor.code, b.bodies[0], b'.ctor.code, b'.bodies[0]);
    BodiesDetermine(b.ctor.code, b.bodies, b'.bodies);
    assert |EncodeCtor(b'.ctor)| == 1;
  }

  lemma {:induction false} ItemsDetermine(items: seq<Value>, items': seq<Value>)
    requires forall i :: 0 <= i < |items| ==> WellFormed(items[i]) && Kept(items[i])
    requires forall i :: 0 <= i < |items'| ==> WellFormed(items'[i])
    requires ViewItems(items) == ViewItems(items')
    ensures items == items'
    decreases items, 2
  {
    hide WellFormed, Kept, View;
    if items == [] {
    } else {
      assert ViewItems(items)[0] == View(items[0]) && ViewItems(items')[0] == View(items'[0]);
      ViewDetermines(items[0], items'[0]);
      assert ViewItems(items)[1..] == ViewItems(items[1..]) && ViewItems(items')[1..] == ViewItems(items'[1..]);
      ItemsDetermine(items[1..], items'[1..]);
      assert items == [items[0]] + items[1..] && items' == [items'[0]] + items'[1..];
    }
  }

  lemma {:induction false} PairsDetermine(pairs: seq<Pair>, pairs': seq<Pair>)
    requires forall i :: 0 <= i < |pairs| ==> WellFormedPair(pairs[i]) && KeptPair(pairs[i])
    requires forall i :: 0 <= i < |pairs'| ==> WellFormedPair(pairs'[i])
    requires ViewPairs(pairs) == ViewPairs(pairs')
    ensures pairs == pairs'
    decreases pairs, 2
  {
    hide WellFormed, Kept, View;
    if pairs == [] {
    } else {
      assert ViewPairs(pairs)[0] == ViewPair(pairs[0]) && ViewPairs(pairs')[0] == ViewPair(pairs'[0]);
      PairDetermines(pairs[0], pairs'[0]);
      assert ViewPairs(pairs)[1..] == ViewPairs(pairs[1..]) && ViewPairs(pairs')[1..] == ViewPairs(pairs'[1..]);
      PairsDetermine(pairs[1..], pairs'[1..]);
      assert pairs == [pairs[0]] + pairs[1..] && pairs' == [pairs'[0]] + pairs'[1..];
    }
  }

  lemma {:induction false} PairDetermines(p: Pair, p': Pair)
    requires WellFormedPair(p) && WellFormedPair(p') && KeptPair(p) && ViewPair(p) == ViewPair(p')
    ensures p == p'
    decreases p, 2
  {
    hide WellFormed, Kept, View;
    ViewDetermines(p.key, p'.key);
    ViewDetermines(p.value, p'.value);
  }

  lemma {:induction false} BodiesDetermine(code: octet, bodies: seq<Body>, bodies': seq<Body>)
    requires forall i :: 0 <= i < |bodies| ==> WellFormedBody(code, bodies[i]) && KeptBody(code, bodies[i])
    requires forall i :: 0 <= i < |bodies'| ==> WellFormedBody(code, bodies'[i])
    requires ViewBodies(code, bodies) == ViewBodies(code, bodies')
    ensures bodies == bodies'
    decreases bodies, 2
  {
    hide WellFormedBody, KeptBody, ViewBody;
    if bodies == [] {
    } else {
      var vs, vs' := ViewBodies(code, bodies), ViewBodies(code, bodies');
      assert vs[0] == ViewBody(code, bodies[0]) && vs'[0] == ViewBody(code, bodies'[0]);
      BodyDetermines(code, bodies[0], code, bodies'[0]);
      assert vs[1..] == ViewBodies(code, bodies[1..]) && vs'[1..] == ViewBodies(code, bodies'[1..]);
      BodiesDetermine(code, bodies[1..], bodies'[1..]);
      assert bodies == [bodies[0]] + bodies[1..] && bodies' == [bodies'[0]] + bodies'[1..];
    }
  }

  // ---- The wire form is free of prefixes ----

  lemma Cancels(s: Bytes, s': Bytes, t: Bytes, t': Bytes)
    requires s + s' == t + t' && |s| == |t|
    ensures s == t && s' == t'
  {
    assert s == (s + s')[..|s|] && t == (t + t')[..|t|];
    assert s' == (s + s')[|s|..] && t' == (t + t')[|t|..];
  }

  lemma FieldDetermines(wide: bool, m: nat, n: nat, s: Bytes, t: Bytes)
    requires Fits(wide, m) && Fits(wide, n) && Field(wide, m) + s == Field(wide, n) + t
    ensures m == n && s == t
  {
    Cancels(Field(wide, m), s, Field(wide, n), t);
    var buf := Field(wide, m);
    assert At(buf, 0, Field(wide, m));
    FieldRoundTrip(wide, m, buf, 0);
    FieldRoundTrip(wide, n, buf, 0);
  }

  /** No encoding of a well-formed value begins, or is begun by, that of another value. */
  lemma {:induction false} UniquelyDecodable(v: Value, s: Bytes, w: Value, t: Bytes)
    requires WellFormed(v) && WellFormed(w) && Encode(v) + s == Encode(w) + t
    ensures v == w && s == t
    decreases v, 2
  {
    hide LayoutOf, EncodeCtor, EncodeBody, WellFormedCtor, WellFormedBody;
    var b, c := EncodeBody(v.ctor.code, v.body), EncodeBody(w.ctor.code, w.body);
    Join(EncodeCtor(v.ctor), b, s);
    Join(EncodeCtor(w.ctor), c, t);
    CtorIsUnique(v.ctor, b + s, w.ctor, c + t);
    BodyIsUnique(v.ctor.code, v.body, s, w.body, t);
  }

  lemma {:induction false} CtorIsUnique(c: Ctor, s: Bytes, d: Ctor, t: Bytes)
    requires WellFormedCtor(c) && WellFormedCtor(d) && EncodeCtor(c) + s == EncodeCtor(d) + t
    ensures c == d && s == t
    decreases c, 2
  {
    hide LayoutOf, Encode, WellFormed;
    assert (EncodeCtor(c) + s)[0] == (EncodeCtor(d) + t)[0];
    assert EncodeCtor(c)[0] == EncodeCtor(d)[0];
    if c.Plain? {
      Cancels([c.code], s, [c.code], t);
    } else {
      var x, y := Encode(c.descriptor), Encode(d.descriptor);
      assert [0] + (x + ([c.code] + s)) == [0] + x + [c.code] + s;
      assert [0] + (y + ([d.code] + t)) == [0] + y + [d.code] + t;
      Cancels([0], x + ([c.code] + s), [0], y + ([d.code] + t));
      UniquelyDecodable(c.descriptor, [c.code] + s, d.descriptor, [d.code] + t);
      Cancels([c.code], s, [d.code], t);
    }
  }

  lemma {:induction false} BodyIsUnique(code: octet, b: Body, s: Bytes, c: Body, t: Bytes)
    requires WellFormedBody(code, b) && WellFormedBody(code, c) && EncodeBody(code, b) + s == EncodeBody(code, c) + t
    ensures b == c && s == t
    decreases b, 2
  {
    match LayoutOf(code) {
      case Fixed(_) => Cancels(b.data, s, c.data, t);
      case Variable(wide) =>
        Join(Field(wide, |b.data|), b.data, s);
        Join(Field(wide, |c.data|), c.data, t);
        FieldDetermines(wide, |b.data|, |c.data|, b.data + s, c.data + t);
        Cancels(b.data, s, c.data, t);
      case List(wide) => ListIsUnique(code, b, s, c, t, wide);
      case Map(wide) => MapIsUnique(code, b, s, c, t, wide);
      case Array(wide) => ArrayIsUnique(code, b, s, c, t, wide);
      case _ => Cancels([], s, [], t);
    }
  }

  /** Size, count and payload in front of the rest. */
  lemma HeaderIsUnique(wide: bool, m: nat, n: nat, p: Bytes, s: Bytes, k: nat, l: nat, q: Bytes, t: Bytes)
    requires Fits(wide, m) && Fits(wide, n) && Fits(wide, k) && Fits(wide, l)
    requires Field(wide, m) + Field(wide, n) + p + s == Field(wide, k) + Field(wide, l) + q + t
    ensures n == l && p + s == q + t
  {
    hide Field;
    Join(Field(wide, m) + Field(wide, n), p, s);
    Join(Field(wide, m), Field(wide, n), p + s);
    Join(Field(wide, k) + Field(wide, l), q, t);
    Join(Field(wide, k), Field(wide, l), q + t);
    FieldDetermines(wide, m, k, Field(wide, n) + (p + s), Field(wide, l) + (q + t));
    FieldDetermines(wide, n, l, p + s, q + t);
  }

  lemma {:induction false} ListIsUnique(code: octet, b: Body, s: Bytes, c: Body, t: Bytes, wide: bool)
    requires LayoutOf(code) == List(wide) && WellFormedBody(code, b) && WellFormedBody(code, c)
    requires EncodeBody(code, b) + s == EncodeBody(code, c) + t
    ensures b == c && s == t
    decreases b, 1
  {
    hide LayoutOf, EncodeItems, WellFormed, Field;
    var w, p, q := FieldWidth(wide), EncodeItems(b.items), EncodeItems(c.items);
    HeaderIsUnique(wide, w + |p|, |b.items|, p, s, w + |q|, |c.items|, q, t);
    ItemsAreUnique(b.items, s, c.items, t);
  }

  lemma {:induction false} MapIsUnique(code: octet, b: Body, s: Bytes, c: Body, t: Bytes, wide: bool)
    requires LayoutOf(code) == Map(wide) && WellFormedBody(code, b) && WellFormedBody(code, c)
    requires EncodeBody(code, b) + s == EncodeBody(code, c) + t
    ensures b == c && s == t
    decreases b, 1
  {
    hide LayoutOf, EncodePairs, WellFormedPair, Field;
    var w, p, q := FieldWidth(wide), EncodePairs(b.pairs), EncodePairs(c.pairs);
    HeaderIsUnique(wide, w + |p|, 2 * |b.pairs|, p, s, w + |q|, 2 * |c.pairs|, q, t);
    PairsAreUnique(b.pairs, s, c.pairs, t);
  }

  lemma {:induction false} ArrayIsUnique(code: octet, b: Body, s: Bytes, c: Body, t: Bytes, wide: bool)
    requires LayoutOf(code) == Array(wide) && WellFormedBody(code, b) && WellFormedBody(code, c)
    requires EncodeBody(code, b) + s == EncodeBody(code, c) + t
    ensures b == c && s == t
    decreases b, 1
  {
    hide LayoutOf, EncodeCtor, EncodeBodies, WellFormedCtor, Field;
    var w, x, y := FieldWidth(wide), EncodeBodies(b.ctor.code, b.bodies), EncodeBodies(c.ctor.code, c.bodies);
    var p, q := EncodeCtor(b.ctor) + x, EncodeCtor(c.ctor) + y;
    HeaderIsUnique(wide, w + |p|, |b.bodies|, p, s, w + |q|, |c.bodies|, q, t);
    Join(EncodeCtor(b.ctor), x, s);
    Join(EncodeCtor(c.ctor), y, t);
    CtorIsUnique(b.ctor, x + s, c.ctor, y + t);
    BodiesAreUnique(b.ctor.code, b.bodies, s, c.bodies, t);
  }

  lemma {:induction false} ItemsAreUnique(items: seq<Value>, s: Bytes, items': seq<Value>, t: Bytes)
    requires |items| == |items'| && forall k :: 0 <= k < |items| ==> WellFormed(items[k]) && WellFormed(items'[k])
    requires EncodeItems(items) + s == EncodeItems(items') + t
    ensures items == items' && s == t
    decreases items, 2
  {
    hide Encode, WellFormed;
    if items == [] {
      Cancels([], s, [], t);
    } else {
      var x, y := EncodeItems(items[1..]), EncodeItems(items'[1..]);
      Join(Encode(items[0]), x, s);
      Join(Encode(items'[0]), y, t);
      UniquelyDecodable(items[0], x + s, items'[0], y + t);
      ItemsAreUnique(items[1..], s, items'[1..], t);
      assert items == [items[0]] + items[1..] && items' == [items'[0]] + items'[1..];
    }
  }

  lemma {:induction false} PairsAreUnique(pairs: seq<Pair>, s: Bytes, pairs': seq<Pair>, t: Bytes)
    requires |pairs| == |pairs'| && forall k :: 0 <= k < |pairs| ==> WellFormedPair(pairs[k]) && WellFormedPair(pairs'[k])
    requires EncodePairs(pairs) + s == EncodePairs(pairs') + t
    ensures pairs == pairs' && s == t
    decreases pairs, 2
  {
    hide EncodePair, WellFormedPair;
    if pairs == [] {
      Cancels([], s, [], t);
    } else {
      var x, y := EncodePairs(pairs[1..]), EncodePairs(pairs'[1..]);
      Join(EncodePair(pairs[0]), x, s);
      Join(EncodePair(pairs'[0]), y, t);
      PairIsUnique(pairs[0], x + s, pairs'[0], y + t);
      PairsAreUnique(pairs[1..], s, pairs'[1..], t);
      assert pairs == [pairs[0]] + pairs[1..] && pairs' == [pairs'[0]] + pairs'[1..];
    }
  }

  lemma {:induction false} PairIsUnique(p: Pair, s: Bytes, q: Pair, t: Bytes)
    requires WellFormedPair(p) && WellFormedPair(q) && EncodePair(p) + s == EncodePair(q) + t
    ensures p == q && s == t
    decreases p, 2
  {
    hide Encode, WellFormed;
    Join(Encode(p.key), Encode(p.value), s);
    Join(Encode(q.key), Encode(q.value), t);
    UniquelyDecodable(p.key, Encode(p.value) + s, q.key, Encode(q.value) + t);
    UniquelyDecodable(p.value, s, q.value, t);
  }

  lemma {:induction false} BodiesAreUnique(code: octet, bodies: seq<Body>, s: Bytes, bodies': seq<Body>, t: Bytes)
    requires |bodies| == |bodies'|
    requires forall k :: 0 <= k < |bodies| ==> WellFormedBody(code, bodies[k]) && WellFormedBody(code, bodies'[k])
    requires EncodeBodies(code, bodies) + s == EncodeBodies(code, bodies') + t
    ensures bodies == bodies' && s == t
    decreases bodies, 2
  {
    hide EncodeBody, WellFormedBody, LayoutOf;
    if bodies == [] {
      Cancels([], s, [], t);
    } else {
      var x, y := EncodeBodies(code, bodies[1..]), EncodeBodies(code, bodies'[1..]);
      Join(EncodeBody(code, bodies[0]), x, s);
      Join(EncodeBody(code, bodies'[0]), y, t);
      BodyIsUnique(code, bodies[0], x + s, bodies'[0], y + t);
      BodiesAreUnique(code, bodies[1..], s, bodies'[1..], t);
      assert bodies == [bodies[0]] + bodies[1..] && bodies' == [bodies'[0]] + bodies'[1..];
    }
  }

  /** The children of a LIST_32 are lost: all that is left is their number and size. */
  lemma List32Loses(items: seq<Value>, items': seq<Value>)
    requires WellFormedBody(LIST_32, Items(items)) && WellFormedBody(LIST_32, Items(items'))
    requires |items| == |items'| && |EncodeItems(items)| == |EncodeItems(items')|
    ensures View(Value(Plain(LIST_32), Items(items))) == View(Value(Plain(LIST_32), Items(items')))
  {
    hide EncodeItems, ViewItems, WellFormed;
  }

  /** The descriptor shared by the elements of an array is lost. */
  lemma ArrayLosesDescriptor(d: Value, d': Value, code: octet, bodies: seq<Body>)
    requires WellFormedBody(ARRAY_8, Elements(Described(d, code), bodies))
    requires WellFormed(d) && WellFormed(d') && |Encode(d)| == |Encode(d')|
    ensures WellFormedBody(ARRAY_8, Elements(Described(d', code), bodies))
    ensures View(Value(Plain(ARRAY_8), Elements(Described(d, code), bodies)))
         == View(Value(Plain(ARRAY_8), Elements(Described(d', code), bodies)))
  {
    hide EncodeBodies, ViewBodies, WellFormed, Encode;
    assert |EncodeCtor(Described(d, code))| == 2 + |Encode(d)| && |EncodeCtor(Described(d', code))| == 2 + |Encode(d')|;
  }

  // ---- The decoder as the source writes it ----

  /** The index that every call of the decoder advances. */
  class Cursor {
    var i: nat

    constructor (i: nat)
      ensures this.i == i
    {
      this.i := i;
    }
  }

  /** A method's result and cursor agree with `r`. */
  ghost predicate Reached<T(!new)>(r: Decoded<T>, result: Option<T>, i: nat, buf: Bytes) {
    && (result.None? <==> r.OutOfBounds?)
    && (r.Ok? ==> result == Some(r.value) && i == r.next)
    && i <= |buf|
  }

  /** `get_tlv`; None when it would read outside the buffer. */
  method GetTlv(buf: Bytes, cur: Cursor) returns (tlv: Option<Tlv>)
    requires cur.i <= |buf|
    modifies cur
    ensures Reached(TlvAt(buf, old(cur.i)), tlv, cur.i, buf)
    decreases |buf| - cur.i, 3, 0
  {
    tlv := None;
    var c := GetConstructor(buf, cur);
    if c.Some? {
      tlv := GetElement(c.value.code, buf, cur);
      if tlv.Some? {
        tlv := Some(tlv.value.(ctor := c));
      }
    }
  }

  method GetConstructor(buf: Bytes, cur: Cursor) returns (c: Option<Constructor>)
    requires cur.i <= |buf|
    modifies cur
    ensures Reached(ConstructorAt(buf, old(cur.i)), c, cur.i, buf)
    decreases |buf| - cur.i, 2, 0
  {
    c := None;
    if cur.i < |buf| {
      var code := buf[cur.i];
      cur.i := cur.i + 1;
      if code == 0 {
        var descriptor := GetTlv(buf, cur);
        if descriptor.Some? && cur.i < |buf| {
          c := Some(Constructor(buf[cur.i], descriptor));
          cur.i := cur.i + 1;
        }
      } else {
        c := Some(Constructor(code, None));
      }
    }
  }

  method GetField(wide: bool, buf: Bytes, cur: Cursor) returns (n: Option<int>)
    requires cur.i <= |buf|
    modifies cur
    ensures Reached(FieldAt(wide, buf, old(cur.i)), n, cur.i, buf)
  {
    n := None;
    if cur.i + FieldWidth(wide) <= |buf| {
      n := Some(if wide then IntAt(buf, cur.i) else buf[cur.i]);
      cur.i := cur.i + FieldWidth(wide);
    }
  }

  method GetElement(code: octet, buf: Bytes, cur: Cursor) returns (tlv: Option<Tlv>)
    requires cur.i <= |buf|
    modifies cur
    ensures Reached(ElementAt(code, buf, old(cur.i)), tlv, cur.i, buf)
    decreases |buf| - cur.i, 1, 0
  {
    hide CompoundAt;
    tlv := None;
    match LayoutOf(code) {
      case Nothing => tlv := Some(Blank(code));
      case Constant => tlv := Some(ScalarTlv(code, [0], Some(0)));
      case Fixed(width) =>
        if cur.i + width <= |buf| {
          tlv := Some(ScalarTlv(code, buf[cur.i..cur.i + width], FixedLength(width)));
          cur.i := cur.i + width;
        }
      case Variable(wide) =>
        var n := GetField(wide, buf, cur);
        if n.Some? && 0 <= n.value && cur.i + n.value <= |buf| {
          tlv := Some(VariableTlv(code, buf[cur.i..cur.i + n.value]));
          cur.i := cur.i + n.value;
        }
      case EmptyList => tlv := Some(Compound(code, 0, 0, 0).(list := Some([])));
      case Unknown => tlv := Some(Blank(code));
      case _ =>
        var size := GetField(IsWide(code), buf, cur);
        if size.Some? {
          var count := GetField(IsWide(code), buf, cur);
          if count.Some? {
            tlv := GetCompound(code, size.value, count.value, buf, cur);
          }
        }
    }
  }

  /** The LIST, MAP and ARRAY cases, after their size and count have been read. */
  method GetCompound(code: octet, size: int, count: int, buf: Bytes, cur: Cursor) returns (tlv: Option<Tlv>)
    requires cur.i <= |buf|
    modifies cur
    ensures Reached(CompoundAt(code, size, count, buf, old(cur.i)), tlv, cur.i, buf)
    decreases |buf| - cur.i, 5, 0
  {
    hide TlvAt, ConstructorAt, ElementAt, ItemsAt, PairsAt, ElementsAt;
    tlv := None;
    match LayoutOf(code) {
      case List(wide) =>
        var items := GetItems(count, buf, cur);
        if items.Some? { tlv := Some(ListTlv(code, wide, size, count, items.value)); }
      case Map(wide) =>
        var entries := GetPairs(cur.i + size - FieldWidth(wide), count, buf, cur);
        if entries.Some? { tlv := Some(MapTlv(code, wide, size, count, entries.value)); }
      case _ =>
        var c := GetConstructor(buf, cur);
        if c.Some? {
          var elements := GetElements(c.value.code, count, buf, cur);
          if elements.Some? { tlv := Some(ArrayTlv(code, size, count, elements.value)); }
        }
    }
  }

  lemma PrependOne<T>(front: seq<T>, x: T, r: Decoded<seq<T>>)
    ensures Prepend(front, Prepend([x], r)) == Prepend(front + [x], r)
  {
    if r.Ok? { assert front + ([x] + r.value) == front + [x] + r.value; }
  }

  lemma PrependEnds<T>(front: seq<T>, r: Decoded<seq<T>>, i: nat)
    ensures Prepend([], r) == r
    ensures Prepend(front, Ok([], i)) == Ok(front, i)
  {
    if r.Ok? { assert [] + r.value == r.value; }
    assert front + [] == front;
  }

  method GetItems(count: int, buf: Bytes, cur: Cursor) returns (items: Option<seq<Tlv>>)
    requires cur.i <= |buf|
    modifies cur
    ensures Reached(ItemsAt(buf, old(cur.i), count), items, cur.i, buf)
    decreases |buf| - cur.i, 4, 0
  {
    hide TlvAt;
    ghost var start := cur.i;
    var done: seq<Tlv> := [];
    var j := 0;
    PrependEnds(done, ItemsAt(buf, start, count), start);
    while j < count
      invariant 0 <= j && (j <= count || j == 0) && start <= cur.i <= |buf|
      invariant ItemsAt(buf, start, count) == Prepend(done, ItemsAt(buf, cur.i, count - j))
    {
      var t := GetTlv(buf, cur);
      if t.None? { return None; }
      PrependOne(done, t.value, ItemsAt(buf, cur.i, count - j - 1));
      done := done + [t.value];
      j := j + 1;
    }
    PrependEnds(done, OutOfBounds, cur.i);
    return Some(done);
  }

  method GetPairs(stop: int, room: int, buf: Bytes, cur: Cursor) returns (entries: Option<seq<TlvEntry>>)
    requires cur.i <= |buf|
    modifies cur
    ensures Reached(PairsAt(buf, old(cur.i), stop, room), entries, cur.i, buf)
    decreases |buf| - cur.i, 4, 0
  {
    hide TlvAt;
    ghost var start := cur.i;
    var done: seq<TlvEntry> := [];
    PrependEnds(done, PairsAt(buf, start, stop, room), start);
    while cur.i < stop
      invariant start <= cur.i <= |buf|
      invariant PairsAt(buf, start, stop, room) == Prepend(done, PairsAt(buf, cur.i, stop, room - |done|))
      decreases |buf| - cur.i
    {
      if |done| >= room { return None; }
      var key := GetTlv(buf, cur);
      if key.None? { return None; }
      var value := GetTlv(buf, cur);
      if value.None? { return None; }
      PrependOne(done, TlvEntry(key.value, value.value), PairsAt(buf, cur.i, stop, room - |done| - 1));
      done := done + [TlvEntry(key.value, value.value)];
    }
    PrependEnds(done, OutOfBounds, cur.i);
    return Some(done);
  }

  method GetElements(code: octet, count: int, buf: Bytes, cur: Cursor) returns (elements: Option<seq<Tlv>>)
    requires cur.i <= |buf|
    modifies cur
    ensures Reached(ElementsAt(code, buf, old(cur.i), count), elements, cur.i, buf)
    decreases |buf| - cur.i, 4, 0
  {
    hide ElementAt;
    ghost var start := cur.i;
    var done: seq<Tlv> := [];
    var j := 0;
    PrependEnds(done, ElementsAt(code, buf, start, count), start);
    while j < count
      invariant 0 <= j && (j <= count || j == 0) && start <= cur.i <= |buf|
      invariant ElementsAt(code, buf, start, count) == Prepend(done, ElementsAt(code, buf, cur.i, count - j))
    {
      var t := GetElement(code, buf, cur);
      if t.None? { return None; }
      PrependOne(done, t.value, ElementsAt(code, buf, cur.i, count - j - 1));
      done := done + [t.value];
      j := j + 1;
    }
    PrependEnds(done, OutOfBounds, cur.i);
    return Some(done);
  }
}
