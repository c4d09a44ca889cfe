/**
 The argument lists against the standard: the size field of a list counts the count
 field (section 1.6.22 of part 1), the one that is sent does not.
 */
module AmqpStandard {
  import opened Octets
  import opened AmqpTlv
  import opened AmqpList
  import opened AmqpArguments
  import opened AmqpPacked
  import opened Buffers

  /** The octets start with some value of the type system. */
  ghost predicate StartsWithValue(s: Bytes) {
    exists v: Value, t: Bytes :: WellFormed(v) && s == Encode(v) + t
  }

  /** A list with a code for descriptor and this size field. */
  function TaggedList(code: octet, wide: bool, size: nat, count: nat, payload: Bytes): Bytes
    requires Fits(wide, size) && Fits(wide, count)
  {
    [0, SMALL_ULONG, code, if wide then LIST_32 else LIST_8] + (Field(wide, size) + Field(wide, count) + payload)
  }

  function ListCode(wide: bool): octet {
    if wide then LIST_32 else LIST_8
  }

  /** A value whose record is that of a list ends where the size field says. */
  lemma ListValue(v: Value, wide: bool)
    requires WellFormed(v) && View(v).code == ListCode(wide)
    ensures View(v).size.Some? && |Encode(v)| == |EncodeCtor(v.ctor)| + FieldWidth(wide) + View(v).size.value
  {
    hide EncodeItems, ViewItems, EncodeCtor, ViewCtor, WellFormedCtor;
    assert LayoutOf(v.ctor.code) == List(wide);
  }

  /** Where the record of such a list is read from, its size field notwithstanding. */
  lemma TaggedDecodes(code: octet, wide: bool, items: seq<Value>, size: nat, buf: Bytes)
    requires forall k :: 0 <= k < |items| ==> WellFormed(items[k])
    requires EncodeItems(items) != [] && size == FieldWidth(wide) + |EncodeItems(items)| - 1
    requires Fits(wide, size) && Fits(wide, |items|)
    requires At(buf, 0, TaggedList(code, wide, size, |items|, EncodeItems(items)))
    ensures ConstructorAt(buf, 0).Ok? && ConstructorAt(buf, 0).next == 4
    ensures TlvAt(buf, 0).Ok? && TlvAt(buf, 0).next == 5 + FieldWidth(wide) + size
    ensures TlvAt(buf, 0).value.code == ListCode(wide) && TlvAt(buf, 0).value.size == Some(size)
  {
    hide EncodeItems, ViewItems, WellFormed, TlvAt, ConstructorAt, ItemsAt, TagView, Field;
    var payload := EncodeItems(items);
    ListHeader(code, ListCode(wide), wide, |items|, payload, buf, 0);
    ItemsRoundTrip(items, buf, 4 + 2 * FieldWidth(wide));
    var tag := [0, SMALL_ULONG, code, ListCode(wide)];
    AtParts(buf, 0, tag, Field(wide, size) + Field(wide, |items|) + payload);
    TagDecodes(code, ListCode(wide), buf, 0);
  }

  /** No list whose size field is one short starts, or is, a well-formed value. */
  lemma ShortSizeIsNoValue(code: octet, wide: bool, items: seq<Value>, s: Bytes, v: Value, t: Bytes)
    requires forall k :: 0 <= k < |items| ==> WellFormed(items[k])
    requires EncodeItems(items) != [] && Fits(wide, FieldWidth(wide) + |EncodeItems(items)| - 1) && Fits(wide, |items|)
    requires WellFormed(v)
    ensures TaggedList(code, wide, FieldWidth(wide) + |EncodeItems(items)| - 1, |items|, EncodeItems(items)) + s != Encode(v) + t
  {
    hide EncodeItems, Encode, EncodeCtor, View, ViewCtor, WellFormed, TlvAt, ConstructorAt, TaggedList;
    var size := FieldWidth(wide) + |EncodeItems(items)| - 1;
    var list := TaggedList(code, wide, size, |items|, EncodeItems(items));
    if list + s == Encode(v) + t {
      var buf := list + s;
      assert At(buf, 0, list) && At(buf, 0, Encode(v));
      TaggedDecodes(code, wide, items, size, buf);
      RoundTrip(v, buf, 0);
      CtorStands(v, buf);
      CtorRoundTrip(v.ctor, buf, 0);
      ListValue(v, wide);
      assert false;
    }
  }

  lemma CtorStands(v: Value, buf: Bytes)
    requires WellFormed(v) && At(buf, 0, Encode(v))
    ensures WellFormedCtor(v.ctor) && At(buf, 0, EncodeCtor(v.ctor))
  {
    hide EncodeCtor, EncodeBody;
    AtParts(buf, 0, EncodeCtor(v.ctor), EncodeBody(v.ctor.code, v.body));
  }

  /** Elements in their wire form make no list that the standard knows, in either form. */
  lemma ListIsNoValue(code: octet, parts: seq<Bytes>, items: seq<Value>, s: Bytes, v: Value, t: Bytes)
    requires forall k :: 0 <= k < |items| ==> WellFormed(items[k])
    requires |parts| == |items| <= 255 && Concat(parts) == EncodeItems(items) != []
    requires |Concat(parts)| < INT_SPACE / 2 - 3 && WellFormed(v)
    ensures |Concat(parts)| <= 255 ==> List8Bytes(code, parts) + s != Encode(v) + t
    ensures List32Bytes(code, parts) + s != Encode(v) + t
  {
    hide EncodeItems, Encode, WellFormed, Concat, Int;
    var payload := Concat(parts);
    ShortSizeIsNoValue(code, true, items, s, v, t);
    assert List32Bytes(code, parts) == TaggedList(code, true, 3 + |payload|, |items|, payload);
    if |payload| <= 255 {
      ShortSizeIsNoValue(code, false, items, s, v, t);
      assert List8Bytes(code, parts) == TaggedList(code, false, |payload|, |items|, payload);
    }
  }

  /** The four octets of a long delivery tag's length read the same in both directions. */
  predicate TagReadsRight(p: Performative) {
    p.Transfer? && p.deliveryTag.Some? ==>
      var n := |p.deliveryTag.value|;
      n <= 255 || (n < INT_SPACE && LittleEndian(n) == Int(n))
  }

  lemma BinaryWrapsRight(data: Bytes)
    requires |data| < INT_SPACE / 4 && (|data| <= 255 || LittleEndian(|data|) == Int(|data|))
    ensures WrapsRight(Binary(Some(data)))
  {
    BinaryIsEncodedExactly(data);
  }

  lemma ValuesWrapRight(p: Performative)
    requires Sendable(p) && TagReadsRight(p)
    ensures forall k :: 0 <= k < |Values(p)| ==> WrapsRight(Values(p)[k])
  {
    hide Encode, WellFormed, LittleEndian, Int;
    if p.Transfer? && p.deliveryTag.Some? { BinaryWrapsRight(p.deliveryTag.value); }
  }

  /** No performative, whatever follows it, starts a well-formed value: its list says that
      it is one octet shorter than it is.  But for a tag whose length is written wrong. */
  lemma ArgumentsAreNoValue(p: Performative, s: Bytes)
    requires Encodable(p) && TagReadsRight(p)
    ensures !StartsWithValue(ArgumentBytes(p) + s)
  {
    ListIsNonEmpty(p);
    ValuesWrapRight(p);
    var vs := Values(p);
    var items := Sent(vs, Count(Fields(p)));
    PackedIsEncoded(vs);
    hide Values, Concat, Count, Encode, EncodeItems, WellFormed, TagReadsRight;
    forall v, t | WellFormed(v) ensures ArgumentBytes(p) + s != Encode(v) + t {
      ListIsNoValue(HeaderCode(p), Packed(Fields(p)), items, s, v, t);
    }
  }
}
