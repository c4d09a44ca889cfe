/**
 A delivery tag whose length is written in the wrong order can hide the wrong size of
 the list it is in: read by the standard it ends early, what is left of it is another
 element, and the last element falls outside the list.
 */
module AmqpLongTag {
  import opened Octets
  import opened AmqpTlv
  import opened AmqpList
  import opened AmqpArguments
  import opened AmqpPacked
  import opened AmqpStandard
  import opened Buffers

  function Zeros(n: nat): (r: Bytes)
    ensures |r| == n
  {
    seq(n, _ => 0)
  }

  const FRONT := Zeros(256)
  const BACK := Zeros(65275)
  const TAG: Bytes := FRONT + ([BINARY_32] + Int(65275) + BACK)

  function LongBinary(data: Bytes): Value {
    Value(Plain(BINARY_32), Scalar(data))
  }

  /** The 65536 octets of the tag under a length that reads as 256. */
  lemma TagSplits()
    ensures |TAG| == 65536 && LittleEndian(|TAG|) == Int(256)
    ensures WellFormed(LongBinary(FRONT)) && WellFormed(LongBinary(BACK))
    ensures VariableBytes(BINARY_32, TAG) == Encode(LongBinary(FRONT)) + Encode(LongBinary(BACK))
  {
    ScalarForm(BINARY_32, FRONT);
    ScalarForm(BINARY_32, BACK);
    hide FRONT, BACK, Int, LittleEndian, Encode, WellFormed;
    LengthReversed();
    assert Encode(LongBinary(FRONT)) == [BINARY_32] + Int(256) + FRONT;
    assert Encode(LongBinary(BACK)) == [BINARY_32] + Int(65275) + BACK;
  }

  lemma LengthReversed()
    ensures LittleEndian(65536) == Int(256)
  {
  }

  lemma {:induction false} ConcatMerges(front: seq<Bytes>, x: Bytes, y: Bytes, back: seq<Bytes>)
    ensures Concat(front + [x, y] + back) == Concat(front + [x + y] + back)
    decreases |back|
  {
    var a, b := front + [x, y] + back, front + [x + y] + back;
    if back == [] {
      assert a[..|a| - 1] == front + [x] && (front + [x])[..|front|] == front;
      assert b[..|b| - 1] == front;
    } else {
      var init := back[..|back| - 1];
      ConcatMerges(front, x, y, init);
      assert a[..|a| - 1] == front + [x, y] + init && b[..|b| - 1] == front + [x + y] + init;
    }
  }

  function LongTagged(): Performative {
    Transfer(Some(0), None, Some(TAG), None, None, None, None, None, None, None, Some(true))
  }

  const NULL: Bytes := [AMQP_NULL]
  const NULLS: seq<Bytes> := [NULL, NULL, NULL, NULL, NULL, NULL, NULL]

  lemma WrappedForms()
    ensures Wrapped(Uint(Some(0))) == Some([UINT_0]) && Wrapped(Bool(Some(true))) == Some([BOOLEAN_TRUE])
    ensures |TAG| < INT_SPACE / 4 && Wrapped(Binary(Some(TAG))) == Some(VariableBytes(BINARY_32, TAG))
  {
    TagSplits();
    UintForm(0);
    ScalarForm(BOOLEAN_TRUE, []);
    hide TAG, VariableBytes;
    assert [BOOLEAN_TRUE] + [] + [] == [BOOLEAN_TRUE];
  }

  /** What is sent, element by element. */
  lemma SentParts()
    ensures Sendable(LongTagged()) && Count(Fields(LongTagged())) == 11
    ensures Packed(Fields(LongTagged())) == [[UINT_0], NULL, VariableBytes(BINARY_32, TAG)] + NULLS + [[BOOLEAN_TRUE]]
  {
    WrappedForms();
    hide Encode, WellFormed, TAG, VariableBytes, Wrapped, Uint, Bool, Binary;
    var p := LongTagged();
    TransferFields(p);
    AbsentFields();
    var fields, tag := Fields(p), VariableBytes(BINARY_32, TAG);
    assert fields == [Some([UINT_0]), None, Some(tag), None, None, None, None, None, None, None, Some([BOOLEAN_TRUE])];
    assert Slots(fields) == [[UINT_0], NULL, tag] + NULLS + [[BOOLEAN_TRUE]];
  }

  lemma AbsentFields()
    ensures Wrapped(Uint(None)) == None && Wrapped(Bool(None)) == None
    ensures Wrapped(Ubyte(None)) == None && Wrapped(State(None)) == None
  {
  }

  /** The elements of the list that the standard reads. */
  function ReadItems(): seq<Value> {
    [UintValue(0), NullValue(), LongBinary(FRONT), LongBinary(BACK), NullValue(), NullValue(), NullValue(),
     NullValue(), NullValue(), NullValue(), NullValue()]
  }

  lemma ReadItemForms()
    ensures WellFormed(UintValue(0)) && Encode(UintValue(0)) == [UINT_0]
    ensures WellFormed(NullValue()) && Encode(NullValue()) == NULL
  {
    UintForm(0);
    ScalarForm(AMQP_NULL, []);
    assert [AMQP_NULL] + [] + [] == NULL;
  }

  lemma ReadItemsForm()
    ensures forall k :: 0 <= k < 11 ==> WellFormed(ReadItems()[k])
    ensures Concat([[UINT_0], NULL, VariableBytes(BINARY_32, TAG)] + NULLS) == EncodeItems(ReadItems())
  {
    TagSplits();
    ReadItemForms();
    hide TAG, FRONT, BACK, VariableBytes, Encode, WellFormed, Concat, EncodeItems, UintValue, NullValue, LongBinary;
    var a, b := Encode(LongBinary(FRONT)), Encode(LongBinary(BACK));
    var parts := [[UINT_0], NULL, a, b] + NULLS;
    ConcatEncodes(parts, ReadItems());
    ConcatMerges([[UINT_0], NULL], a, b, NULLS);
    hide NULL, NULLS;
    assert parts == [[UINT_0], NULL] + [a, b] + NULLS;
    assert [[UINT_0], NULL] + [a + b] + NULLS == [[UINT_0], NULL, a + b] + NULLS;
  }

  /** A described list, as the standard lays it out. */
  lemma ListForm(items: seq<Value>)
    requires forall k :: 0 <= k < |items| ==> WellFormed(items[k])
    requires |items| <= 255 && |EncodeItems(items)| < INT_SPACE / 2 - 4
    ensures var v, payload := Value(Described(CodeValue(TRANSFER), LIST_32), Items(items)), EncodeItems(items);
      && WellFormed(v)
      && Encode(v) == [0, SMALL_ULONG, TRANSFER, LIST_32] + (Int(4 + |payload|) + Int(|items|) + payload)
  {
    ScalarForm(SMALL_ULONG, [TRANSFER]);
    var v := Value(Described(CodeValue(TRANSFER), LIST_32), Items(items));
    hide EncodeItems, Int;
    assert WellFormedCtor(v.ctor) && WellFormedBody(LIST_32, v.body);
    assert EncodeCtor(v.ctor) == [0] + [SMALL_ULONG, TRANSFER] + [LIST_32] == [0, SMALL_ULONG, TRANSFER, LIST_32];
  }

  lemma EarlyEnd(items: seq<Value>, s: Bytes)
    requires forall k :: 0 <= k < |items| ==> WellFormed(items[k])
    requires |items| <= 255 && |EncodeItems(items)| < INT_SPACE / 2 - 4 && |s| == 1
    ensures StartsWithValue(TaggedList(TRANSFER, true, |EncodeItems(items) + s| + 3, |items|, EncodeItems(items) + s))
  {
    ListForm(items);
    hide EncodeItems, Int, Encode, WellFormed;
    var v, payload := Value(Described(CodeValue(TRANSFER), LIST_32), Items(items)), EncodeItems(items);
    var tag, fields := [0, SMALL_ULONG, TRANSFER, LIST_32], Int(4 + |payload|) + Int(|items|);
    assert tag + (fields + (payload + s)) == tag + (fields + payload) + s;
  }

  lemma {:induction false} ConcatBound(parts: seq<Bytes>, n: nat)
    requires forall k :: 0 <= k < |parts| ==> |parts[k]| <= n
    ensures |Concat(parts)| <= |parts| * n
    decreases |parts|
  {
    if parts == [] {
    } else {
      ConcatBound(parts[..|parts| - 1], n);
    }
  }

  /** A long argument list; its size field is one short. */
  lemma LongArguments(p: Performative)
    requires Encodable(p) && |Payload(p)| > 255
    ensures |Packed(Fields(p))| <= 11
    ensures ArgumentBytes(p) == TaggedList(HeaderCode(p), true, |Payload(p)| + 3, |Packed(Fields(p))|, Payload(p))
  {
    ListIsNonEmpty(p);
    hide Fields, Packed, Concat, Int;
  }

  lemma TagLength()
    ensures |TAG| < INT_SPACE / 2 && 255 < |VariableBytes(BINARY_32, TAG)| < 70000
  {
    TagSplits();
    hide LittleEndian, Int, FRONT, BACK;
  }

  /** A tag of the wrong length does make a performative start with a value. */
  lemma LongTagStartsValue()
    ensures Encodable(LongTagged()) && !TagReadsRight(LongTagged()) && StartsWithValue(ArgumentBytes(LongTagged()))
  {
    SentParts();
    ReadItemsForm();
    TagSplits();
    hide TAG, FRONT, BACK, Encode, WellFormed, EncodeItems;
    hide Fields, Packed, Count, StartsWithValue, TaggedList, VariableBytes;
    var p, front := LongTagged(), [[UINT_0], NULL, VariableBytes(BINARY_32, TAG)] + NULLS;
    TagLength();
    ConcatBound(front, 70000);
    PartFits(front, 2);
    assert (front + [[BOOLEAN_TRUE]])[..|front|] == front;
    assert Payload(p) == EncodeItems(ReadItems()) + [BOOLEAN_TRUE];
    hide Concat, Payload, ArgumentBytes;
    LongArguments(p);
    EarlyEnd(ReadItems(), [BOOLEAN_TRUE]);
  }
}
