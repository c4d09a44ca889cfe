/** The list that was packed is the list that is read. */
module AmqpPacked {
  import opened Octets
  import opened AmqpTlv
  import opened AmqpList
  import opened AmqpArguments
  import opened AmqpDecoder

  /** The elements that are sent, as values. */
  function Sent(vs: seq<Option<Value>>, count: nat): (r: seq<Value>)
    requires count <= |vs|
    ensures |r| == count
    ensures forall k :: 0 <= k < count ==> r[k] == if vs[k].Some? then vs[k].value else NullValue()
  {
    seq(count, k requires 0 <= k < count => if vs[k].Some? then vs[k].value else NullValue())
  }

  lemma {:induction false} EncodeItemsAppend(items: seq<Value>, last: Value)
    requires (forall k :: 0 <= k < |items| ==> WellFormed(items[k])) && WellFormed(last)
    ensures EncodeItems(items + [last]) == EncodeItems(items) + Encode(last)
    decreases |items|
  {
    hide Encode, WellFormed;
    if items == [] {
      assert [last][1..] == [] && items + [last] == [last];
    } else {
      assert (items + [last])[1..] == items[1..] + [last];
      EncodeItemsAppend(items[1..], last);
    }
  }

  lemma {:induction false} ConcatEncodes(parts: seq<Bytes>, items: seq<Value>)
    requires |parts| == |items| && forall k :: 0 <= k < |items| ==> WellFormed(items[k]) && parts[k] == Encode(items[k])
    ensures Concat(parts) == EncodeItems(items)
    decreases |parts|
  {
    hide Encode, WellFormed;
    if parts == [] {
    } else {
      var n := |parts| - 1;
      ConcatEncodes(parts[..n], items[..n]);
      EncodeItemsAppend(items[..n], items[n]);
      assert items == items[..n] + [items[n]];
    }
  }

  lemma {:induction false} PartFits(parts: seq<Bytes>, k: nat)
    requires k < |parts|
    ensures |parts[k]| <= |Concat(parts)|
    decreases |parts|
  {
    if k == |parts| - 1 {
    } else {
      PartFits(parts[..|parts| - 1], k);
    }
  }

  lemma {:induction false} ViewItemsAt(items: seq<Value>, k: nat)
    requires (forall j :: 0 <= j < |items| ==> WellFormed(items[j])) && k < |items|
    ensures ViewItems(items)[k] == View(items[k])
    decreases k
  {
    hide View, WellFormed;
    if k == 0 {
    } else {
      ViewItemsAt(items[1..], k - 1);
    }
  }

  /** The wrappers give the value its wire form. */
  predicate WrapsRight(v: Option<Value>)
    requires Proper(v)
  {
    v.Some? ==> Wrapped(v) == Some(Encode(v.value))
  }

  /** Then the elements sent are, one after the other, the wire forms of values. */
  lemma PackedIsEncoded(vs: seq<Option<Value>>)
    requires forall k :: 0 <= k < |vs| ==> Proper(vs[k])
    requires forall k :: 0 <= k < Count(WrappedAll(vs)) ==> WrapsRight(vs[k])
    ensures var items := Sent(vs, Count(WrappedAll(vs)));
      && (forall k :: 0 <= k < |items| ==> WellFormed(items[k]))
      && Concat(Packed(WrappedAll(vs))) == EncodeItems(items)
  {
    hide Count, Concat, EncodeItems, Encode, Wrapped;
    var items, parts := Sent(vs, Count(WrappedAll(vs))), Packed(WrappedAll(vs));
    forall k | 0 <= k < |items| ensures WellFormed(items[k]) && parts[k] == Encode(items[k]) {
      ScalarForm(AMQP_NULL, []);
      assert Proper(vs[k]) && WrapsRight(vs[k]) && parts[k] == Slot(Wrapped(vs[k]));
    }
    ConcatEncodes(parts, items);
  }

  function ViewOf(v: Option<Value>): Option<Tlv>
    requires Proper(v)
  {
    if v.None? then None else Some(View(v.value))
  }

  /** What is read at `k` is the record of the field at `k`, for absent fields too. */
  lemma EntryIsView(vs: seq<Option<Value>>, count: nat, k: nat)
    requires forall j :: 0 <= j < |vs| ==> Proper(vs[j])
    requires count <= |vs| && forall j :: count <= j < |vs| ==> vs[j].None?
    requires forall j :: 0 <= j < count ==> WellFormed(Sent(vs, count)[j])
    requires k < |vs|
    ensures Entry(ViewItems(Sent(vs, count)), k) == ViewOf(vs[k])
  {
    hide ViewItems, WellFormed;
    if k < count {
      ViewItemsAt(Sent(vs, count), k);
    }
  }

  /** The record of a value without children. */
  lemma ScalarView(code: octet, data: Bytes)
    requires WellFormed(Value(Plain(code), Scalar(data)))
    ensures View(Value(Plain(code), Scalar(data))) == (
      match LayoutOf(code)
      case Nothing => Blank(code)
      case Constant => ScalarTlv(code, [0], Some(0))
      case Fixed(width) => ScalarTlv(code, data, FixedLength(width))
      case Variable(wide) => VariableTlv(code, data)
      case _ => View(Value(Plain(code), Scalar(data)))).(ctor := Some(Constructor(code, None)))
  {
    var v := Value(Plain(code), Scalar(data));
    assert WellFormedBody(v.ctor.code, v.body);
    assert ViewCtor(v.ctor) == Constructor(code, None);
    assert View(v) == ViewBody(code, v.body).(ctor := Some(ViewCtor(v.ctor)));
  }

  /** The constructor of a list described by a code. */
  function TagView(code: octet, listCode: octet): Constructor {
    Constructor(listCode, Some(ScalarTlv(SMALL_ULONG, [code], Some(1)).(ctor := Some(Constructor(SMALL_ULONG, None)))))
  }

  lemma TagDecodes(code: octet, listCode: octet, buf: Bytes, i: nat)
    requires At(buf, i, [0, SMALL_ULONG, code, listCode]) && listCode != 0
    ensures ConstructorAt(buf, i) == Ok(TagView(code, listCode), i + 4)
  {
    ScalarForm(SMALL_ULONG, [code]);
    var c := Described(CodeValue(code), listCode);
    assert EncodeCtor(c) == [0] + [SMALL_ULONG, code] + [listCode] == [0, SMALL_ULONG, code, listCode];
    CtorRoundTrip(c, buf, i);
    ScalarView(SMALL_ULONG, [code]);
    assert ViewCtor(c).tlv == Some(View(CodeValue(code)));
  }

  /** A described list, whose size field counts one octet less than it should. */
  lemma ListHeader(code: octet, listCode: octet, wide: bool, count: nat, payload: Bytes, buf: Bytes, i: nat)
    requires LayoutOf(listCode) == List(wide) && listCode != 0
    requires payload != [] && Fits(wide, FieldWidth(wide) + |payload| - 1) && Fits(wide, count)
    requires At(buf, i, [0, SMALL_ULONG, code, listCode]
                        + (Field(wide, FieldWidth(wide) + |payload| - 1) + Field(wide, count) + payload))
    ensures var j := i + 4 + 2 * FieldWidth(wide);
      && At(buf, j, payload)
      && TlvAt(buf, i) == match ItemsAt(buf, j, count)
        case OutOfBounds => OutOfBounds
        case Ok(items, k) =>
          Ok(ListTlv(listCode, wide, FieldWidth(wide) + |payload| - 1, count, items).(ctor := Some(TagView(code, listCode))), k)
  {
    var tag, rest := [0, SMALL_ULONG, code, listCode], Field(wide, FieldWidth(wide) + |payload| - 1) + Field(wide, count) + payload;
    AtParts(buf, i, tag, rest);
    CompoundHeader(wide, |payload| - 1, count, payload, buf, i + 4);
    TagDecodes(code, listCode, buf, i);
    hide At, FieldAt, ConstructorAt, ItemsAt, Field, TagView;
    assert ElementAt(listCode, buf, i + 4)
        == CompoundAt(listCode, FieldWidth(wide) + |payload| - 1, count, buf, i + 4 + 2 * FieldWidth(wide));
  }

  lemma List8Decodes(code: octet, items: seq<Value>, parts: seq<Bytes>, buf: Bytes, i: nat)
    requires forall k :: 0 <= k < |items| ==> WellFormed(items[k])
    requires |parts| == |items| <= 255 && 0 < |Concat(parts)| <= 255 && Concat(parts) == EncodeItems(items)
    requires At(buf, i, List8Bytes(code, parts))
    ensures TlvAt(buf, i) == Ok(ListTlv(LIST_8, false, |Concat(parts)|, |items|, ViewItems(items)).(ctor := Some(TagView(code, LIST_8))),
                                i + |List8Bytes(code, parts)|)
  {
    var payload := EncodeItems(items);
    hide EncodeItems, ViewItems, WellFormed, Concat, TlvAt, ItemsAt;
    assert List8Bytes(code, parts) == [0, SMALL_ULONG, code, LIST_8] + ([|payload|] + [|items|] + payload);
    ListHeader(code, LIST_8, false, |items|, payload, buf, i);
    ItemsRoundTrip(items, buf, i + 6);
  }

  /** Whatever the reader makes of a LIST_32, there is no list in the record. */
  lemma List32Decodes(code: octet, parts: seq<Bytes>, buf: Bytes, i: nat)
    requires 0 < |Concat(parts)| < INT_SPACE / 2 - 3 && |parts| < INT_SPACE / 2
    requires At(buf, i, List32Bytes(code, parts))
    ensures TlvAt(buf, i).Ok? ==>
      var t := TlvAt(buf, i).value;
      DescriptorOf(t) == Some(code) && t.list.None? && t.count == Some(|parts|)
  {
    var payload := Concat(parts);
    hide Concat, Int, TlvAt, ItemsAt;
    assert List32Bytes(code, parts)
        == [0, SMALL_ULONG, code, LIST_32] + (Int(|payload| + 3) + Int(|parts|) + payload);
    ListHeader(code, LIST_32, true, |parts|, payload, buf, i);
  }
}
