/** How much of an encoded AMQP frame comes back. */
module AmqpFrame {
  import opened Octets
  import opened AmqpTlv
  import opened AmqpList
  import opened AmqpArguments
  import opened AmqpEncoder
  import opened AmqpDecoder
  import opened AmqpPacked

  // ---- What each field decodes to ----

  predicate Small(n: Option<int>) {
    n.Some? ==> n.value <= 255
  }

  /** A number comes back exactly when it fits one octet. */
  lemma UintComesBack(n: Option<int>, list: seq<Tlv>, k: nat)
    requires Unsigned(n) && Entry(list, k) == ViewOf(Uint(n))
    ensures UintAt(list, k) == n <==> Small(n)
    ensures UintAt(list, k).Some? <==> n.Some?
  {
    if n.Some? {
      UintForm(n.value);
      var v := UintValue(n.value);
      ScalarView(v.ctor.code, v.body.data);
      hide Encode, WellFormed, View, Int;
    }
  }

  lemma BoolComesBack(b: Option<bool>, list: seq<Tlv>, k: nat)
    requires Entry(list, k) == ViewOf(Bool(b))
    ensures BoolAt(list, k) == b
  {
  }

  lemma BinaryComesBack(data: Option<Bytes>, list: seq<Tlv>, k: nat)
    requires (data.Some? ==> |data.value| < INT_SPACE / 4) && Entry(list, k) == ViewOf(Binary(data))
    ensures BinaryAt(list, k) == data
  {
    if data.Some? { ScalarView(BinaryValue(data.value).ctor.code, data.value); }
  }

  lemma UbyteComesBack(n: Option<octet>, list: seq<Tlv>, k: nat)
    requires Entry(list, k) == ViewOf(Ubyte(n))
    ensures UbyteAt(list, k) == n
  {
    if n.Some? { ScalarView(UBYTE, [n.value]); }
  }

  lemma StateComesBack(code: Option<octet>, list: seq<Tlv>, k: nat)
    requires Entry(list, k) == ViewOf(State(code))
    ensures StateAt(list, k) == code
    ensures Entry(list, k).Some? <==> code.Some?
    ensures code.Some? ==> IsList(list[k])
  {
    if code.Some? {
      ScalarForm(SMALL_ULONG, [code.value]);
      ScalarView(SMALL_ULONG, [code.value]);
      var v := StateValue(code.value);
      assert View(v).ctor == Some(ViewCtor(v.ctor)) && ViewCtor(v.ctor).tlv == Some(View(CodeValue(code.value)));
    }
  }

  /** Every number of the performative fits one octet. */
  predicate SmallNumbers(p: Performative) {
    match p
    case Transfer(handle, deliveryId, _, messageFormat, _, _, _, _, _, _, _) =>
      Small(handle) && Small(deliveryId) && Small(messageFormat)
    case Disposition(_, first, last, _, _, _) => Small(first) && Small(last)
    case Detach(handle, _, _) => Small(handle)
  }

  /** The list that is read holds the fields of `p`. */
  ghost predicate Carries(list: seq<Tlv>, p: Performative)
    requires Sendable(p)
  {
    && |list| == Count(Fields(p)) > 0
    && forall k :: 0 <= k < |Values(p)| ==> Entry(list, k) == ViewOf(Values(p)[k])
  }

  lemma TransferEntries(list: seq<Tlv>, p: Performative)
    requires Sendable(p) && p.Transfer? && Carries(list, p)
    ensures Entry(list, 0) == ViewOf(Uint(p.handle))
    ensures Entry(list, 1) == ViewOf(Uint(p.deliveryId))
    ensures Entry(list, 2) == ViewOf(Binary(p.deliveryTag))
    ensures Entry(list, 3) == ViewOf(Uint(p.messageFormat))
    ensures Entry(list, 4) == ViewOf(Bool(p.settled))
    ensures Entry(list, 5) == ViewOf(Bool(p.more))
    ensures Entry(list, 6) == ViewOf(Ubyte(p.rcvSettleMode))
    ensures Entry(list, 7) == ViewOf(State(p.state))
    ensures Entry(list, 8) == ViewOf(Bool(p.resume))
    ensures Entry(list, 9) == ViewOf(Bool(p.aborted))
    ensures Entry(list, 10) == ViewOf(Bool(p.batchable))
  {
    hide Entry, ViewOf, Uint, Bool, Binary, Ubyte, State;
    var vs := Values(p);
    assert |vs| == 11;
    assert Entry(list, 0) == ViewOf(vs[0]);
    assert Entry(list, 1) == ViewOf(vs[1]);
    assert Entry(list, 2) == ViewOf(vs[2]);
    assert Entry(list, 3) == ViewOf(vs[3]);
    assert Entry(list, 4) == ViewOf(vs[4]);
    assert Entry(list, 5) == ViewOf(vs[5]);
    assert Entry(list, 6) == ViewOf(vs[6]);
    assert Entry(list, 7) == ViewOf(vs[7]);
    assert Entry(list, 8) == ViewOf(vs[8]);
    assert Entry(list, 9) == ViewOf(vs[9]);
    assert Entry(list, 10) == ViewOf(vs[10]);
  }

  lemma TransferComesBack(list: seq<Tlv>, p: Performative)
    requires Sendable(p) && p.Transfer? && Carries(list, p)
    ensures InitTransfer(list).Packet?
    ensures InitTransfer(list) == Packet(p) <==> SmallNumbers(p)
  {
    TransferEntries(list, p);
    UintComesBack(p.handle, list, 0);
    UintComesBack(p.deliveryId, list, 1);
    BinaryComesBack(p.deliveryTag, list, 2);
    UintComesBack(p.messageFormat, list, 3);
    BoolComesBack(p.settled, list, 4);
    BoolComesBack(p.more, list, 5);
    UbyteComesBack(p.rcvSettleMode, list, 6);
    StateComesBack(p.state, list, 7);
    BoolComesBack(p.resume, list, 8);
    BoolComesBack(p.aborted, list, 9);
    BoolComesBack(p.batchable, list, 10);
    hide Entry, ViewOf, Uint, Bool, Binary, Ubyte, State, UintAt, BoolAt, BinaryAt, UbyteAt, StateAt, Carries;
  }

  lemma DispositionComesBack(list: seq<Tlv>, p: Performative)
    requires Sendable(p) && p.Disposition? && Carries(list, p)
    ensures InitDisposition(list).Packet?
    ensures InitDisposition(list) == Packet(p) <==> SmallNumbers(p)
  {
    hide Uint, Bool, State, UintAt, UnwrapBool, UnwrapUint, DescriptorOf;
    var vs := Values(p);
    BoolComesBack(p.role, list, 0);
    UintComesBack(p.first, list, 1);
    UintComesBack(p.last, list, 2);
    BoolComesBack(p.settled, list, 3);
    StateComesBack(p.state, list, 4);
    BoolComesBack(p.batchable, list, 5);
    assert Entry(list, 0) == ViewOf(vs[0]);
  }

  lemma DetachComesBack(list: seq<Tlv>, p: Performative)
    requires Sendable(p) && p.Detach? && Carries(list, p)
    ensures InitDetach(list, |list|).Packet?
    ensures InitDetach(list, |list|) == Packet(p) <==> SmallNumbers(p)
  {
    hide Uint, Bool, UintAt, BoolAt;
    var vs := Values(p);
    UintComesBack(p.handle, list, 0);
    BoolComesBack(p.closed, list, 1);
    assert Entry(list, 0) == ViewOf(vs[0]) && Fields(p)[2].None?;
  }

  /** The argument list, while it is a LIST_8, comes back with every field. */
  lemma ArgumentsDecode(p: Performative, buf: Bytes, i: nat)
    requires Encodable(p) && |Payload(p)| <= 255 && At(buf, i, ArgumentBytes(p))
    ensures TlvAt(buf, i).Ok? && TlvAt(buf, i).next == i + |ArgumentBytes(p)|
    ensures var t := TlvAt(buf, i).value;
      && DescriptorOf(t) == Some(HeaderCode(p))
      && t.list.Some? && t.count == Some(|t.list.value|) && Carries(t.list.value, p)
  {
    ListIsNonEmpty(p);
    var vs := Values(p);
    var count := Count(Fields(p));
    hide Concat, Values, Wrapped, TlvAt, View;
    forall k | 0 <= k < count ensures WrapsRight(vs[k]) {
      PartFits(Packed(Fields(p)), k);
      LongTagIsLong(vs[k]);
    }
    PackedIsEncoded(vs);
    var items := Sent(vs, count);
    List8Decodes(HeaderCode(p), items, Packed(Fields(p)), buf, i);
    forall k | 0 <= k < |vs| ensures Entry(ViewItems(items), k) == ViewOf(vs[k]) {
      EntryIsView(vs, count, k);
    }
  }

  lemma LongTagIsLong(v: Option<Value>)
    requires Proper(v)
    ensures WrapsRight(v) || |Slot(Wrapped(v))| > 255
  {
    if v.Some? { NotEmpty(v.value); }
  }

  lemma HeaderComesBack(t: Tlv, p: Performative)
    requires Sendable(p) && t.list.Some? && t.count == Some(|t.list.value|) && Carries(t.list.value, p)
    ensures InitHeader(HeaderCode(p), t).Packet?
    ensures InitHeader(HeaderCode(p), t) == Packet(p) <==> SmallNumbers(p)
  {
    hide Carries, Values, InitTransfer, InitDisposition, InitDetach;
    var list := t.list.value;
    assert |list| > 0 by { CarriesSome(list, p); }
    match p {
      case Transfer(_, _, _, _, _, _, _, _, _, _, _) => TransferComesBack(list, p);
      case Disposition(_, _, _, _, _, _) => DispositionComesBack(list, p);
      case Detach(_, _, _) => DetachComesBack(list, p);
    }
  }

  lemma CarriesSome(list: seq<Tlv>, p: Performative)
    requires Sendable(p) && Carries(list, p)
    ensures |list| > 0
  {
  }

  // ---- Sections ----

  lemma {:induction false} SectionsFront(sections: seq<Bytes>)
    requires sections != [] && forall k :: 0 <= k < |sections| ==> |sections[k]| < INT_SPACE / 2
    ensures SectionsBytes(sections) == Encode(SectionValue(sections[0])) + SectionsBytes(sections[1..])
    decreases |sections|
  {
    hide Encode, SectionValue;
    if |sections| == 1 {
      assert sections[..0] == [] && sections[1..] == [];
    } else {
      var init := sections[..|sections| - 1];
      SectionsFront(init);
      assert sections[1..][..|sections| - 2] == init[1..];
    }
  }

  lemma SectionDecodes(data: Bytes, buf: Bytes, i: nat)
    requires |data| < INT_SPACE / 2 && At(buf, i, Encode(SectionValue(data)))
    ensures TlvAt(buf, i).Ok? && i < TlvAt(buf, i).next == i + |Encode(SectionValue(data))|
    ensures DescriptorOf(TlvAt(buf, i).value) == Some(DATA)
    ensures UnwrapBinary(TlvAt(buf, i).value) == Some(data)
  {
    var v := SectionValue(data);
    RoundTrip(v, buf, i);
    ScalarForm(SMALL_ULONG, [DATA]);
    ScalarView(SMALL_ULONG, [DATA]);
    hide Encode, TlvAt, WellFormedCtor, WellFormedBody;
    assert View(v) == ViewBody(v.ctor.code, v.body).(ctor := Some(ViewCtor(v.ctor)));
    assert ViewCtor(v.ctor).tlv == Some(View(CodeValue(DATA)));
  }

  function Somes(sections: seq<Bytes>): (r: seq<Option<Bytes>>)
    ensures |r| == |sections| && forall k :: 0 <= k < |r| ==> r[k] == Some(sections[k])
  {
    seq(|sections|, k requires 0 <= k < |sections| => Some(sections[k]))
  }

  /** One section or none comes back; there is no room for a second. */
  lemma SectionsDecode(sections: seq<Bytes>, buf: Bytes, i: nat)
    requires forall k :: 0 <= k < |sections| ==> |sections[k]| < INT_SPACE / 2
    requires At(buf, i, SectionsBytes(sections)) && |buf| == i + |SectionsBytes(sections)|
    ensures |sections| <= 1 ==> SectionsAt(buf, i, 1) == Ok(Somes(sections), |buf|)
    ensures |sections| > 1 ==> SectionsAt(buf, i, 1).OutOfBounds?
  {
    hide Encode, TlvAt, UnwrapBinary, DescriptorOf, SectionValue;
    if sections != [] {
      SectionsFront(sections);
      var first := Encode(SectionValue(sections[0]));
      AtParts(buf, i, first, SectionsBytes(sections[1..]));
      SectionDecodes(sections[0], buf, i);
      if |sections| > 1 {
        SectionsFront(sections[1..]);
        AtParts(buf, i + |first|, Encode(SectionValue(sections[1])), SectionsBytes(sections[1..][1..]));
        SectionDecodes(sections[1], buf, i + |first|);
      } else {
        assert sections[1..] == [] && Somes(sections) == [Some(sections[0])] + [];
      }
    }
  }

  // ---- Frames ----

  lemma FourParts(buf: Bytes, size: Bytes, kind: Bytes, channel: Bytes, body: Bytes)
    requires |size| == 4 && |kind| == 2 && |channel| == 2 && buf == size + (kind + channel + body)
    ensures At(buf, 0, size) && buf[4] == kind[0] && buf[5] == kind[1] && At(buf, 6, channel) && At(buf, 8, body)
  {
    assert kind + channel + body == kind + (channel + body);
    assert At(buf, 0, size + (kind + (channel + body)));
    AtParts(buf, 0, size, kind + (channel + body));
    AtParts(buf, 4, kind, channel + body);
    AtParts(buf, 6, channel, body);
  }

  lemma ChannelComesBack(channel: int)
    requires -SHORT_SPACE / 2 <= channel < SHORT_SPACE / 2
    ensures AsShort(channel % SHORT_SPACE) == channel
  {
  }

  /** The size field of a frame is its number of bytes, and the rest is where the
      decoder looks for it. */
  lemma FrameParts(f: Frame)
    requires EncodableFrame(f)
    ensures var buf := EncodeFrame(f);
      && |buf| == 8 + |FrameBody(f)| && IntAt(buf, 0) == |buf|
      && buf[4] == f.doff && buf[5] == f.frameType && AsShort(ShortAt(buf, 6)) == f.channel
      && At(buf, 8, FrameBody(f))
  {
    hide FrameBody, IntAt, ShortAt, At, Int, Short, AsShort, Encodable;
    ChannelComesBack(f.channel);
    var buf, body := EncodeFrame(f), FrameBody(f);
    var size, kind, channel := Int(8 + |body|), [f.doff, f.frameType], Short(f.channel % SHORT_SPACE);
    FourParts(buf, size, kind, channel, body);
    IntRoundTrip(buf, 0, 8 + |body|);
    ShortRoundTrip(buf, 6, f.channel % SHORT_SPACE);
  }

  /** The frame as the receiver should see it; the number of sections is one short. */
  function AsReceived(f: Frame): Outcome {
    if f.performative.Transfer? then
      Received(f.doff, f.frameType, f.channel, f.performative,
               Somes(f.sections), if f.sections == [] then None else Some(|f.sections| - 1))
    else Received(f.doff, f.frameType, f.channel, f.performative, [], None)
  }

  lemma NoListCrashes(code: octet, t: Tlv)
    requires t.list.None? && t.count.Some? && t.count.value > 0
    ensures InitHeader(code, t) == Crash
  {
  }

  lemma ShortListRoundTrip(f: Frame, buf: Bytes)
    requires EncodableFrame(f) && f.frameType == 0 && |Payload(f.performative)| <= 255
    requires |buf| == 8 + |FrameBody(f)| && At(buf, 8, FrameBody(f))
    ensures DecodeAmqp(buf, f.doff, f.channel) == AsReceived(f)
      <==> SmallNumbers(f.performative) && (f.performative.Transfer? ==> |f.sections| <= 1)
  {
    hide Values, Fields, Concat, SectionsBytes, TlvAt, InitHeader, SectionsAt, DescriptorOf, Sendable, Carries, SmallNumbers;
    var p, args := f.performative, ArgumentBytes(f.performative);
    AtParts(buf, 8, args, if p.Transfer? then SectionsBytes(f.sections) else []);
    ArgumentsDecode(p, buf, 8);
    HeaderComesBack(TlvAt(buf, 8).value, p);
    if p.Transfer? { SectionsDecode(f.sections, buf, 8 + |args|); }
  }

  lemma LongListFails(f: Frame, buf: Bytes)
    requires EncodableFrame(f) && |Payload(f.performative)| > 255
    requires |buf| == 8 + |FrameBody(f)| && At(buf, 8, FrameBody(f))
    ensures DecodeAmqp(buf, f.doff, f.channel) == Undefined
  {
    hide Values, Fields, Concat, SectionsBytes, TlvAt, InitHeader, SectionsAt, DescriptorOf, Sendable;
    var p := f.performative;
    ListIsNonEmpty(p);
    AtParts(buf, 8, ArgumentBytes(p), if p.Transfer? then SectionsBytes(f.sections) else []);
    List32Decodes(HeaderCode(p), Packed(Fields(p)), buf, 8);
    if TlvAt(buf, 8).Ok? { NoListCrashes(HeaderCode(p), TlvAt(buf, 8).value); }
  }

  /**
   A frame comes back exactly when its argument list fits a LIST_8, its numbers fit
   one octet and it carries at most one section.
   */
  lemma FrameRoundTrip(f: Frame)
    requires EncodableFrame(f) && f.frameType == 0
    ensures DecodeFrame(EncodeFrame(f)) == AsReceived(f)
      <==> |Payload(f.performative)| <= 255 && SmallNumbers(f.performative)
           && (f.performative.Transfer? ==> |f.sections| <= 1)
  {
    var buf, p := EncodeFrame(f), f.performative;
    FrameParts(f);
    ListIsNonEmpty(p);
    hide Payload, FrameBody, EncodeFrame, DecodeAmqp, AsReceived, IntAt, ShortAt, AsShort, SmallNumbers, Sendable;
    assert DecodeFrame(buf) == DecodeAmqp(buf, f.doff, f.channel);
    if |Payload(p)| <= 255 {
      ShortListRoundTrip(f, buf);
    } else {
      LongListFails(f, buf);
      assert AsReceived(f).Received? by { ReceivedIs(f); }
    }
  }

  lemma ReceivedIs(f: Frame)
    ensures AsReceived(f).Received?
  {
  }
}
