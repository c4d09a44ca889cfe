/**
 The octets of what is sent, field by field, and what each octet received means: the
 codes of sections 1.6 and 2.7 of the AMQP 1.0 standard, each as its number.
 */
module AmqpFields {
  import opened Octets
  import opened AmqpTlv
  import opened AmqpList
  import opened AmqpArguments
  import opened AmqpEncoder
  import opened AmqpDecoder
  import opened AmqpOctets
  import opened Buffers
  import Framing

  // ---- What is sent for one field ----

  /** A number: 0x43, 0x52 and an octet, or 0x70 and four. */
  predicate IsUint(f: Option<Bytes>, n: Option<int>) {
    if n.None? then f.None?
    else
      && f.Some?
      && if n.value == 0 then f.value == [0x43]
         else if 0 < n.value <= 255 then f.value == [0x52, n.value]
         else |f.value| == 5 && f.value[0] == 0x70 && Quad(f.value, 1) == n.value % 0x1_0000_0000
  }

  predicate IsBool(f: Option<Bytes>, b: Option<bool>) {
    f == if b.None? then None else if b.value then Some([0x41]) else Some([0x42])
  }

  predicate IsUbyte(f: Option<Bytes>, n: Option<octet>) {
    f == if n.None? then None else Some([0x50, n.value])
  }

  /** The four octets of a long length come in the order of the machine, low octet first. */
  predicate IsBinary(f: Option<Bytes>, data: Option<Bytes>) {
    if data.None? then f.None?
    else
      && f.Some?
      && var d := data.value;
         if |d| <= 255 then f.value == [0xA0, |d|] + d
         else |f.value| == 5 + |d| && f.value[0] == 0xB0 && Machine(f.value, 1) == |d| && f.value[5..] == d
  }

  function Machine(buf: Bytes, i: nat): nat
    requires i + 4 <= |buf|
  {
    var a: int, b: int, c: int, d: int := buf[i], buf[i + 1], buf[i + 2], buf[i + 3];
    a + 256 * (b + 256 * (c + 256 * d))
  }

  /** A delivery state: its code as a ulong describes an empty list. */
  predicate IsState(f: Option<Bytes>, code: Option<octet>) {
    f == if code.None? then None else Some([0, 0x53, code.value, 0x45])
  }

  lemma IntIsQuadOf(n: int)
    requires 0 <= n < 0x1_0000_0000
    ensures Quad(Int(n), 0) == n
  {
  }

  lemma QuadShift(front: Bytes, s: Bytes)
    requires |s| == 4
    ensures Quad(front + s, |front|) == Quad(s, 0)
  {
  }

  lemma MachineOf(n: int)
    requires 0 <= n < 0x1_0000_0000
    ensures Machine(LittleEndian(n), 0) == n
  {
    hide Int;
    IntIsQuadOf(n);
  }

  lemma MachineShift(front: Bytes, s: Bytes, back: Bytes)
    requires |s| == 4
    ensures Machine(front + s + back, |front|) == Machine(s, 0)
  {
  }

  lemma UintOctets(n: Option<int>)
    requires Unsigned(n)
    ensures IsUint(Wrapped(Uint(n)), n)
  {
    if n.Some? {
      UintForm(n.value);
      var m := n.value % 0x1_0000_0000;
      IntIsQuadOf(m);
      QuadShift([0x70], Int(m));
      hide Encode, Int, Quad, WellFormed;
    }
  }

  lemma BoolOctets(b: Option<bool>)
    ensures IsBool(Wrapped(Bool(b)), b)
  {
    ScalarForm(0x41, []);
    ScalarForm(0x42, []);
    hide Encode, WellFormed;
    assert [0x41] + [] + [] == [0x41] && [0x42] + [] + [] == [0x42];
  }

  lemma UbyteOctets(n: Option<octet>)
    ensures IsUbyte(Wrapped(Ubyte(n)), n)
  {
    if n.Some? {
      ScalarForm(0x50, [n.value]);
      hide Encode, WellFormed;
      assert [0x50] + [] + [n.value] == [0x50, n.value];
    }
  }

  lemma StateOctets(code: Option<octet>)
    ensures IsState(Wrapped(State(code)), code)
  {
    if code.Some? { StateForm(code.value); }
    hide Encode, WellFormed;
  }

  lemma BinaryOctets(data: Option<Bytes>)
    requires data.Some? ==> |data.value| < INT_SPACE / 4
    ensures IsBinary(Wrapped(Binary(data)), data)
  {
    if data.Some? {
      var d := data.value;
      ScalarForm(BinaryValue(d).ctor.code, d);
      hide Encode, WellFormed;
      if |d| <= 255 {
        assert [0xA0, |d|] == [0xA0] + [|d|];
      } else {
        MachineOf(|d|);
        MachineShift([0xB0], LittleEndian(|d|), d);
        hide LittleEndian, Machine;
      }
    }
  }

  // ---- Which field stands where ----

  lemma TransferOctets(p: Performative)
    requires Sendable(p) && p.Transfer?
    ensures var f := Fields(p);
      && |f| == 11
      && IsUint(f[0], p.handle) && IsUint(f[1], p.deliveryId) && IsBinary(f[2], p.deliveryTag)
      && IsUint(f[3], p.messageFormat) && IsBool(f[4], p.settled) && IsBool(f[5], p.more)
      && IsUbyte(f[6], p.rcvSettleMode) && IsState(f[7], p.state) && IsBool(f[8], p.resume)
      && f[9].None? && IsBool(f[10], p.batchable)
  {
    TransferFields(p);
    UintOctets(p.handle);
    UintOctets(p.deliveryId);
    BinaryOctets(p.deliveryTag);
    UintOctets(p.messageFormat);
    BoolOctets(p.settled);
    BoolOctets(p.more);
    UbyteOctets(p.rcvSettleMode);
    StateOctets(p.state);
    BoolOctets(p.resume);
    BoolOctets(p.batchable);
    hide Fields, Wrapped, Uint, Binary, Ubyte, State, IsUint, IsBool, IsBinary, IsUbyte, IsState;
  }

  lemma DispositionOctets(p: Performative)
    requires Sendable(p) && p.Disposition?
    ensures var f := Fields(p);
      && |f| == 6
      && IsBool(f[0], p.role) && IsUint(f[1], p.first) && IsUint(f[2], p.last)
      && IsBool(f[3], p.settled) && IsState(f[4], p.state) && IsBool(f[5], p.batchable)
  {
    DispositionFields(p);
    BoolOctets(p.role);
    UintOctets(p.first);
    UintOctets(p.last);
    BoolOctets(p.settled);
    StateOctets(p.state);
    BoolOctets(p.batchable);
    hide Fields, Wrapped, Uint, Bool, State, IsUint, IsBool, IsState;
  }

  lemma DetachOctets(p: Performative)
    requires Sendable(p) && p.Detach?
    ensures var f := Fields(p); |f| == 3 && IsUint(f[0], p.handle) && IsBool(f[1], p.closed) && f[2].None?
  {
    UintOctets(p.handle);
    BoolOctets(p.closed);
    hide Uint, Bool, IsUint, IsBool;
  }

  // ---- The list around the fields ----

  /** The elements sent: every field up to the last one given, 0x40 for one not given. */
  predicate AreElements(parts: seq<Bytes>, fields: seq<Option<Bytes>>) {
    && |parts| <= |fields|
    && (forall k :: 0 <= k < |parts| ==> parts[k] == if fields[k].Some? then fields[k].value else [0x40])
    && (forall k :: |parts| <= k < |fields| ==> fields[k].None?)
    && (parts != [] ==> fields[|parts| - 1].Some?)
  }

  function Code(p: Performative): octet {
    if p.Transfer? then 0x14 else if p.Disposition? then 0x15 else 0x16
  }

  /** The code of the performative describes a list: 0xC0 with size and count of an octet
      each, or 0xD0 with four octets each.  The size leaves out the octet, or one of the
      four, that the standard has it count. */
  predicate IsArguments(args: Bytes, code: octet, parts: seq<Bytes>) {
    var payload := Concat(parts);
    if |payload| <= 255 then args == [0, 0x53, code, 0xC0, |payload|, |parts| % 256] + payload
    else
      && |args| == 12 + |payload| && args[..4] == [0, 0x53, code, 0xD0]
      && Quad(args, 4) == |payload| + 3 && Quad(args, 8) == |parts| && args[12..] == payload
  }

  lemma ArgumentOctets(p: Performative)
    requires Encodable(p)
    ensures AreElements(Packed(Fields(p)), Fields(p)) && 0 < |Packed(Fields(p))| <= 11
    ensures IsArguments(ArgumentBytes(p), Code(p), Packed(Fields(p)))
  {
    ListIsNonEmpty(p);
    ElementsOf(Fields(p));
    ListHead(HeaderCode(p), Packed(Fields(p)));
    hide Fields, Concat, Packed, ListBytes, IsArguments, AreElements;
  }

  lemma ListHead(code: octet, parts: seq<Bytes>)
    requires 0 < |Concat(parts)| < INT_SPACE - 3 && |parts| <= 11
    ensures IsArguments(ListBytes(code, parts), code, parts)
  {
    if |Concat(parts)| > 255 { LongHead(code, parts); }
    hide Concat, List32Bytes, Quad;
  }

  lemma ElementsOf(fields: seq<Option<Bytes>>)
    ensures AreElements(Packed(fields), fields)
  {
  }

  lemma LongHead(code: octet, parts: seq<Bytes>)
    requires 255 < |Concat(parts)| < INT_SPACE - 3 && |parts| <= 11
    ensures IsArguments(List32Bytes(code, parts), code, parts)
  {
    hide Int, Concat, Quad;
    var payload, n := Concat(parts), |Concat(parts)| + 3;
    var size, count, head := Int(n), Int(|parts|), [0, 0x53, code, 0xD0];
    var args := List32Bytes(code, parts);
    assert args == head + size + count + payload;
    IntIsQuadOf(n);
    IntIsQuadOf(|parts|);
    QuadAt(head, size, count + payload);
    QuadAt(head + size, count, payload);
    assert args == head + size + (count + payload) && args == (head + size) + count + payload;
    assert args[..4] == head && args[12..] == payload;
  }

  lemma QuadAt(front: Bytes, s: Bytes, back: Bytes)
    requires |s| == 4
    ensures Quad(front + s + back, |front|) == Quad(s, 0)
  {
  }

  // ---- Sections and frames ----

  /** A DATA section, code 0x75, with its length in one octet or four. */
  lemma SectionOctets(data: Bytes)
    requires |data| < 0x8000_0000
    ensures var s := Encode(SectionValue(data));
      if |data| <= 255 then s == [0, 0x53, 0x75, 0xA0, |data|] + data
      else |s| == 8 + |data| && s[..4] == [0, 0x53, 0x75, 0xB0] && Quad(s, 4) == |data| && s[8..] == data
  {
    SectionForm(data);
    hide Encode, Int, Quad, SectionValue;
    var s := Encode(SectionValue(data));
    if |data| <= 255 {
      assert [0, 0x53, 0x75, 0xA0] + [|data|] == [0, 0x53, 0x75, 0xA0, |data|];
    } else {
      var head := [0, 0x53, 0x75, 0xB0];
      assert s == head + Int(|data|) + data;
      IntIsQuadOf(|data|);
      QuadAt(head, Int(|data|), data);
      assert s[..4] == head && s[8..] == data;
    }
  }

  /** A frame: its length, offset, type and channel, the code of the performative behind
      0 and 0x53, and the sections, one after another, behind the arguments. */
  lemma FrameOctets(f: Frame)
    requires EncodableFrame(f)
    ensures var buf := EncodeFrame(f);
      && |buf| > 11 && Quad(buf, 0) == |buf| && buf[4] == f.doff && buf[5] == f.frameType
      && Two(buf, 6) == f.channel % 0x1_0000
      && buf[8..11] == [0, 0x53, Code(f.performative)]
      && buf[8..] == ArgumentBytes(f.performative) + if f.performative.Transfer? then SectionsBytes(f.sections) else []
  {
    var p, body, n := f.performative, FrameBody(f), f.channel % 0x1_0000;
    BodyOpens(f);
    IntIsQuadOf(8 + |body|);
    TwoOf(n);
    hide Int, Short, Quad, Two, ArgumentBytes, Encodable, SectionsBytes;
    assert EncodeFrame(f) == Int(8 + |body|) + ([f.doff, f.frameType] + Short(n) + body);
    hide FrameBody, EncodeFrame, Opening, Code;
    Lays(EncodeFrame(f), Int(8 + |body|), [f.doff, f.frameType], Short(n), body);
  }

  lemma BodyOpens(f: Frame)
    requires EncodableFrame(f)
    ensures |FrameBody(f)| > 3 && FrameBody(f)[..3] == [0, 0x53, Code(f.performative)]
    ensures FrameBody(f) == ArgumentBytes(f.performative) + if f.performative.Transfer? then SectionsBytes(f.sections) else []
  {
    var p := f.performative;
    ArgumentOctets(p);
    Opens(ArgumentBytes(p), Code(p), Packed(Fields(p)));
    hide ArgumentBytes, Fields, Packed, IsArguments, SectionsBytes, Code, AreElements;
    assert FrameBody(f)[..3] == ArgumentBytes(p)[..3];
  }

  lemma Opens(args: Bytes, code: octet, parts: seq<Bytes>)
    requires IsArguments(args, code, parts)
    ensures |args| >= 4 && args[..3] == [0, 0x53, code]
  {
    hide Concat, Quad;
    if |Concat(parts)| > 255 { assert args[..3] == args[..4][..3]; }
  }

  lemma Lays(buf: Bytes, size: Bytes, kind: Bytes, channel: Bytes, body: Bytes)
    requires |size| == 4 && |kind| == 2 && |channel| == 2 && |body| > 3
    requires buf == size + (kind + channel + body)
    ensures Quad(buf, 0) == Quad(size, 0) && buf[4] == kind[0] && buf[5] == kind[1]
    ensures Two(buf, 6) == Two(channel, 0) && buf[8..] == body && buf[8..11] == body[..3] && |buf| == 8 + |body|
  {
    QuadAt([], size, kind + channel + body);
    assert buf == [] + size + (kind + channel + body);
    assert buf[6] == channel[0] && buf[7] == channel[1];
    hide Quad;
  }

  /** Two octets in network order. */
  function Two(buf: Bytes, i: nat): nat
    requires i + 2 <= |buf|
  {
    var high: int, low: int := buf[i], buf[i + 1];
    high * 256 + low
  }

  lemma TwoOf(n: int)
    requires 0 <= n < 0x1_0000
    ensures Two(Short(n), 0) == n
  {
  }

  // ---- What is read from one element ----

  /** An element that is read and has no descriptor. */
  predicate IsRead(buf: Bytes, i: nat) {
    i < |buf| && buf[i] != 0 && TlvAt(buf, i).Ok?
  }

  /** The first octet of a value of fixed width. */
  lemma FirstOctet(buf: Bytes, i: nat)
    requires IsRead(buf, i) && IsFixed(buf[i])
    ensures i + 1 < |buf| && TlvAt(buf, i).value.code == buf[i]
    ensures var v := TlvAt(buf, i).value.valueArray; v.Some? && v.value != [] && v.value[0] == buf[i + 1]
    ensures buf[i] in {0x52, 0x70} ==> TlvAt(buf, i).value.length == Some(1)
  {
    FixedWidths(buf, i);
    hide TlvAt;
  }

  lemma CodeIsRead(buf: Bytes, i: nat)
    requires IsRead(buf, i)
    ensures TlvAt(buf, i).value.code == buf[i]
  {
    ElementIsValue(buf, i);
    ElementKeepsCode(buf[i], buf, i + 1);
    hide TlvAt, ElementAt;
  }

  lemma ElementKeepsCode(code: octet, buf: Bytes, i: nat)
    requires i <= |buf|
    ensures ElementAt(code, buf, i).Ok? ==> ElementAt(code, buf, i).value.code == code
  {
    if LayoutOf(code).List? || LayoutOf(code).Map? || LayoutOf(code).Array? {
      hide LayoutOf, FieldAt;
      var size := FieldAt(IsWide(code), buf, i);
      if size.Ok? {
        var count := FieldAt(IsWide(code), buf, size.next);
        if count.Ok? { CompoundKeepsCode(code, size.value, count.value, buf, count.next); }
      }
      hide CompoundAt;
    } else {
      hide LayoutOf;
    }
  }

  lemma CompoundKeepsCode(code: octet, size: int, count: int, buf: Bytes, i: nat)
    requires i <= |buf|
    ensures CompoundAt(code, size, count, buf, i).Ok? ==> CompoundAt(code, size, count, buf, i).value.code == code
  {
    hide LayoutOf;
  }

  /** A boolean is 0x41, 0x42, or 0x56 and an octet of 0 or 1. */
  lemma BoolMeans(buf: Bytes, i: nat)
    requires IsRead(buf, i)
    ensures buf[i] == 0x56 ==> i + 1 < |buf|
    ensures UnwrapBool(TlvAt(buf, i).value) ==
      if buf[i] == 0x41 then Some(true)
      else if buf[i] == 0x42 then Some(false)
      else if buf[i] == 0x56 && buf[i + 1] == 0 then Some(false)
      else if buf[i] == 0x56 && buf[i + 1] == 1 then Some(true)
      else None
  {
    CodeIsRead(buf, i);
    if buf[i] == 0x56 { FirstOctet(buf, i); }
    hide TlvAt;
  }

  /** A number is 0x43, or 0x52 and an octet; of the four octets behind 0x70 the first is
      taken for the whole. */
  lemma UintMeans(buf: Bytes, i: nat)
    requires IsRead(buf, i)
    ensures buf[i] in {0x52, 0x70} ==> i + 1 < |buf|
    ensures UnwrapUint(TlvAt(buf, i).value) ==
      if buf[i] == 0x43 then Some(0) else if buf[i] in {0x52, 0x70} then Some(buf[i + 1]) else None
  {
    CodeIsRead(buf, i);
    if buf[i] == 0x43 { Constants(buf, i); }
    if buf[i] in {0x52, 0x70} { FirstOctet(buf, i); }
    hide TlvAt, IntAt;
  }

  lemma UbyteMeans(buf: Bytes, i: nat)
    requires IsRead(buf, i)
    ensures buf[i] == 0x50 ==> i + 1 < |buf|
    ensures UnwrapUbyte(TlvAt(buf, i).value) == if buf[i] == 0x50 then Some(buf[i + 1]) else None
  {
    CodeIsRead(buf, i);
    if buf[i] == 0x50 { FirstOctet(buf, i); }
    hide TlvAt;
  }

  lemma BinaryMeans(buf: Bytes, i: nat)
    requires IsRead(buf, i)
    ensures UnwrapBinary(TlvAt(buf, i).value) ==
      if buf[i] == 0xA0 && i + 2 <= |buf| && i + 2 + buf[i + 1] <= |buf| then Some(buf[i + 2..i + 2 + buf[i + 1]])
      else if buf[i] == 0xB0 && i + 5 <= |buf| && i + 5 + Quad(buf, i + 1) <= |buf| then Some(buf[i + 5..i + 5 + Quad(buf, i + 1)])
      else None
  {
    CodeIsRead(buf, i);
    if buf[i] == 0xA0 { ShortVariable(buf, i); }
    if buf[i] == 0xB0 { LongVariable(buf, i); }
    hide TlvAt, Quad;
  }

  /** The code of a described element: the octet after 0x53, the first of the eight after
      0x80, or 0 for 0x44. */
  lemma DescriptorMeans(buf: Bytes, i: nat)
    requires i + 1 < |buf| && buf[i] == 0 && TlvAt(buf, i).Ok? && buf[i + 1] in {0x44, 0x53, 0x80}
    ensures buf[i + 1] != 0x44 ==> i + 2 < |buf|
    ensures DescriptorOf(TlvAt(buf, i).value) == if buf[i + 1] == 0x44 then Some(0) else Some(buf[i + 2])
  {
    Descriptors(buf, i);
    if buf[i + 1] == 0x44 { Constants(buf, i + 1); } else { FirstOctet(buf, i + 1); }
    hide TlvAt;
  }

  /** What has no descriptor tells no code. */
  lemma NoDescriptor(buf: Bytes, i: nat)
    requires IsRead(buf, i)
    ensures DescriptorOf(TlvAt(buf, i).value).None?
  {
    ElementIsValue(buf, i);
    hide TlvAt, ElementAt;
  }

  /** An element that is not there, or is 0x40, is no field. */
  lemma EntryMeans(list: seq<Tlv>, k: nat)
    ensures Entry(list, k) == if k >= |list| || list[k].code == 0x40 then None else Some(list[k])
    ensures k < |list| ==> (IsList(list[k]) <==> list[k].code in {0x45, 0xC0, 0xD0})
  {
  }

  predicate Given(list: seq<Tlv>, k: nat) {
    k < |list| && list[k].code != 0x40
  }

  /** A TRANSFER is read, unless its message format, settle mode or state is of another
      type: what they unwrap to is followed without a test for NULL. */
  lemma TransferRefused(list: seq<Tlv>)
    ensures !InitTransfer(list).Missing?
    ensures InitTransfer(list).Crash? <==>
      || (Given(list, 3) && UnwrapUint(list[3]).None?)
      || (Given(list, 6) && UnwrapUbyte(list[6]).None?)
      || (Given(list, 7) && DescriptorOf(list[7]).None?)
  {
    hide UnwrapUint, UnwrapBool, UnwrapUbyte, UnwrapBinary, DescriptorOf;
  }

  /** A DISPOSITION needs its role, and its state has to be a described list. */
  lemma DispositionRefused(list: seq<Tlv>)
    ensures InitDisposition(list).Missing? <==>
      || (list != [] && list[0].code == 0x40)
      || (RoleReads(list) && Given(list, 4) && list[4].code !in {0x45, 0xC0, 0xD0})
    ensures InitDisposition(list).Crash? <==>
      || (Given(list, 0) && UnwrapBool(list[0]).None?)
      || (RoleReads(list) && Given(list, 4) && list[4].code in {0x45, 0xC0, 0xD0} && DescriptorOf(list[4]).None?)
  {
    hide UnwrapUint, UnwrapBool, DescriptorOf;
  }

  /** The list is empty, or its first element is a boolean. */
  predicate RoleReads(list: seq<Tlv>) {
    list == [] || (list[0].code != 0x40 && UnwrapBool(list[0]).Some?)
  }

  /** A DETACH has one to three elements, the first of which is given; an error is looked
      for in its second element. */
  lemma DetachRefused(list: seq<Tlv>)
    ensures InitDetach(list, |list|).Missing? <==>
      || |list| == 0 || |list| > 3 || list[0].code == 0x40
      || (|list| == 3 && Given(list, 1) && list[1].code !in {0x45, 0xC0, 0xD0})
    ensures InitDetach(list, |list|).Crash? <==>
      && |list| == 3 && Given(list, 0) && Given(list, 1) && list[1].code in {0x45, 0xC0, 0xD0}
      && list[2].count != Some(0) && !(list[2].count.Some? && list[2].count.value < 0)
  {
    hide UnwrapUint, UnwrapBool;
  }

  // ---- What is read from a frame ----

  lemma TwoIsShort(buf: Bytes, i: nat)
    requires i + 2 <= |buf|
    ensures ShortAt(buf, i) == Two(buf, i)
  {
  }

  lemma QuadIs(buf: Bytes, i: nat, a: int, b: int, c: int, d: int)
    requires i + 4 <= |buf| && 0 <= a < 256 && 0 <= b < 256 && 0 <= c < 256 && 0 <= d < 256
    ensures Quad(buf, i) == a * 0x100_0000 + b * 0x1_0000 + c * 0x100 + d <==> buf[i..i + 4] == [a, b, c, d]
  {
  }

  /** What `DecodeFrame` looks at before anything else, as numbers in network order. */
  lemma HeadIs(buf: Bytes)
    requires |buf| >= 8
    ensures IntAt(buf, 0) == Signed(Quad(buf, 0))
    ensures AsShort(ShortAt(buf, 6)) == 0 <==> buf[6] == 0 && buf[7] == 0
    ensures IntAt(buf, 0) == 8 <==> buf[..4] == [0, 0, 0, 8]
    ensures IntAt(buf, 0) == AMQP_MAGIC <==> buf[..4] == [0x41, 0x4D, 0x51, 0x50]
  {
    IntIsQuad(buf, 0);
    QuadIs(buf, 0, 0, 0, 0, 8);
    QuadIs(buf, 0, 0x41, 0x4D, 0x51, 0x50);
    hide IntAt, Quad;
  }

  lemma Eight(buf: Bytes, a: octet, b: octet, c: octet, d: octet)
    requires |buf| >= 8
    ensures |buf| == 8 && buf[4] == a && buf[5] == b && buf[6] == c && buf[7] == d <==> buf == buf[..4] + [a, b, c, d]
  {
    if |buf| == 8 { assert buf == buf[..4] + buf[4..]; }
  }

  /** A ping is eight octets, of either type. */
  lemma PingOctets(buf: Bytes)
    ensures DecodeFrame(buf) == Ping <==> buf in {[0, 0, 0, 8, 2, 0, 0, 0], [0, 0, 0, 8, 2, 1, 0, 0]}
  {
    hide TlvAt, InitHeader, DescriptorOf, SectionsAt, IntAt, ShortAt, AsShort, DecodeAmqp;
    if |buf| >= 8 {
      HeadIs(buf);
      Eight(buf, 2, 0, 0, 0);
      Eight(buf, 2, 1, 0, 0);
      DecodesToPacket(buf);
      assert [0, 0, 0, 8] + [2, 0, 0, 0] == [0, 0, 0, 8, 2, 0, 0, 0];
      assert [0, 0, 0, 8] + [2, 1, 0, 0] == [0, 0, 0, 8, 2, 1, 0, 0];
    }
  }

  lemma DecodesToPacket(buf: Bytes)
    requires |buf| >= 8
    ensures forall doff, channel :: var r := DecodeAmqp(buf, doff, channel); !r.Ping? && !r.ProtoHeader? && !r.Sasl? && !r.Malformed?
  {
    hide TlvAt, InitHeader, DescriptorOf, SectionsAt;
  }

  /** A protocol header is "AMQP", the protocol, and version 1.0.0. */
  lemma HeaderOctets(buf: Bytes, protocol: octet)
    ensures DecodeFrame(buf) == ProtoHeader(protocol) <==>
      protocol in {0, 3} && buf == [0x41, 0x4D, 0x51, 0x50, protocol, 1, 0, 0]
  {
    hide TlvAt, InitHeader, DescriptorOf, SectionsAt, IntAt, ShortAt, AsShort, DecodeAmqp;
    if |buf| >= 8 {
      HeadIs(buf);
      Eight(buf, protocol, 1, 0, 0);
      DecodesToPacket(buf);
    }
  }

  /** Eight octets that stand for a frame of their own. */
  predicate IsSpecial(buf: Bytes) {
    && |buf| >= 8 && buf[6] == 0 && buf[7] == 0
    && ((buf[..5] == [0, 0, 0, 8, 2] && buf[5] <= 1)
        || (buf[..4] == [0x41, 0x4D, 0x51, 0x50] && buf[4] in {0, 3} && buf[5] == 1))
  }

  lemma SpecialIs(buf: Bytes)
    requires |buf| >= 8
    ensures IsSpecial(buf) <==>
      || (IntAt(buf, 0) == 8 && buf[4] == 2 && buf[5] <= 1 && AsShort(ShortAt(buf, 6)) == 0)
      || (IntAt(buf, 0) == AMQP_MAGIC && buf[4] in {0, 3} && buf[5] == 1 && AsShort(ShortAt(buf, 6)) == 0)
  {
    HeadIs(buf);
    hide IntAt, ShortAt, AsShort;
    assert buf[..5] == buf[..4] + [buf[4]];
    assert [0, 0, 0, 8, 2] == [0, 0, 0, 8] + [2];
  }

  /** Any other frame bears its own length; its type says what it is. */
  lemma FrameKind(buf: Bytes)
    requires |buf| >= 8 && !IsSpecial(buf)
    ensures DecodeFrame(buf) ==
      if Signed(Quad(buf, 0)) != |buf| || buf[5] > 1 then Malformed
      else if buf[5] == 1 then Sasl
      else DecodeAmqp(buf, buf[4], AsShort(Two(buf, 6)))
  {
    HeadIs(buf);
    SpecialIs(buf);
    TwoIsShort(buf, 6);
    hide IntAt, Quad, ShortAt, AsShort, DecodeAmqp, Two, Signed, IsSpecial;
  }

  /** The channel is a signed number of sixteen bits. */
  lemma ChannelMeans(n: int)
    requires 0 <= n < 0x1_0000
    ensures AsShort(n) == if n < 0x8000 then n else n - 0x1_0000
  {
  }

  /** Which performative a code stands for. */
  lemma CodesMean(buf: Bytes, doff: octet, channel: int)
    requires 8 <= |buf|
    ensures var r := DecodeAmqp(buf, doff, channel);
      && (r.Received? ==>
           && TlvAt(buf, 8).Ok? && DescriptorOf(TlvAt(buf, 8).value) == Some(Code(r.performative))
           && r.doff == doff && r.channel == channel && r.frameType == 0)
      && (r.Other? <==>
           && TlvAt(buf, 8).Ok? && DescriptorOf(TlvAt(buf, 8).value).Some?
           && DescriptorOf(TlvAt(buf, 8).value).value !in {0x14, 0x15, 0x16})
      && (r.Other? ==> DescriptorOf(TlvAt(buf, 8).value) == Some(r.code))
      && (TlvAt(buf, 8).OutOfBounds? || DescriptorOf(TlvAt(buf, 8).value).None? ==> r == Undefined)
  {
    hide TlvAt, DescriptorOf, SectionsAt, Entry, UintAt, BoolAt, UbyteAt, BinaryAt, StateAt, IsList;
  }

  /** Behind a TRANSFER stands nothing, or one section with code 0x75 that ends the frame. */
  lemma SectionsMean(buf: Bytes, i: nat)
    requires i <= |buf|
    ensures var r := SectionsAt(buf, i, 1);
      if i == |buf| then r == Ok([], i)
      else
        var t := TlvAt(buf, i);
        if t.Ok? && t.next == |buf| && DescriptorOf(t.value) == Some(0x75) then r == Ok([UnwrapBinary(t.value)], |buf|)
        else r.OutOfBounds?
  {
    hide TlvAt, DescriptorOf, UnwrapBinary;
    if i < |buf| && TlvAt(buf, i).Ok? {
      var b := UnwrapBinary(TlvAt(buf, i).value);
      assert [b] + [] == [b];
    }
  }

  /** What is received of a read that opens with "AMQP": a protocol header of version 1.0.0
      is split from the frame behind it. */
  lemma HeaderIsSplit(buf: Bytes, readable: nat)
    requires 8 <= |buf| && readable <= |buf| && buf[..4] == [0x41, 0x4D, 0x51, 0x50]
    ensures Framing.AmqpReceived(buf, readable) ==
      if buf[4] in {0, 3} && buf[5] == 1 && buf[6] == 0 && buf[7] == 0 && readable > 8
      then Framing.Split([buf[..8], buf[8..readable]], Framing.Finished)
      else Framing.Split([buf[..readable]], Framing.Finished)
  {
    HeadIs(buf);
    assert buf[5..8] == [buf[5], buf[6], buf[7]];
    hide IntAt;
  }
}
