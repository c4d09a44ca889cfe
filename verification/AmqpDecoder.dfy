/**
 AMQP frames as amqp_parser.c and header_factory.c decode them.  A field that is None
 was left unset.
 */
module AmqpDecoder {
  import opened Octets
  import opened AmqpTlv
  import opened AmqpArguments

  const AMQP_MAGIC := 1095586128      // "AMQP" read as a length

  // ---- Decoding ----

  datatype Outcome =
    | Undefined                       // reads or writes where nothing is allocated
    | Malformed
    | Ping
    | ProtoHeader(protocolId: octet)
    | Sasl                            // a frame of type 1
    | Other(code: octet)              // another performative
    | NoPacket(code: octet)           // returned without a packet
    | Received(doff: octet, frameType: octet, channel: int, performative: Performative,
               sections: seq<Option<Bytes>>, sectionNumber: Option<int>)

  /** What `init_header` leaves in `packet`. */
  datatype Init = Packet(p: Performative) | Missing | Crash

  /** `unwrap_uint`; None is a NULL result. */
  function UnwrapUint(t: Tlv): Option<int> {
    if t.code !in {UINT, SMALL_UINT, UINT_0} || t.valueArray.None? then None
    else if t.length == Some(0) then Some(0)
    else if t.length == Some(1) then (if t.valueArray.value == [] then None else Some(t.valueArray.value[0]))
    else if |t.valueArray.value| < 4 then None
    else Some(IntAt(t.valueArray.value, 0))
  }

  function UnwrapBool(t: Tlv): Option<bool> {
    if t.code == BOOLEAN && t.valueArray.Some? && t.valueArray.value != [] then
      var b := t.valueArray.value[0];
      if b == 0 then Some(false) else if b == 1 then Some(true) else None
    else if t.code == BOOLEAN_TRUE then Some(true)
    else if t.code == BOOLEAN_FALSE then Some(false)
    else None
  }

  function UnwrapUbyte(t: Tlv): Option<octet> {
    if t.code == UBYTE && t.valueArray.Some? && t.valueArray.value != [] then Some(t.valueArray.value[0]) else None
  }

  function UnwrapBinary(t: Tlv): Option<Bytes> {
    if t.code == BINARY_8 || t.code == BINARY_32 then t.valueArray else None
  }

  /** `constructor->tlv->value_array[0]`, where there is one. */
  function DescriptorOf(t: Tlv): Option<octet> {
    if t.ctor.None? || t.ctor.value.tlv.None? then None
    else
      var d := t.ctor.value.tlv.value;
      if d.valueArray.None? || d.valueArray.value == [] then None else Some(d.valueArray.value[0])
  }

  predicate IsList(t: Tlv) {
    t.code in {LIST_0, LIST_8, LIST_32}
  }

  /** Element `k` of a list, if it is there and not null. */
  function Entry(list: seq<Tlv>, k: nat): Option<Tlv> {
    if k < |list| && list[k].code != AMQP_NULL then Some(list[k]) else None
  }

  function UintAt(list: seq<Tlv>, k: nat): Option<int> {
    var e := Entry(list, k);
    if e.None? then None else UnwrapUint(e.value)
  }

  function BoolAt(list: seq<Tlv>, k: nat): Option<bool> {
    var e := Entry(list, k);
    if e.None? then None else UnwrapBool(e.value)
  }

  function UbyteAt(list: seq<Tlv>, k: nat): Option<octet> {
    var e := Entry(list, k);
    if e.None? then None else UnwrapUbyte(e.value)
  }

  function BinaryAt(list: seq<Tlv>, k: nat): Option<Bytes> {
    var e := Entry(list, k);
    if e.None? then None else UnwrapBinary(e.value)
  }

  function StateAt(list: seq<Tlv>, k: nat): Option<octet> {
    var e := Entry(list, k);
    if e.None? then None else DescriptorOf(e.value)
  }

  function InitTransfer(list: seq<Tlv>): Init {
    if (Entry(list, 3).Some? && UintAt(list, 3).None?) || (Entry(list, 6).Some? && UbyteAt(list, 6).None?)
       || (Entry(list, 7).Some? && StateAt(list, 7).None?)
    then Crash
    else Packet(Transfer(
      UintAt(list, 0), UintAt(list, 1), BinaryAt(list, 2), UintAt(list, 3), BoolAt(list, 4), BoolAt(list, 5),
      UbyteAt(list, 6), StateAt(list, 7), BoolAt(list, 8), BoolAt(list, 9), BoolAt(list, 10)))
  }

  function InitDisposition(list: seq<Tlv>): Init {
    if list != [] && Entry(list, 0).None? then Missing
    else if list != [] && BoolAt(list, 0).None? then Crash
    else if Entry(list, 4).Some? && !IsList(list[4]) then Missing
    else if Entry(list, 4).Some? && StateAt(list, 4).None? then Crash
    else Packet(Disposition(
      BoolAt(list, 0), UintAt(list, 1), UintAt(list, 2), BoolAt(list, 3), StateAt(list, 4), BoolAt(list, 5)))
  }

  /** The third element is looked for in the place of the second. */
  function InitDetach(list: seq<Tlv>, count: int): Init {
    if count == 0 || count > 3 || (list != [] && Entry(list, 0).None?) then Missing
    else if |list| > 2 && Entry(list, 1).Some? then
      if !IsList(list[1]) then Missing
      else if list[2].count.None? || list[2].count.value > 0 then Crash
      else Packet(Detach(UintAt(list, 0), BoolAt(list, 1), true))
    else Packet(Detach(UintAt(list, 0), BoolAt(list, 1), false))
  }

  /** `init_header`; the list pointer is followed only for a positive count. */
  function InitHeader(code: octet, t: Tlv): Init {
    if t.count.None? then Crash
    else if t.count.value > 0 && (t.list.None? || |t.list.value| != t.count.value) then Crash
    else
      var list := if t.count.value > 0 then t.list.value else [];
      if code == TRANSFER then InitTransfer(list)
      else if code == DISPOSITION then InitDisposition(list)
      else InitDetach(list, t.count.value)
  }

  /** The section loop.  There is room for one section, and only DATA is known. */
  function SectionsAt(buf: Bytes, i: nat, room: nat): (r: Decoded<seq<Option<Bytes>>>)
    requires i <= |buf|
    decreases |buf| - i
  {
    if i == |buf| then Ok([], i)
    else match TlvAt(buf, i)
      case OutOfBounds => OutOfBounds
      case Ok(t, j) =>
        if DescriptorOf(t) != Some(DATA) || room == 0 then OutOfBounds
        else Prepend([UnwrapBinary(t)], SectionsAt(buf, j, room - 1))
  }

  /** A `short`. */
  function AsShort(n: int): int
    requires 0 <= n < SHORT_SPACE
  {
    if n < SHORT_SPACE / 2 then n else n - SHORT_SPACE
  }

  /** `get_amqp` and the section loop. */
  function DecodeAmqp(buf: Bytes, doff: octet, channel: int): Outcome
    requires 8 <= |buf|
  {
    match TlvAt(buf, 8)
    case OutOfBounds => Undefined
    case Ok(t, i) =>
      if DescriptorOf(t).None? then Undefined
      else
        var code := DescriptorOf(t).value;
        if code !in {TRANSFER, DISPOSITION, DETACH} then Other(code)
        else match InitHeader(code, t)
          case Crash => Undefined
          case Missing => NoPacket(code)
          case Packet(p) =>
            if code != TRANSFER then Received(doff, 0, channel, p, [], None)
            else match SectionsAt(buf, i, 1)
              case OutOfBounds => Undefined
              case Ok(sections, _) =>
                Received(doff, 0, channel, p, sections, if sections == [] then None else Some(|sections| - 1))
  }

  /** `amqp_decode` of a buffer of `readable_bytes`. */
  function DecodeFrame(buf: Bytes): Outcome {
    if |buf| < 8 then Undefined
    else
      var length, doff, frameType, channel := IntAt(buf, 0), buf[4], buf[5], AsShort(ShortAt(buf, 6));
      if length == 8 && doff == 2 && frameType <= 1 && channel == 0 then (if |buf| == 8 then Ping else Malformed)
      else if length == AMQP_MAGIC && doff in {0, 3} && frameType == 1 && channel == 0 then
        (if |buf| == 8 then ProtoHeader(doff) else Malformed)
      else if length != |buf| then Malformed
      else if frameType == 0 then DecodeAmqp(buf, doff, channel)
      else if frameType == 1 then Sasl
      else Malformed
  }

  /** The block that `init_header` repeats for each field. */
  method ReadUint(list: seq<Tlv>, k: nat) returns (field: Option<int>)
    ensures field == UintAt(list, k)
  {
    field := None;
    if k < |list| && list[k].code != AMQP_NULL {
      field := UnwrapUint(list[k]);
    }
  }

  method ReadBool(list: seq<Tlv>, k: nat) returns (field: Option<bool>)
    ensures field == BoolAt(list, k)
  {
    field := None;
    if k < |list| && list[k].code != AMQP_NULL {
      field := UnwrapBool(list[k]);
    }
  }

  method ReadBinary(list: seq<Tlv>, k: nat) returns (field: Option<Bytes>)
    ensures field == BinaryAt(list, k)
  {
    field := None;
    if k < |list| && list[k].code != AMQP_NULL {
      field := UnwrapBinary(list[k]);
    }
  }

  method ReadUbyte(list: seq<Tlv>, k: nat) returns (field: Option<octet>)
    ensures field == UbyteAt(list, k)
  {
    field := None;
    if k < |list| && list[k].code != AMQP_NULL {
      field := UnwrapUbyte(list[k]);
    }
  }

  method ReadState(list: seq<Tlv>, k: nat) returns (field: Option<octet>)
    ensures field == StateAt(list, k)
  {
    field := None;
    if k < |list| && list[k].code != AMQP_NULL {
      field := DescriptorOf(list[k]);
    }
  }

  /** The TRANSFER case of `init_header`. */
  method ReadTransfer(list: seq<Tlv>) returns (r: Init)
    ensures r == InitTransfer(list)
  {
    hide UintAt, BoolAt, UbyteAt, BinaryAt, StateAt;
    var handle := ReadUint(list, 0);
    var deliveryId := ReadUint(list, 1);
    var deliveryTag := ReadBinary(list, 2);
    var messageFormat := ReadUint(list, 3);
    if 3 < |list| && list[3].code != AMQP_NULL && messageFormat.None? { return Crash; }
    var settled := ReadBool(list, 4);
    var more := ReadBool(list, 5);
    var rcvSettleMode := ReadUbyte(list, 6);
    if 6 < |list| && list[6].code != AMQP_NULL && rcvSettleMode.None? { return Crash; }
    var state := ReadState(list, 7);
    if 7 < |list| && list[7].code != AMQP_NULL && state.None? { return Crash; }
    var resume := ReadBool(list, 8);
    var aborted := ReadBool(list, 9);
    var batchable := ReadBool(list, 10);
    return Packet(Transfer(
      handle, deliveryId, deliveryTag, messageFormat, settled, more, rcvSettleMode, state, resume, aborted, batchable));
  }

  /** The DISPOSITION case. */
  method ReadDisposition(list: seq<Tlv>) returns (r: Init)
    ensures r == InitDisposition(list)
  {
    hide UintAt, BoolAt, StateAt, IsList;
    if 0 < |list| && list[0].code == AMQP_NULL { return Missing; }
    var role := ReadBool(list, 0);
    if 0 < |list| && role.None? { return Crash; }
    var first := ReadUint(list, 1);
    var last := ReadUint(list, 2);
    var settled := ReadBool(list, 3);
    var state := ReadState(list, 4);
    if 4 < |list| && list[4].code != AMQP_NULL {
      if !IsList(list[4]) { return Missing; }
      if state.None? { return Crash; }
    }
    var batchable := ReadBool(list, 5);
    return Packet(Disposition(role, first, last, settled, state, batchable));
  }

  /** The DETACH case. */
  method ReadDetach(list: seq<Tlv>, count: int) returns (r: Init)
    requires count > 0 ==> |list| == count
    requires count <= 0 ==> list == []
    ensures r == InitDetach(list, count)
  {
    hide UintAt, BoolAt, IsList;
    if count == 0 { return Missing; }
    if count > 3 { return Missing; }
    if count > 0 && list[0].code == AMQP_NULL { return Missing; }
    var handle := ReadUint(list, 0);
    var closed := ReadBool(list, 1);
    var error := false;
    if count > 2 && list[1].code != AMQP_NULL {
      if !IsList(list[1]) { return Missing; }
      if list[2].count.None? || list[2].count.value > 0 { return Crash; }
      error := true;
    }
    return Packet(Detach(handle, closed, error));
  }

  /** `init_header`. */
  method ReadHeader(code: octet, t: Tlv) returns (r: Init)
    ensures r == InitHeader(code, t)
  {
    hide InitTransfer, InitDisposition, InitDetach;
    if t.count.None? { return Crash; }
    var list := [];
    if t.count.value > 0 {
      if t.list.None? || |t.list.value| != t.count.value { return Crash; }
      list := t.list.value;
    }
    if code == TRANSFER {
      r := ReadTransfer(list);
    } else if code == DISPOSITION {
      r := ReadDisposition(list);
    } else {
      r := ReadDetach(list, t.count.value);
    }
  }

  method GetSections(buf: Bytes, cur: Cursor) returns (sections: Option<seq<Option<Bytes>>>)
    requires cur.i <= |buf|
    modifies cur
    ensures Reached(SectionsAt(buf, old(cur.i), 1), sections, cur.i, buf)
  {
    hide TlvAt, UnwrapBinary, DescriptorOf;
    ghost var start := cur.i;
    var done: seq<Option<Bytes>> := [];
    PrependEnds(done, SectionsAt(buf, start, 1), start);
    while cur.i < |buf|
      invariant cur.i <= |buf| && |done| <= 1
      invariant SectionsAt(buf, start, 1) == Prepend(done, SectionsAt(buf, cur.i, 1 - |done|))
      decreases |buf| - cur.i
    {
      var section := GetTlv(buf, cur);
      if section.None? || DescriptorOf(section.value) != Some(DATA) || |done| == 1 { return None; }
      PrependOne(done, UnwrapBinary(section.value), SectionsAt(buf, cur.i, 0));
      done := done + [UnwrapBinary(section.value)];
    }
    PrependEnds(done, OutOfBounds, cur.i);
    return Some(done);
  }

  method AmqpDecode(buf: Bytes) returns (r: Outcome)
    ensures r == DecodeFrame(buf)
  {
    hide TlvAt, InitHeader, DescriptorOf, SectionsAt;
    if |buf| < 8 { return Undefined; }
    var length, doff, frameType, channel := IntAt(buf, 0), buf[4], buf[5], AsShort(ShortAt(buf, 6));
    if length == 8 && doff == 2 && (frameType == 0 || frameType == 1) && channel == 0 {
      return if |buf| == 8 then Ping else Malformed;
    }
    if length == AMQP_MAGIC && (doff == 3 || doff == 0) && frameType == 1 && channel == 0 {
      return if |buf| == 8 then ProtoHeader(doff) else Malformed;
    }
    if length != |buf| { return Malformed; }
    if frameType != 0 { return if frameType == 1 then Sasl else Malformed; }
    var cur := new Cursor(8);
    var t := GetTlv(buf, cur);
    if t.None? || DescriptorOf(t.value).None? { return Undefined; }
    var code := DescriptorOf(t.value).value;
    if code != TRANSFER && code != DISPOSITION && code != DETACH { return Other(code); }
    var packet := ReadHeader(code, t.value);
    match packet {
      case Crash => return Undefined;
      case Missing => return NoPacket(code);
      case Packet(p) =>
        if code != TRANSFER { return Received(doff, 0, channel, p, [], None); }
        var sections := GetSections(buf, cur);
        if sections.None? { return Undefined; }
        return Received(doff, 0, channel, p, sections.value, if sections.value == [] then None else Some(|sections.value| - 1));
    }
  }
}
