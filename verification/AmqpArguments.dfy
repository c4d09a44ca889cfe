/**
 The argument lists of TRANSFER, DISPOSITION and DETACH as header_factory.c fills
 them.  A field that is None is a NULL pointer.
 */
module AmqpArguments {
  import opened Octets
  import opened AmqpTlv
  import opened AmqpList

  const TRANSFER: octet := 0x14
  const DISPOSITION: octet := 0x15
  const DETACH: octet := 0x16
  const DATA: octet := 0x75

  datatype Performative =
    | Transfer(
        handle: Option<int>, deliveryId: Option<int>, deliveryTag: Option<Bytes>, messageFormat: Option<int>,
        settled: Option<bool>, more: Option<bool>, rcvSettleMode: Option<octet>, state: Option<octet>,
        resume: Option<bool>, aborted: Option<bool>, batchable: Option<bool>)
    | Disposition(
        role: Option<bool>, first: Option<int>, last: Option<int>, settled: Option<bool>, state: Option<octet>,
        batchable: Option<bool>)
    | Detach(handle: Option<int>, closed: Option<bool>, error: bool)

  function HeaderCode(p: Performative): octet {
    match p
    case Transfer(_, _, _, _, _, _, _, _, _, _, _) => TRANSFER
    case Disposition(_, _, _, _, _, _) => DISPOSITION
    case Detach(_, _, _) => DETACH
  }

  // ---- Encoding ----

  predicate Unsigned(n: Option<int>) {
    n.Some? ==> 0 <= n.value
  }

  /** The fields without which `add_arguments` returns NULL. */
  predicate HasMandatory(p: Performative) {
    match p
    case Transfer(handle, _, _, _, _, _, _, _, _, _, _) => handle.Some?
    case Disposition(role, first, _, _, _, _) => role.Some? && first.Some?
    case Detach(handle, _, _) => handle.Some?
  }

  /** What is encoded from defined octets: the mandatory fields, no negative number, of
      which the octets of a pointer are copied, no `aborted`, whose length is taken
      through a NULL pointer, and here no error. */
  predicate Sendable(p: Performative) {
    match p
    case Transfer(handle, deliveryId, tag, messageFormat, _, _, _, _, _, aborted, _) =>
      handle.Some? && aborted.None? && Unsigned(handle) && Unsigned(deliveryId) && Unsigned(messageFormat)
      && (tag.Some? ==> |tag.value| < INT_SPACE / 4)
    case Disposition(role, first, last, _, _, _) => role.Some? && first.Some? && Unsigned(first) && Unsigned(last)
    case Detach(handle, _, error) => handle.Some? && Unsigned(handle) && !error
  }

  predicate Proper(v: Option<Value>) {
    v.Some? ==>
      && WellFormed(v.value)
      && v.value.ctor.code != AMQP_NULL
      && (v.value.ctor.code == BINARY_32 ==> v.value.body.Scalar? && |v.value.body.data| > 255)
  }

  function Uint(n: Option<int>): (v: Option<Value>)
    requires Unsigned(n)
    ensures Proper(v)
  {
    if n.None? then None else (UintForm(n.value); Some(UintValue(n.value)))
  }

  function Bool(b: Option<bool>): (v: Option<Value>)
    ensures Proper(v)
  {
    if b.None? then None else (ScalarForm(BoolValue(b.value).ctor.code, []); Some(BoolValue(b.value)))
  }

  function Binary(data: Option<Bytes>): (v: Option<Value>)
    requires data.Some? ==> |data.value| < INT_SPACE / 4
    ensures Proper(v)
  {
    if data.None? then None
    else (ScalarForm(BinaryValue(data.value).ctor.code, data.value); Some(BinaryValue(data.value)))
  }

  function Ubyte(n: Option<octet>): (v: Option<Value>)
    ensures Proper(v)
  {
    if n.None? then None else (ScalarForm(UBYTE, [n.value]); Some(UbyteValue(n.value)))
  }

  function State(code: Option<octet>): (v: Option<Value>)
    ensures Proper(v)
  {
    if code.None? then None else (StateForm(code.value); Some(StateValue(code.value)))
  }

  /** The fields in the order of the list. */
  function Values(p: Performative): (r: seq<Option<Value>>)
    requires Sendable(p)
    ensures 0 < |r| <= 11 && r[0].Some? && forall k :: 0 <= k < |r| ==> Proper(r[k])
  {
    match p
    case Transfer(handle, deliveryId, tag, messageFormat, settled, more, mode, state, resume, aborted, batchable) =>
      [Uint(handle), Uint(deliveryId), Binary(tag), Uint(messageFormat), Bool(settled), Bool(more),
       Ubyte(mode), State(state), Bool(resume), Bool(aborted), Bool(batchable)]
    case Disposition(role, first, last, settled, state, batchable) =>
      [Bool(role), Uint(first), Uint(last), Bool(settled), State(state), Bool(batchable)]
    case Detach(handle, closed, _) => [Uint(handle), Bool(closed), None]
  }

  lemma NotEmpty(v: Value)
    requires WellFormed(v)
    ensures Encode(v) != []
    ensures v.ctor.code == BINARY_32 ==> v.body.Scalar? && |v.body.data| < INT_SPACE / 2
  {
    assert EncodeCtor(v.ctor) != [];
    assert v.ctor.code == BINARY_32 ==> LayoutOf(v.ctor.code) == Variable(true);
  }

  /** What the wrappers make of a field: its wire form, but for the byte order of a
      four-octet length. */
  function Wrapped(v: Option<Value>): (r: Option<Bytes>)
    requires Proper(v)
    ensures r.Some? <==> v.Some?
    ensures r.Some? ==> r.value != []
  {
    if v.None? then None
    else (NotEmpty(v.value);
      if v.value.ctor.code == BINARY_32 then Some(VariableBytes(BINARY_32, v.value.body.data))
      else Some(Encode(v.value)))
  }

  function WrappedAll(vs: seq<Option<Value>>): (r: seq<Option<Bytes>>)
    requires forall k :: 0 <= k < |vs| ==> Proper(vs[k])
    ensures |r| == |vs| && forall k :: 0 <= k < |vs| ==> r[k] == Wrapped(vs[k])
  {
    seq(|vs|, k requires 0 <= k < |vs| => Wrapped(vs[k]))
  }

  function Fields(p: Performative): (r: seq<Option<Bytes>>)
    requires Sendable(p)
    ensures 0 < |r| <= 11 && r[0].Some? && r[0].value != []
  {
    WrappedAll(Values(p))
  }

  method WrapLong(n: Option<int>) returns (field: Option<Bytes>)
    requires Unsigned(n)
    ensures field == Wrapped(Uint(n))
  {
    field := None;
    if n.Some? {
      var bytes := WrapUint(n.value);
      field := Some(bytes[..]);
    }
  }

  method WrapBool(b: Option<bool>) returns (field: Option<Bytes>)
    ensures field == Wrapped(Bool(b))
  {
    field := None;
    if b.Some? {
      var code := if b.value then BOOLEAN_TRUE else BOOLEAN_FALSE;
      var bytes := InitTlvFixed(code, []);
      ScalarForm(code, []);
      field := Some(bytes[..]);
    }
  }

  method WrapBinary(data: Option<Bytes>) returns (field: Option<Bytes>)
    requires data.Some? ==> |data.value| < INT_SPACE / 4
    ensures field == Wrapped(Binary(data))
  {
    field := None;
    if data.Some? {
      BinaryIsEncodedExactly(data.value);
      var bytes := InitTlvVariable(if |data.value| > 255 then BINARY_32 else BINARY_8, data.value);
      field := Some(bytes[..]);
    }
  }

  method WrapShort(n: Option<octet>) returns (field: Option<Bytes>)
    ensures field == Wrapped(Ubyte(n))
  {
    field := None;
    if n.Some? {
      var bytes := InitTlvFixed(UBYTE, [n.value]);
      ScalarForm(UBYTE, [n.value]);
      field := Some(bytes[..]);
    }
  }

  method WrapStateField(code: Option<octet>) returns (field: Option<Bytes>)
    ensures field == Wrapped(State(code))
  {
    field := None;
    if code.Some? {
      var bytes := WrapState(code.value);
      field := Some(bytes[..]);
    }
  }

  lemma {:induction false} ConcatNonEmpty(parts: seq<Bytes>)
    requires parts != [] && parts[0] != []
    ensures Concat(parts) != []
    decreases |parts|
  {
    if |parts| > 1 {
      ConcatNonEmpty(parts[..|parts| - 1]);
    } else {
      assert parts[..0] == [];
    }
  }

  function Payload(p: Performative): Bytes
    requires Sendable(p)
  {
    Concat(Packed(Fields(p)))
  }

  predicate Encodable(p: Performative) {
    Sendable(p) && |Payload(p)| < INT_SPACE / 4
  }

  lemma ListIsNonEmpty(p: Performative)
    requires Sendable(p)
    ensures 0 < |Payload(p)| && 0 < Count(Fields(p)) == |Packed(Fields(p))| <= 11
  {
    hide Fields, Concat;
    ConcatNonEmpty(Packed(Fields(p)));
  }

  function ArgumentBytes(p: Performative): Bytes
    requires Encodable(p)
  {
    ListIsNonEmpty(p);
    ListBytes(HeaderCode(p), Packed(Fields(p)))
  }

  predicate Begins(some: seq<Option<Bytes>>, all: seq<Option<Bytes>>) {
    some <= all
  }

  lemma BeginsAndEnds(some: seq<Option<Bytes>>, all: seq<Option<Bytes>>)
    ensures Begins([], all)
    ensures Begins(some, all) && |some| == |all| ==> some == all
  {
  }

  /** One more of the fields that the list is to hold. */
  method AddNext(tlvList: TlvList, field: Option<Bytes>, ghost all: seq<Option<Bytes>>)
    requires tlvList.Valid() && Begins(tlvList.fields, all)
    requires |tlvList.fields| < |all| && field == all[|tlvList.fields|]
    modifies tlvList
    ensures tlvList.Valid() && Begins(tlvList.fields, all)
    ensures |tlvList.fields| == old(|tlvList.fields|) + 1
  {
    hide Slots, Count, Present, PresentLength;
    tlvList.Add(field);
  }

  /** How filling a list ends: with a list, with NULL, or with octets that are not
      defined, if it ends. */
  datatype Added = Filled(list: TlvList) | Declined | Corrupt

  lemma TransferFields(p: Performative)
    requires Sendable(p) && p.Transfer?
    ensures |Fields(p)| == 11
    ensures Fields(p)[0] == Wrapped(Uint(p.handle))
    ensures Fields(p)[1] == Wrapped(Uint(p.deliveryId))
    ensures Fields(p)[2] == Wrapped(Binary(p.deliveryTag))
    ensures Fields(p)[3] == Wrapped(Uint(p.messageFormat))
    ensures Fields(p)[4] == Wrapped(Bool(p.settled))
    ensures Fields(p)[5] == Wrapped(Bool(p.more))
    ensures Fields(p)[6] == Wrapped(Ubyte(p.rcvSettleMode))
    ensures Fields(p)[7] == Wrapped(State(p.state))
    ensures Fields(p)[8] == Wrapped(Bool(p.resume))
    ensures Fields(p)[9] == Wrapped(Bool(p.aborted))
    ensures Fields(p)[10] == Wrapped(Bool(p.batchable))
  {
    hide Wrapped, Uint, Bool, Binary, Ubyte, State;
  }

  method FillTransfer(p: Performative) returns (tlvList: TlvList)
    requires Sendable(p) && p.Transfer?
    ensures fresh(tlvList) && tlvList.Valid() && tlvList.fields == Fields(p)
  {
    TransferFields(p);
    hide Fields, Begins, Slots, Count, Present, PresentLength, Wrapped, Uint, Bool, Binary, Ubyte, State;
    ghost var all := Fields(p);
    tlvList := new TlvList();
    BeginsAndEnds([], all);
    var f := WrapLong(p.handle);
    AddNext(tlvList, f, all);
    f := WrapLong(p.deliveryId);
    AddNext(tlvList, f, all);
    f := WrapBinary(p.deliveryTag);
    AddNext(tlvList, f, all);
    f := WrapLong(p.messageFormat);
    AddNext(tlvList, f, all);
    f := WrapBool(p.settled);
    AddNext(tlvList, f, all);
    f := WrapBool(p.more);
    AddNext(tlvList, f, all);
    f := WrapShort(p.rcvSettleMode);
    AddNext(tlvList, f, all);
    f := WrapStateField(p.state);
    AddNext(tlvList, f, all);
    f := WrapBool(p.resume);
    AddNext(tlvList, f, all);
    f := WrapBool(p.aborted);
    AddNext(tlvList, f, all);
    f := WrapBool(p.batchable);
    AddNext(tlvList, f, all);
    BeginsAndEnds(tlvList.fields, all);
  }

  /** The TRANSFER case of `add_arguments`. */
  method AddTransfer(p: Performative) returns (added: Added)
    requires p.Transfer? && (p.deliveryTag.Some? ==> |p.deliveryTag.value| < INT_SPACE / 4)
    ensures added.Declined? <==> !HasMandatory(p)
    ensures added.Filled? <==> Sendable(p)
    ensures added.Filled? ==> fresh(added.list) && added.list.Valid() && added.list.fields == Fields(p)
  {
    if p.handle.None? { return Declined; }
    if !Unsigned(p.handle) || !Unsigned(p.deliveryId) || !Unsigned(p.messageFormat) || p.aborted.Some? { return Corrupt; }
    hide Fields;
    var list := FillTransfer(p);
    return Filled(list);
  }

  lemma DispositionFields(p: Performative)
    requires Sendable(p) && p.Disposition?
    ensures |Fields(p)| == 6
    ensures Fields(p)[0] == Wrapped(Bool(p.role))
    ensures Fields(p)[1] == Wrapped(Uint(p.first))
    ensures Fields(p)[2] == Wrapped(Uint(p.last))
    ensures Fields(p)[3] == Wrapped(Bool(p.settled))
    ensures Fields(p)[4] == Wrapped(State(p.state))
    ensures Fields(p)[5] == Wrapped(Bool(p.batchable))
  {
    hide Wrapped, Uint, Bool, State;
  }

  method FillDisposition(p: Performative) returns (tlvList: TlvList)
    requires Sendable(p) && p.Disposition?
    ensures fresh(tlvList) && tlvList.Valid() && tlvList.fields == Fields(p)
  {
    DispositionFields(p);
    assert Unsigned(p.first) && Unsigned(p.last);
    hide Fields, Begins, Slots, Count, Present, PresentLength, Wrapped, Uint, Bool, State, Sendable, Unsigned;
    ghost var all := Fields(p);
    tlvList := new TlvList();
    BeginsAndEnds([], all);
    var f := WrapBool(p.role);
    AddNext(tlvList, f, all);
    f := WrapLong(p.first);
    AddNext(tlvList, f, all);
    f := WrapLong(p.last);
    AddNext(tlvList, f, all);
    f := WrapBool(p.settled);
    AddNext(tlvList, f, all);
    f := WrapStateField(p.state);
    AddNext(tlvList, f, all);
    f := WrapBool(p.batchable);
    AddNext(tlvList, f, all);
    BeginsAndEnds(tlvList.fields, all);
  }

  /** The DISPOSITION case of `add_arguments`. */
  method AddDisposition(p: Performative) returns (added: Added)
    requires p.Disposition?
    ensures added.Declined? <==> !HasMandatory(p)
    ensures added.Filled? <==> Sendable(p)
    ensures added.Filled? ==> fresh(added.list) && added.list.Valid() && added.list.fields == Fields(p)
  {
    if p.role.None? || p.first.None? { return Declined; }
    if !Unsigned(p.first) || !Unsigned(p.last) { return Corrupt; }
    hide Fields;
    var list := FillDisposition(p);
    return Filled(list);
  }

  method FillDetach(p: Performative) returns (tlvList: TlvList)
    requires Sendable(p) && p.Detach?
    ensures fresh(tlvList) && tlvList.Valid() && tlvList.fields == Fields(p)
  {
    hide Begins, Slots, Count, Present, PresentLength, Wrapped, Uint, Bool, Binary, Ubyte, State;
    ghost var all := Fields(p);
    tlvList := new TlvList();
    BeginsAndEnds([], all);
    var f := WrapLong(p.handle);
    AddNext(tlvList, f, all);
    f := WrapBool(p.closed);
    AddNext(tlvList, f, all);
    AddNext(tlvList, None, all);      // no error
    BeginsAndEnds(tlvList.fields, all);
  }

  /** The DETACH case of `add_arguments`. */
  method AddDetach(p: Performative) returns (added: Added)
    requires p.Detach? && !p.error
    ensures added.Declined? <==> !HasMandatory(p)
    ensures added.Filled? <==> Sendable(p)
    ensures added.Filled? ==> fresh(added.list) && added.list.Valid() && added.list.fields == Fields(p)
  {
    if p.handle.None? { return Declined; }
    if !Unsigned(p.handle) { return Corrupt; }
    hide Fields;
    var list := FillDetach(p);
    return Filled(list);
  }

  method AddArguments(p: Performative) returns (bytes: array<octet>)
    requires Encodable(p)
    ensures fresh(bytes) && bytes[..] == ArgumentBytes(p)
  {
    hide Fields, Concat, ListBytes;
    ListIsNonEmpty(p);
    var added;
    match p {
      case Transfer(_, _, _, _, _, _, _, _, _, _, _) => added := AddTransfer(p);
      case Disposition(_, _, _, _, _, _) => added := AddDisposition(p);
      case Detach(_, _, _) => added := AddDetach(p);
    }
    bytes := added.list.CalculateBytes(HeaderCode(p));
  }
}
