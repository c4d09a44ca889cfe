/**
 Packing optional fields into an AMQP list: the wrappers of wrapper.c, the list
 that `add_arguments` fills field by field, and its bytes (amqp_calc.c).
 */
module AmqpList {
  import opened Octets
  import opened AmqpTlv
  import opened Buffers

  // ---- Fields ----

  /** The value that `wrap_uint` encodes: what it was given, while that fits four octets. */
  function UintValue(n: int): (v: Value)
    requires 0 <= n
  {
    if n == 0 then Value(Plain(UINT_0), Scalar([]))
    else if n <= 255 then Value(Plain(SMALL_UINT), Scalar([n]))
    else Value(Plain(UINT), Scalar(Int(n % INT_SPACE)))
  }

  function BoolValue(b: bool): Value {
    Value(Plain(if b then BOOLEAN_TRUE else BOOLEAN_FALSE), Scalar([]))
  }

  function UbyteValue(n: octet): Value {
    Value(Plain(UBYTE), Scalar([n]))
  }

  function BinaryValue(data: Bytes): Value {
    Value(Plain(if |data| > 255 then BINARY_32 else BINARY_8), Scalar(data))
  }

  function StateValue(code: octet): Value {
    Value(Described(CodeValue(code), LIST_0), Items([]))
  }

  function CodeValue(code: octet): Value {
    Value(Plain(SMALL_ULONG), Scalar([code]))
  }

  function NullValue(): Value {
    Value(Plain(AMQP_NULL), Scalar([]))
  }

  /** The wire form of a value without children. */
  lemma ScalarForm(code: octet, data: Bytes)
    requires code != 0 && |data| < INT_SPACE / 2
    requires match LayoutOf(code)
      case Nothing => data == []
      case Constant => data == []
      case Fixed(width) => |data| == width
      case Variable(wide) => Fits(wide, |data|)
      case _ => false
    ensures var v := Value(Plain(code), Scalar(data));
      && WellFormed(v)
      && Encode(v) == [code] + (if LayoutOf(code).Variable? then Field(LayoutOf(code).wide, |data|) else []) + data
  {
    var v := Value(Plain(code), Scalar(data));
    assert WellFormedCtor(v.ctor) && WellFormedBody(code, v.body);
    assert EncodeCtor(v.ctor) == [code];
  }

  lemma StateForm(code: octet)
    ensures WellFormed(StateValue(code)) && Encode(StateValue(code)) == [0, SMALL_ULONG, code, LIST_0]
  {
    ScalarForm(SMALL_ULONG, [code]);
    var v := StateValue(code);
    assert EncodeCtor(v.ctor) == [0] + [SMALL_ULONG, code] + [LIST_0];
    assert WellFormedBody(LIST_0, v.body) && EncodeBody(LIST_0, v.body) == [];
  }

  lemma UintForm(n: int)
    requires 0 <= n
    ensures WellFormed(UintValue(n))
    ensures Encode(UintValue(n)) == if n == 0 then [UINT_0] else if n <= 255 then [SMALL_UINT, n] else [UINT] + Int(n % INT_SPACE)
  {
    if n == 0 { ScalarForm(UINT_0, []); } else if n <= 255 { ScalarForm(SMALL_UINT, [n]); } else { ScalarForm(UINT, Int(n % INT_SPACE)); }
  }

  /** `wrap_uint`, reached through `wrap_long` when the number is not negative. */
  method WrapUint(value: int) returns (bytes: array<octet>)
    requires 0 <= value
    ensures fresh(bytes) && WellFormed(UintValue(value)) && bytes[..] == Encode(UintValue(value))
  {
    UintForm(value);
    if value == 0 {
      bytes := new octet[1] [UINT_0];
    } else if value <= 255 {
      bytes := new octet[2] [SMALL_UINT, value];
    } else {
      var valueArray := NetworkOrder(value % INT_SPACE, 4);
      bytes := new octet[5];
      var i := Put(bytes, 0, UINT);
      i := Copy(bytes, i, valueArray[..]);
      assert bytes[..] == bytes[..i];
    }
  }

  /** `init_tlv_fixed`. */
  method InitTlvFixed(code: octet, valueArray: Bytes) returns (bytes: array<octet>)
    ensures fresh(bytes) && bytes[..] == [code] + valueArray
  {
    bytes := new octet[1 + |valueArray|];
    var i := Put(bytes, 0, code);
    i := Copy(bytes, i, valueArray);
    assert bytes[..] == bytes[..i];
  }

  /** What `init_tlv_variable` lays out; a length of four octets is not reversed. */
  function VariableBytes(code: octet, data: Bytes): Bytes
    requires |data| < INT_SPACE / 2
  {
    [code] + (if |data| > 255 then LittleEndian(|data|) else [|data|]) + data
  }

  method InitTlvVariable(code: octet, data: Bytes) returns (bytes: array<octet>)
    requires |data| < INT_SPACE / 2
    ensures fresh(bytes) && bytes[..] == VariableBytes(code, data)
  {
    var width := if |data| > 255 then 4 else 1;
    bytes := new octet[1 + width + |data|];
    var i := Put(bytes, 0, code);
    if width == 1 {
      i := Put(bytes, i, |data|);
    } else {
      i := Copy(bytes, i, LittleEndian(|data|));
    }
    i := Copy(bytes, i, data);
    assert bytes[..] == bytes[..i];
  }

  /** `wrap_binary` is right exactly when one octet holds the length, or when its four
      octets read the same in both directions. */
  lemma BinaryIsEncodedExactly(data: Bytes)
    requires |data| < INT_SPACE / 2
    ensures WellFormed(BinaryValue(data))
    ensures VariableBytes(BinaryValue(data).ctor.code, data) == Encode(BinaryValue(data))
      <==> |data| <= 255 || LittleEndian(|data|) == Int(|data|)
  {
    var code := BinaryValue(data).ctor.code;
    ScalarForm(code, data);
    hide Int, LittleEndian;
    if |data| > 255 {
      assert Encode(BinaryValue(data)) == [code] + Int(|data|) + data;
      assert VariableBytes(code, data)[1..5] == LittleEndian(|data|);
      assert ([code] + Int(|data|) + data)[1..5] == Int(|data|);
    } else {
      assert Encode(BinaryValue(data)) == [code] + [|data|] + data;
    }
  }

  /** `wrap_state`. */
  method WrapState(code: octet) returns (bytes: array<octet>)
    ensures fresh(bytes) && WellFormed(StateValue(code)) && bytes[..] == Encode(StateValue(code))
  {
    StateForm(code);
    bytes := new octet[4] [0, SMALL_ULONG, code, LIST_0];
  }

  // ---- The packed list ----

  function Slot(f: Option<Bytes>): Bytes {
    if f.Some? then f.value else [AMQP_NULL]
  }

  function Slots(fields: seq<Option<Bytes>>): (r: seq<Bytes>)
    ensures |r| == |fields| && forall k :: 0 <= k < |r| ==> r[k] == Slot(fields[k])
  {
    seq(|fields|, k requires 0 <= k < |fields| => Slot(fields[k]))
  }

  /** The number of fields up to the last one present. */
  function Count(fields: seq<Option<Bytes>>): (n: nat)
    ensures n <= |fields| && (n > 0 ==> fields[n - 1].Some?)
    ensures forall k :: n <= k < |fields| ==> fields[k].None?
  {
    if fields == [] then 0
    else if fields[|fields| - 1].Some? then |fields|
    else Count(fields[..|fields| - 1])
  }

  function Present(fields: seq<Option<Bytes>>): (n: nat)
  {
    if fields == [] then 0 else Present(fields[..|fields| - 1]) + if fields[|fields| - 1].Some? then 1 else 0
  }

  function PresentLength(fields: seq<Option<Bytes>>): nat {
    if fields == [] then 0
    else PresentLength(fields[..|fields| - 1]) + if fields[|fields| - 1].Some? then |fields[|fields| - 1].value| else 0
  }

  function Concat(parts: seq<Bytes>): Bytes {
    if parts == [] then [] else Concat(parts[..|parts| - 1]) + parts[|parts| - 1]
  }

  /** The elements that are sent: nulls fill the gaps and nothing follows the last field. */
  function Packed(fields: seq<Option<Bytes>>): seq<Bytes> {
    Slots(fields)[..Count(fields)]
  }

  /** For every pattern of fields the computed size is the length of what is sent. */
  lemma {:induction false} SizeIsLength(fields: seq<Option<Bytes>>)
    ensures |Concat(Packed(fields))| == PresentLength(fields) + Count(fields) - Present(fields)
    decreases |fields|
  {
    if fields == [] {
    } else {
      var init, last := fields[..|fields| - 1], fields[|fields| - 1];
      assert Slots(fields)[..|fields| - 1] == Slots(init);
      if last.Some? {
        AllSlotsLength(init);
        assert Packed(fields) == Slots(fields) && Slots(fields)[..|fields| - 1] == Slots(init);
      } else {
        SizeIsLength(init);
        assert Packed(fields) == Packed(init);
      }
    }
  }

  lemma {:induction false} AllSlotsLength(fields: seq<Option<Bytes>>)
    ensures |Concat(Slots(fields))| == PresentLength(fields) + |fields| - Present(fields)
    decreases |fields|
  {
    if fields == [] {
    } else {
      AllSlotsLength(fields[..|fields| - 1]);
      assert Slots(fields)[..|fields| - 1] == Slots(fields[..|fields| - 1]);
    }
  }

  /** What `get_bytes` produces for a list whose size is at most 255: note that the size
      octet counts the elements only, not the count octet. */
  function List8Bytes(code: octet, parts: seq<Bytes>): Bytes
    requires 0 < |Concat(parts)| <= 255 && |parts| <= 255
  {
    [0, SMALL_ULONG, code, LIST_8, |Concat(parts)|, |parts|] + Concat(parts)
  }

  /** The size field of a LIST_32 is one less than section 1.6.22 asks for, too. */
  function List32Bytes(code: octet, parts: seq<Bytes>): Bytes
    requires |Concat(parts)| + 3 < INT_SPACE && |parts| < INT_SPACE
  {
    [0, SMALL_ULONG, code, LIST_32] + Int(|Concat(parts)| + 3) + Int(|parts|) + Concat(parts)
  }

  function ListBytes(code: octet, parts: seq<Bytes>): Bytes
    requires 0 < |Concat(parts)| < INT_SPACE - 3 && |parts| <= 255
  {
    if |Concat(parts)| <= 255 then List8Bytes(code, parts) else List32Bytes(code, parts)
  }

  /** The low octet of a number in network order, and all four. */
  lemma NetworkFields(n: nat)
    requires n < INT_SPACE
    ensures Int(n)[0..] == Int(n)
    ensures n <= 255 ==> Int(n)[3..] == [n]
  {
  }

  lemma List8Parts(code: octet, parts: seq<Bytes>, n: nat)
    requires n == |Concat(parts)| && 0 < n <= 255 && |parts| <= 255
    ensures ListBytes(code, parts) == [0, SMALL_ULONG, code, LIST_8] + Int(n)[3..] + Int(|parts|)[3..] + Concat(parts)
  {
    NetworkFields(n);
    NetworkFields(|parts|);
    hide Int, Concat;
    assert [0, SMALL_ULONG, code, LIST_8] + [n] + [|parts|] == [0, SMALL_ULONG, code, LIST_8, n, |parts|];
  }

  lemma List32Parts(code: octet, parts: seq<Bytes>, n: nat)
    requires n == |Concat(parts)| && 255 < n < INT_SPACE - 3 && |parts| <= 255
    ensures ListBytes(code, parts) == [0, SMALL_ULONG, code, LIST_32] + Int(n + 3)[0..] + Int(|parts|)[0..] + Concat(parts)
  {
    NetworkFields(n + 3);
    NetworkFields(|parts|);
    hide Int, Concat;
  }

  class TlvList {
    var list: seq<Bytes>        // the bytes of the elements, list[0..list_index)
    var count: nat
    var countNotNull: nat
    var size: nat
    var width: nat
    ghost var fields: seq<Option<Bytes>>

    ghost predicate Valid()
      reads this
    {
      && list == Slots(fields)
      && count == Count(fields)
      && countNotNull == Present(fields)
      && size == PresentLength(fields)
      && width == 1
    }

    constructor ()
      ensures Valid() && fields == []
    {
      list, count, countNotNull, size, width := [], 0, 0, 0, 1;
      fields := [];
    }

    /** The block that `add_arguments` repeats for each field. */
    method Add(field: Option<Bytes>)
      requires Valid()
      modifies this
      ensures Valid() && fields == old(fields) + [field]
    {
      fields := fields + [field];
      assert fields[..|fields| - 1] == old(fields);
      if field.Some? {
        countNotNull := countNotNull + 1;
        count := |list| + 1;
        size := size + |field.value|;
        list := list + [field.value];
      } else {
        list := list + [[AMQP_NULL]];
      }
    }

    /** `calculate_bytes`, which closes the list. */
    method CalculateBytes(headerCode: octet) returns (bytes: array<octet>)
      requires Valid() && |Packed(fields)| <= 255
      requires 0 < |Concat(Packed(fields))| < INT_SPACE - 3
      modifies this
      ensures fields == old(fields)
      ensures fresh(bytes) && bytes[..] == ListBytes(headerCode, Packed(fields))
    {
      SizeIsLength(fields);
      size := size + (count - countNotNull);
      var code := LIST_8;
      if size > 255 {
        code := LIST_32;
        width := 4;
        size := size + 3;
      }
      hide Int, Concat, ListBytes;
      if size <= 255 && width == 1 {
        List8Parts(headerCode, Packed(fields), size);
      } else {
        List32Parts(headerCode, Packed(fields), size - 3);
      }
      bytes := GetBytes([0, SMALL_ULONG, headerCode, code]);
    }

    /** `get_bytes`: constructor, size, count and the first `count` elements. */
    method GetBytes(constructorBytes: Bytes) returns (bytes: array<octet>)
      requires 0 <= size < INT_SPACE && count < INT_SPACE && width in {1, 4} && count <= |list|
      ensures fresh(bytes)
      ensures bytes[..] == constructorBytes + Int(size)[4 - width..] + Int(count)[4 - width..] + Concat(list[..count])
    {
      hide Int, Concat;
      var sizeArray := NetworkOrder(size, width);
      var countArray := NetworkOrder(count, width);
      var sizeBytes, countBytes := sizeArray[..], countArray[..];
      var values := Values();
      bytes := new octet[|constructorBytes| + 2 * width + |values|];
      var pos := Copy(bytes, 0, constructorBytes);
      pos := Copy(bytes, pos, sizeBytes);
      pos := Copy(bytes, pos, countBytes);
      pos := Copy(bytes, pos, values);
      assert bytes[..] == bytes[..pos];
    }

    method Values() returns (values: Bytes)
      requires count <= |list|
      ensures values == Concat(list[..count])
    {
      values := [];
      for i := 0 to count
        invariant values == Concat(list[..i])
      {
        assert list[..i + 1][..i] == list[..i];
        values := values + list[i];
      }
    }
  }
}
