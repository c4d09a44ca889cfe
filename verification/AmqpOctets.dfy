/**
 How the octets of a buffer are read, code by code: the formats of section 1.2 of part 1
 of the AMQP 1.0 standard, in which the high half of a code fixes the width of the value
 or of its size field.  Every code and width here is a number of the standard's.
 */
module AmqpOctets {
  import opened Octets
  import opened AmqpTlv

  /** Four octets in network order. */
  function Quad(buf: Bytes, i: nat): (n: nat)
    requires i + 4 <= |buf|
    ensures n < 0x1_0000_0000
  {
    var a: int, b: int, c: int, d: int := buf[i], buf[i + 1], buf[i + 2], buf[i + 3];
    ((a * 256 + b) * 256 + c) * 256 + d
  }

  /** An `int` of four octets. */
  function Signed(n: nat): int
    requires n < 0x1_0000_0000
  {
    if n < 0x8000_0000 then n else n - 0x1_0000_0000
  }

  lemma IntIsQuad(buf: Bytes, i: nat)
    requires i + 4 <= |buf|
    ensures IntAt(buf, i) == Signed(Quad(buf, i))
  {
  }

  /** The record of a value that has no constructor of its own and no children. */
  predicate Holds(t: Tlv, code: octet, data: Bytes) {
    && t.code == code && t.ctor == Some(Constructor(code, None)) && t.valueArray == Some(data)
    && t.list.None? && t.entries.None? && t.size.None? && t.count.None?
  }

  /** Ok, with the cursor at `next`. */
  predicate EndsAt(r: Decoded<Tlv>, next: nat) {
    r.Ok? && r.next == next
  }

  /** What follows a code other than zero; an element of an array is read in the same way,
      as if it had the code of the array's constructor in front. */
  lemma ElementIsValue(buf: Bytes, i: nat)
    requires i < |buf| && buf[i] != 0
    ensures TlvAt(buf, i) == match ElementAt(buf[i], buf, i + 1)
      case OutOfBounds => OutOfBounds
      case Ok(t, j) => Ok(t.(ctor := Some(Constructor(buf[i], None))), j)
  {
  }

  lemma VariableLayout(code: octet)
    ensures code in {0xA0, 0xA1, 0xA3} ==> LayoutOf(code) == Variable(false)
    ensures code in {0xB0, 0xB1, 0xB3} ==> LayoutOf(code) == Variable(true)
  {
  }

  lemma CompoundLayout(code: octet)
    ensures code == 0xC0 ==> LayoutOf(code) == List(false)
    ensures code == 0xD0 ==> LayoutOf(code) == List(true)
    ensures code == 0xC1 ==> LayoutOf(code) == Map(false)
    ensures code == 0xD1 ==> LayoutOf(code) == Map(true)
    ensures code == 0xE0 ==> LayoutOf(code) == Array(false)
    ensures code == 0xF0 ==> LayoutOf(code) == Array(true)
  {
  }

  // ---- Values without children ----

  /** true, false, uint0 and ulong0: one octet, recorded as a zero of length 0. */
  lemma Constants(buf: Bytes, i: nat)
    requires i < |buf| && buf[i] in {0x41, 0x42, 0x43, 0x44}
    ensures var r := TlvAt(buf, i);
      EndsAt(r, i + 1) && Holds(r.value, buf[i], [0]) && r.value.length == Some(0) && r.value.width.None?
  {
  }

  /** The width that the high half of a code stands for: 1, 2, 4, 8 or 16 octets. */
  function Width(code: octet): nat
    requires 0x50 <= code < 0xA0
  {
    match code / 16
    case 5 => 1
    case 6 => 2
    case 7 => 4
    case 8 => 8
    case _ => 16
  }

  predicate IsFixed(code: octet) {
    || code in {0x50, 0x51, 0x52, 0x53, 0x54, 0x55, 0x56}
    || code in {0x60, 0x61}
    || code in {0x70, 0x71, 0x72, 0x73, 0x74}
    || code in {0x80, 0x81, 0x82, 0x83, 0x84}
    || code in {0x94, 0x98}
  }

  lemma FixedLayout(code: octet)
    requires IsFixed(code)
    ensures code != 0 && LayoutOf(code) == Fixed(Width(code))
  {
  }

  lemma FixedElement(code: octet, n: nat, buf: Bytes, i: nat)
    requires LayoutOf(code) == Fixed(n) && i <= |buf|
    ensures ElementAt(code, buf, i) ==
      if i + n > |buf| then OutOfBounds else Ok(ScalarTlv(code, buf[i..i + n], FixedLength(n)), i + n)
  {
    hide LayoutOf;
  }

  /** Numbers, characters, time stamps and UUIDs: as many octets as the code says follow
      it, and they are the value. */
  lemma FixedWidths(buf: Bytes, i: nat)
    requires i < |buf| && IsFixed(buf[i])
    ensures var r, n := TlvAt(buf, i), Width(buf[i]);
      if i + 1 + n > |buf| then r.OutOfBounds?
      else
        && EndsAt(r, i + 1 + n) && Holds(r.value, buf[i], buf[i + 1..i + 1 + n]) && r.value.width.None?
        && r.value.length == (if n in {1, 4} then Some(1) else None)
  {
    FixedLayout(buf[i]);
    ElementIsValue(buf, i);
    FixedElement(buf[i], Width(buf[i]), buf, i + 1);
    hide TlvAt, ElementAt, LayoutOf, Width;
  }

  lemma VariableElement(code: octet, wide: bool, n: int, buf: Bytes, i: nat, j: nat)
    requires LayoutOf(code) == Variable(wide) && i <= |buf| && FieldAt(wide, buf, i) == Ok(n, j)
    ensures ElementAt(code, buf, i) ==
      if n < 0 || j + n > |buf| then OutOfBounds else Ok(VariableTlv(code, buf[j..j + n]), j + n)
  {
    hide LayoutOf, FieldAt;
  }

  /** Binary, strings and symbols: one octet of length, then the value. */
  lemma ShortVariable(buf: Bytes, i: nat)
    requires i < |buf| && buf[i] in {0xA0, 0xA1, 0xA3}
    ensures var r := TlvAt(buf, i);
      if i + 2 > |buf| || i + 2 + buf[i + 1] > |buf| then r.OutOfBounds?
      else
        var n := buf[i + 1];
        && EndsAt(r, i + 2 + n) && Holds(r.value, buf[i], buf[i + 2..i + 2 + n])
        && r.value.length == Some(n) && r.value.width == Some(1)
  {
    VariableLayout(buf[i]);
    ElementIsValue(buf, i);
    if i + 2 <= |buf| {
      VariableElement(buf[i], false, buf[i + 1], buf, i + 1, i + 2);
      hide TlvAt, ElementAt, LayoutOf;
    } else {
      hide TlvAt, LayoutOf;
    }
  }

  lemma LongField(buf: Bytes, i: nat)
    ensures FieldAt(true, buf, i) == if i + 4 > |buf| then OutOfBounds else Ok(Signed(Quad(buf, i)), i + 4)
  {
    if i + 4 <= |buf| { IntIsQuad(buf, i); }
    hide IntAt, Quad;
  }

  /** The same with four octets of length, read as an `int`. */
  lemma LongVariable(buf: Bytes, i: nat)
    requires i < |buf| && buf[i] in {0xB0, 0xB1, 0xB3}
    ensures var r := TlvAt(buf, i);
      if i + 5 > |buf| || Quad(buf, i + 1) >= 0x8000_0000 || i + 5 + Quad(buf, i + 1) > |buf| then r.OutOfBounds?
      else
        var n := Quad(buf, i + 1);
        && EndsAt(r, i + 5 + n) && Holds(r.value, buf[i], buf[i + 5..i + 5 + n])
        && r.value.length == Some(n) && r.value.width == Some(if n > 255 then 4 else 1)
  {
    ElementIsValue(buf, i);
    VariableLayout(buf[i]);
    LongField(buf, i + 1);
    if i + 5 <= |buf| {
      VariableElement(buf[i], true, Signed(Quad(buf, i + 1)), buf, i + 1, i + 5);
      hide FieldAt, Quad, TlvAt, ElementAt, LayoutOf;
    } else {
      hide FieldAt, TlvAt, LayoutOf;
    }
  }

  /** null, the empty list, and codes that the decoder does not know, which it passes over
      as if they had no value. */
  lemma NothingFollows(buf: Bytes, i: nat)
    requires i < |buf| && !IsFixed(buf[i])
    requires buf[i] !in {0, 0x41, 0x42, 0x43, 0x44, 0xA0, 0xA1, 0xA3, 0xB0, 0xB1, 0xB3, 0xC0, 0xC1, 0xD0, 0xD1, 0xE0, 0xF0}
    ensures var r := TlvAt(buf, i);
      && EndsAt(r, i + 1) && r.value.code == buf[i] && r.value.ctor == Some(Constructor(buf[i], None))
      && r.value.valueArray.None? && r.value.entries.None? && r.value.length.None?
      && if buf[i] == 0x45 then r.value.list == Some([]) && r.value.width == r.value.size == r.value.count == Some(0)
         else r.value.list.None? && r.value.width.None? && r.value.size.None? && r.value.count.None?
  {
  }

  // ---- Lists, maps and arrays ----

  /** Size and count, of one octet each or of four. */
  predicate Sized(buf: Bytes, i: nat, size: int, count: int, k: nat) {
    && i < |buf|
    && if buf[i] < 0xD0 || 0xE0 <= buf[i] < 0xF0 then k == i + 3 <= |buf| && size == buf[i + 1] && count == buf[i + 2]
       else k == i + 9 <= |buf| && size == Signed(Quad(buf, i + 1)) && count == Signed(Quad(buf, i + 5))
  }

  lemma CompoundElement(code: octet, buf: Bytes, i: nat, size: int, count: int, j: nat, k: nat)
    requires code in {0xC0, 0xC1, 0xD0, 0xD1, 0xE0, 0xF0} && i <= |buf|
    requires FieldAt(IsWide(code), buf, i) == Ok(size, j) && FieldAt(IsWide(code), buf, j) == Ok(count, k)
    ensures ElementAt(code, buf, i) == CompoundAt(code, size, count, buf, k)
  {
    CompoundLayout(code);
    hide LayoutOf, FieldAt, IsWide, CompoundAt;
  }

  lemma Wide(code: octet)
    requires code in {0xC0, 0xC1, 0xD0, 0xD1, 0xE0, 0xF0}
    ensures IsWide(code) <==> code in {0xD0, 0xD1, 0xF0}
  {
    CompoundLayout(code);
    hide LayoutOf;
  }

  lemma CompoundReads(buf: Bytes, i: nat, size: int, count: int, k: nat)
    requires Sized(buf, i, size, count, k) && buf[i] in {0xC0, 0xC1, 0xD0, 0xD1, 0xE0, 0xF0}
    ensures TlvAt(buf, i) == match CompoundAt(buf[i], size, count, buf, k)
      case OutOfBounds => OutOfBounds
      case Ok(t, j) => Ok(t.(ctor := Some(Constructor(buf[i], None))), j)
  {
    ElementIsValue(buf, i);
    Wide(buf[i]);
    if k == i + 9 {
      LongField(buf, i + 1);
      LongField(buf, i + 5);
      CompoundElement(buf[i], buf, i + 1, size, count, i + 5, k);
      hide FieldAt, Quad, TlvAt, ElementAt, CompoundAt, Signed, IsWide;
    } else {
      CompoundElement(buf[i], buf, i + 1, size, count, i + 2, k);
      hide TlvAt, ElementAt, CompoundAt, IsWide;
    }
  }

  lemma CompoundOverruns(buf: Bytes, i: nat)
    requires i < |buf| && buf[i] in {0xC0, 0xC1, 0xD0, 0xD1}
    requires i + (if buf[i] < 0xD0 then 3 else 9) > |buf|
    ensures TlvAt(buf, i).OutOfBounds?
  {
    ElementIsValue(buf, i);
    CompoundLayout(buf[i]);
    hide IntAt, TlvAt, CompoundAt, LayoutOf;
  }

  /** `items` are the values that stand one after another between `i` and `j`. */
  ghost predicate Follow(buf: Bytes, i: nat, items: seq<Tlv>, j: nat)
    requires i <= |buf|
    decreases |items|
  {
    if items == [] then i == j
    else
      var r := TlvAt(buf, i);
      r.Ok? && r.value == items[0] && Follow(buf, r.next, items[1..], j)
  }

  /** The number of values that a count asks for; a loop up to a negative one does nothing. */
  function Times(count: int): nat {
    if count < 0 then 0 else count
  }

  lemma {:induction false} ItemsFollow(buf: Bytes, i: nat, n: int, items: seq<Tlv>, j: nat)
    requires i <= |buf|
    ensures ItemsAt(buf, i, n) == Ok(items, j) <==> |items| == Times(n) && Follow(buf, i, items, j)
    decreases Times(n)
  {
    hide TlvAt;
    if n > 0 && TlvAt(buf, i).Ok? {
      var r := TlvAt(buf, i);
      if items != [] {
        ItemsFollow(buf, r.next, n - 1, items[1..], j);
        assert items == [items[0]] + items[1..];
      }
    }
  }

  /** A list of short form: the octet after its size is the number of values it holds. */
  lemma ShortList(buf: Bytes, i: nat, items: seq<Tlv>, j: nat)
    requires i < |buf| && buf[i] == 0xC0
    ensures var r := TlvAt(buf, i);
      if i + 3 > |buf| then r.OutOfBounds?
      else
        && (EndsAt(r, j) && r.value.list == Some(items) <==> |items| == buf[i + 2] && Follow(buf, i + 3, items, j))
        && (r.Ok? ==>
             && r.value.list.Some? && r.value.code == 0xC0 && r.value.ctor == Some(Constructor(0xC0, None))
             && r.value.width == Some(1) && r.value.size == Some(buf[i + 1]) && r.value.count == Some(buf[i + 2])
             && r.value.valueArray.None? && r.value.entries.None? && r.value.length.None?)
  {
    if i + 3 <= |buf| {
      CompoundReads(buf, i, buf[i + 1], buf[i + 2], i + 3);
      ItemsFollow(buf, i + 3, buf[i + 2], items, j);
    } else {
      CompoundOverruns(buf, i);
    }
    CompoundLayout(buf[i]);
    hide Follow, TlvAt, ItemsAt, LayoutOf;
  }

  /** A list of long form: its values are passed over, but not kept. */
  lemma LongList(buf: Bytes, i: nat, items: seq<Tlv>, j: nat)
    requires i < |buf| && buf[i] == 0xD0
    ensures var r := TlvAt(buf, i);
      if i + 9 > |buf| then r.OutOfBounds?
      else
        var count := Signed(Quad(buf, i + 5));
        && (|items| == Times(count) && Follow(buf, i + 9, items, j) ==> EndsAt(r, j))
        && (r.Ok? ==> exists read: seq<Tlv> :: |read| == Times(count) && Follow(buf, i + 9, read, r.next))
        && (r.Ok? ==>
             && r.value.list.None? && r.value.code == 0xD0 && r.value.ctor == Some(Constructor(0xD0, None))
             && r.value.width == Some(4) && r.value.size == Some(Signed(Quad(buf, i + 1))) && r.value.count == Some(count)
             && r.value.valueArray.None? && r.value.entries.None? && r.value.length.None?)
  {
    if i + 9 <= |buf| {
      var count := Signed(Quad(buf, i + 5));
      CompoundReads(buf, i, Signed(Quad(buf, i + 1)), count, i + 9);
      ItemsFollow(buf, i + 9, count, items, j);
      var read := ItemsAt(buf, i + 9, count);
      if read.Ok? { ItemsFollow(buf, i + 9, count, read.value, read.next); }
    } else {
      CompoundOverruns(buf, i);
    }
    CompoundLayout(buf[i]);
    hide Follow, Quad, IntAt, TlvAt, ItemsAt, LayoutOf;
  }

  /** `entries` are the keys and values that stand one after another from `i` on, up to the
      first end of an entry at or after `stop`, which is `j`. */
  ghost predicate FollowPairs(buf: Bytes, i: nat, entries: seq<TlvEntry>, stop: int, j: nat)
    requires i <= |buf|
    decreases |entries|
  {
    if entries == [] then i == j >= stop
    else
      var key := TlvAt(buf, i);
      && i < stop && key.Ok? && key.value == entries[0].key
      && var value := TlvAt(buf, key.next);
         value.Ok? && value.value == entries[0].value && FollowPairs(buf, value.next, entries[1..], stop, j)
  }

  lemma {:induction false} PairsFollow(buf: Bytes, i: nat, entries: seq<TlvEntry>, stop: int, room: int, j: nat)
    requires i <= |buf|
    ensures PairsAt(buf, i, stop, room) == Ok(entries, j) <==>
      |entries| <= Times(room) && FollowPairs(buf, i, entries, stop, j)
    decreases Times(room)
  {
    hide TlvAt;
    if i < stop && room > 0 && TlvAt(buf, i).Ok? {
      var key := TlvAt(buf, i);
      var value := TlvAt(buf, key.next);
      if value.Ok? && entries != [] {
        PairsFollow(buf, value.next, entries[1..], stop, room - 1, j);
        assert entries == [entries[0]] + entries[1..];
      }
    }
  }

  /** A map of short form ends where its size, counted from its count octet, says, or with
      the entry that goes past that; more entries than its count leave the array. */
  lemma ShortMap(buf: Bytes, i: nat, entries: seq<TlvEntry>, j: nat)
    requires i < |buf| && buf[i] == 0xC1
    ensures var r := TlvAt(buf, i);
      if i + 3 > |buf| then r.OutOfBounds?
      else
        && (EndsAt(r, j) && r.value.entries == Some(entries) <==>
             |entries| <= buf[i + 2] && FollowPairs(buf, i + 3, entries, i + 2 + buf[i + 1], j))
        && (r.Ok? ==>
             && r.value.entries.Some? && r.value.code == 0xC1 && r.value.ctor == Some(Constructor(0xC1, None))
             && r.value.width == Some(1) && r.value.size == Some(buf[i + 1]) && r.value.count == Some(buf[i + 2])
             && r.value.valueArray.None? && r.value.list.None? && r.value.length.None?)
  {
    if i + 3 <= |buf| {
      CompoundReads(buf, i, buf[i + 1], buf[i + 2], i + 3);
      PairsFollow(buf, i + 3, entries, i + 2 + buf[i + 1], buf[i + 2], j);
    } else {
      CompoundOverruns(buf, i);
    }
    CompoundLayout(buf[i]);
    hide FollowPairs, TlvAt, PairsAt, LayoutOf;
  }

  lemma LongMap(buf: Bytes, i: nat, entries: seq<TlvEntry>, j: nat)
    requires i < |buf| && buf[i] == 0xD1
    ensures var r := TlvAt(buf, i);
      if i + 9 > |buf| then r.OutOfBounds?
      else
        var size, count := Signed(Quad(buf, i + 1)), Signed(Quad(buf, i + 5));
        && (EndsAt(r, j) && r.value.entries == Some(entries) <==>
             |entries| <= Times(count) && FollowPairs(buf, i + 9, entries, i + 5 + size, j))
        && (r.Ok? ==>
             && r.value.entries.Some? && r.value.code == 0xD1 && r.value.ctor == Some(Constructor(0xD1, None))
             && r.value.width == Some(4) && r.value.size == Some(size) && r.value.count == Some(count)
             && r.value.valueArray.None? && r.value.list.None? && r.value.length.None?)
  {
    if i + 9 <= |buf| {
      CompoundReads(buf, i, Signed(Quad(buf, i + 1)), Signed(Quad(buf, i + 5)), i + 9);
      PairsFollow(buf, i + 9, entries, i + 5 + Signed(Quad(buf, i + 1)), Signed(Quad(buf, i + 5)), j);
    } else {
      CompoundOverruns(buf, i);
    }
    CompoundLayout(buf[i]);
    hide FollowPairs, Quad, IntAt, TlvAt, PairsAt, LayoutOf;
  }

  ghost predicate FollowElements(code: octet, buf: Bytes, i: nat, elements: seq<Tlv>, j: nat)
    requires i <= |buf|
    decreases |elements|
  {
    if elements == [] then i == j
    else
      var r := ElementAt(code, buf, i);
      r.Ok? && r.value == elements[0] && FollowElements(code, buf, r.next, elements[1..], j)
  }

  lemma {:induction false} ElementsFollow(code: octet, buf: Bytes, i: nat, n: int, elements: seq<Tlv>, j: nat)
    requires i <= |buf|
    ensures ElementsAt(code, buf, i, n) == Ok(elements, j) <==>
      |elements| == Times(n) && FollowElements(code, buf, i, elements, j)
    decreases Times(n)
  {
    hide ElementAt;
    if n > 0 && ElementAt(code, buf, i).Ok? {
      var r := ElementAt(code, buf, i);
      if elements != [] {
        ElementsFollow(code, buf, r.next, n - 1, elements[1..], j);
        assert elements == [elements[0]] + elements[1..];
      }
    }
  }

  /** An array has one constructor, after which its elements follow without codes. */
  lemma Arrays(buf: Bytes, i: nat, size: int, count: int, k: nat, elements: seq<Tlv>, j: nat)
    requires Sized(buf, i, size, count, k) && buf[i] in {0xE0, 0xF0}
    ensures var r, c := TlvAt(buf, i), ConstructorAt(buf, k);
      && (EndsAt(r, j) && r.value.list == Some(elements) <==>
           c.Ok? && |elements| == Times(count) && FollowElements(c.value.code, buf, c.next, elements, j))
      && (r.Ok? ==>
           && r.value.list.Some? && r.value.code == buf[i] && r.value.ctor == Some(Constructor(buf[i], None))
           && r.value.width == Some(1) && r.value.size == Some(size) && r.value.count == Some(count)
           && r.value.valueArray.None? && r.value.entries.None? && r.value.length.None?)
  {
    CompoundReads(buf, i, size, count, k);
    var c := ConstructorAt(buf, k);
    if c.Ok? { ElementsFollow(c.value.code, buf, c.next, count, elements, j); }
    CompoundLayout(buf[i]);
    hide FollowElements, Quad, IntAt, TlvAt, ElementsAt, ConstructorAt, LayoutOf;
  }

  // ---- Descriptors ----

  /** A zero octet opens a described value: the descriptor, then the value itself with its
      own code. */
  lemma Descriptors(buf: Bytes, i: nat)
    requires i < |buf| && buf[i] == 0
    ensures var r, d := TlvAt(buf, i), TlvAt(buf, i + 1);
      if d.OutOfBounds? || d.next == |buf| then r.OutOfBounds?
      else
        var c := Constructor(buf[d.next], Some(d.value));
        if c.code == 0 then EndsAt(r, d.next + 1) && r.value.code == 0 && r.value.ctor == Some(c)
        else
          var t := TlvAt(buf, d.next);
          if t.OutOfBounds? then r.OutOfBounds? else EndsAt(r, t.next) && r.value == t.value.(ctor := Some(c))
  {
    hide LayoutOf;
    assert LayoutOf(0).Unknown? by { Zero(); }
  }

  lemma Zero()
    ensures LayoutOf(0).Unknown?
  {
  }
}
