/** base64_parser.c (section 4 of RFC 4648). */
module Base64 {
  import opened Octets

  const PAD: octet := 61

  /** `encoding_table`: A-Z, a-z, 0-9, plus and slash. */
  function Letter(n: int): (c: octet)
    requires 0 <= n < 64
    ensures c != PAD
  {
    if n < 26 then 65 + n
    else if n < 52 then 97 + (n - 26)
    else if n < 62 then 48 + (n - 52)
    else if n == 62 then 43
    else 47
  }

  lemma LettersDiffer(m: int, n: int)
    requires 0 <= m < 64 && 0 <= n < 64 && Letter(m) == Letter(n)
    ensures m == n
  {
  }

  // ---- Encoding ----

  /** Octet `k` of the input, or zero past its end. */
  function OctetOf(data: Bytes, k: nat): int {
    if k < |data| then data[k] else 0
  }

  function Triple(data: Bytes, group: nat): (t: int)
    ensures 0 <= t < 0x100_0000
  {
    OctetOf(data, 3 * group) * 0x1_0000 + OctetOf(data, 3 * group + 1) * 0x100 + OctetOf(data, 3 * group + 2)
  }

  /** The `r`-th six bits of a triple. */
  function Sextet(t: int, r: nat): (s: int)
    requires 0 <= t < 0x100_0000 && r < 4
    ensures 0 <= s < 64
  {
    match r
    case 0 => t / 0x4_0000
    case 1 => t / 0x1000 % 64
    case 2 => t / 64 % 64
    case _ => t % 64
  }

  function EncodedLength(n: nat): nat {
    4 * ((n + 2) / 3)
  }

  /** `mod_table`. */
  function Padding(n: nat): (p: nat)
    ensures p <= 2
  {
    match n % 3
    case 0 => 0
    case 1 => 2
    case _ => 1
  }

  function LetterOf(data: Bytes, m: nat): octet {
    Letter(Sextet(Triple(data, m / 4), m % 4))
  }

  function Encode(data: Bytes): (r: Bytes)
    ensures |r| == EncodedLength(|data|)
  {
    var length := EncodedLength(|data|);
    seq(length, m requires 0 <= m < length => if m < length - Padding(|data|) then LetterOf(data, m) else PAD)
  }

  method Base64Encode(data: Bytes) returns (encoded: array<octet>)
    ensures fresh(encoded) && encoded[..] == Encode(data)
  {
    hide Letter, Sextet;
    var outputLength := EncodedLength(|data|);
    encoded := new octet[outputLength];
    var i, j := 0, 0;
    ghost var group := 0;
    while i < |data|
      invariant j == 4 * group <= outputLength && (i == 3 * group || i == |data|) && i <= |data| <= 3 * group + (|data| - i)
      invariant i == |data| ==> j == outputLength
      invariant forall m :: 0 <= m < j ==> encoded[m] == LetterOf(data, m)
    {
      var a: int := data[i];
      i := i + 1;
      var b: int := if i < |data| then data[i] else 0;
      if i < |data| { i := i + 1; }
      var c: int := if i < |data| then data[i] else 0;
      if i < |data| { i := i + 1; }
      var triple := a * 0x1_0000 + b * 0x100 + c;
      assert triple == Triple(data, group);
      encoded[j] := Letter(Sextet(triple, 0));
      encoded[j + 1] := Letter(Sextet(triple, 1));
      encoded[j + 2] := Letter(Sextet(triple, 2));
      encoded[j + 3] := Letter(Sextet(triple, 3));
      assert (j + 1) / 4 == group && (j + 2) / 4 == group && (j + 3) / 4 == group;
      j := j + 4;
      group := group + 1;
    }
    for k := 0 to Padding(|data|)
      invariant forall m :: 0 <= m < outputLength - k ==> encoded[m] == LetterOf(data, m)
      invariant forall m :: outputLength - k <= m < outputLength ==> encoded[m] == PAD
    {
      encoded[outputLength - 1 - k] := PAD;
    }
  }

  // ---- Decoding ----

  /** The letters are mapped back; nothing is said of the other entries. */
  predicate IsDecodingTable(table: Bytes) {
    |table| == 256 && forall n :: 0 <= n < 64 ==> table[Letter(n)] == n
  }

  /** `build_decoding_table`. */
  method BuildDecodingTable() returns (table: array<octet>)
    ensures fresh(table) && IsDecodingTable(table[..])
  {
    table := new octet[256];
    for i := 0 to 64
      invariant forall n :: 0 <= n < i ==> table[Letter(n)] == n
    {
      forall n | 0 <= n < i ensures Letter(n) != Letter(i) {
        if Letter(n) == Letter(i) { LettersDiffer(n, i); }
      }
      table[Letter(i)] := i;
    }
  }

  function ValueOf(table: Bytes, c: octet): int
    requires |table| == 256
  {
    if c == PAD then 0 else table[c]
  }

  /** The 32 bits put together from four letters. */
  function Quadruple(table: Bytes, s: Bytes, group: nat): (t: int)
    requires |table| == 256 && 4 * group + 4 <= |s|
    ensures 0 <= t
  {
    ValueOf(table, s[4 * group]) * 0x4_0000 + ValueOf(table, s[4 * group + 1]) * 0x1000
    + ValueOf(table, s[4 * group + 2]) * 64 + ValueOf(table, s[4 * group + 3])
  }

  lemma QuadrupleIs(table: Bytes, s: Bytes, group: nat)
    requires |table| == 256 && 4 * group + 4 <= |s|
    ensures Quadruple(table, s, group)
      == ValueOf(table, s[4 * group]) * 0x4_0000 + ValueOf(table, s[4 * group + 1]) * 0x1000
         + ValueOf(table, s[4 * group + 2]) * 64 + ValueOf(table, s[4 * group + 3])
  {
  }

  function ByteOf(t: int, r: nat): (b: octet)
    requires 0 <= t && r < 3
  {
    match r
    case 0 => t / 0x1_0000 % 256
    case 1 => t / 0x100 % 256
    case _ => t % 256
  }

  /** Octet `k` of what `s` stands for. */
  function DecodedByte(table: Bytes, s: Bytes, k: nat): octet
    requires |table| == 256 && 4 * (k / 3) + 4 <= |s|
  {
    ByteOf(Quadruple(table, s, k / 3), k % 3)
  }

  function DecodedLength(s: Bytes): int
    requires |s| >= 4
  {
    |s| / 4 * 3 - (if s[|s| - 1] == PAD then 1 else 0) - (if s[|s| - 2] == PAD then 1 else 0)
  }

  /** None is the NULL result; `s` is not empty, as two octets before its end are read. */
  function Decode(table: Bytes, s: Bytes): Option<Bytes>
    requires |table| == 256 && s != []
  {
    if |s| % 4 != 0 then None
    else
      var length := DecodedLength(s);
      Some(seq(length, k requires 0 <= k < length => DecodedByte(table, s, k)))
  }

  datatype Outcome =
    | Decoded(data: Bytes)
    | BadLength                       // a NULL result
    | OutOfBounds                     // reads outside the buffer

  /** `base64_decode`; of the empty string it reads the octets in front. */
  method Base64Decode(table: Bytes, s: Bytes) returns (r: Outcome)
    requires |table| == 256
    ensures s == [] <==> r == OutOfBounds
    ensures s != [] ==> r == match Decode(table, s) case None => BadLength case Some(data) => Decoded(data)
  {
    hide ByteOf, Quadruple, ValueOf;
    if |s| % 4 != 0 { return BadLength; }
    var outputLength := |s| / 4 * 3;
    if s == [] { return OutOfBounds; }
    if s[|s| - 1] == PAD { outputLength := outputLength - 1; }
    if s[|s| - 2] == PAD { outputLength := outputLength - 1; }
    var decodedData := new octet[outputLength + 1];
    var i, j := 0, 0;
    ghost var group := 0;
    while i < |s|
      invariant i == 4 * group <= |s| && j <= outputLength && (j == 3 * group || j == outputLength) && j <= 3 * group
      invariant i == |s| ==> j == outputLength
      invariant forall k :: 0 <= k < j ==> decodedData[k] == DecodedByte(table, s, k)
    {
      var a := ValueOf(table, s[i]);
      var b := ValueOf(table, s[i + 1]);
      var c := ValueOf(table, s[i + 2]);
      var d := ValueOf(table, s[i + 3]);
      i := i + 4;
      var triple := a * 0x4_0000 + b * 0x1000 + c * 64 + d;
      QuadrupleIs(table, s, group);
      assert (3 * group + 1) / 3 == group && (3 * group + 2) / 3 == group;
      if j < outputLength { decodedData[j] := ByteOf(triple, 0); j := j + 1; }
      if j < outputLength { decodedData[j] := ByteOf(triple, 1); j := j + 1; }
      if j < outputLength { decodedData[j] := ByteOf(triple, 2); j := j + 1; }
      group := group + 1;
    }
    assert decodedData[..outputLength] == Decode(table, s).value;
    return Decoded(decodedData[..outputLength]);
  }

  // ---- Round trip ----

  /** Padding stands at the end only, zero, one or two signs of it. */
  lemma PaddingIsLast(data: Bytes, m: nat)
    requires m < EncodedLength(|data|)
    ensures Encode(data)[m] == PAD <==> m >= EncodedLength(|data|) - Padding(|data|)
  {
  }

  lemma SextetsJoin(t: int)
    requires 0 <= t < 0x100_0000
    ensures t == Sextet(t, 0) * 0x4_0000 + Sextet(t, 1) * 0x1000 + Sextet(t, 2) * 64 + Sextet(t, 3)
  {
    var t1 := t / 64;
    var t2 := t1 / 64;
    assert t / 0x1000 == t2 && t / 0x4_0000 == t2 / 64;
    assert t == 64 * t1 + t % 64 && t1 == 64 * t2 + t1 % 64 && t2 == 64 * (t2 / 64) + t2 % 64;
  }

  lemma BytesSplit(a: octet, b: octet, c: octet)
    ensures var t := a * 0x1_0000 + b * 0x100 + c; ByteOf(t, 0) == a && ByteOf(t, 1) == b && ByteOf(t, 2) == c
  {
  }

  lemma PaddedPosition(n: nat, m: nat)
    requires EncodedLength(n) - Padding(n) <= m < EncodedLength(n)
    ensures m % 4 == 3 || m % 4 == 2
    ensures n == 3 * (m / 4) + 1 || (n == 3 * (m / 4) + 2 && m % 4 == 3)
  {
  }

  /** Where the padding stands the bits are zero, as the decoder takes them to be. */
  lemma PaddedBitsAreZero(data: Bytes, m: nat)
    requires EncodedLength(|data|) - Padding(|data|) <= m < EncodedLength(|data|)
    ensures Sextet(Triple(data, m / 4), m % 4) == 0
  {
    PaddedPosition(|data|, m);
    var group, r := m / 4, m % 4;
    hide EncodedLength, Padding, Sextet;
    ZeroBits(OctetOf(data, 3 * group), OctetOf(data, 3 * group + 1));
    assert Sextet(Triple(data, group), r) == 0;
  }

  lemma ZeroBits(a: octet, b: octet)
    ensures Sextet(a * 0x1_0000 + b * 0x100, 3) == 0 && Sextet(a * 0x1_0000, 2) == 0
  {
    assert a * 0x1_0000 + b * 0x100 == 64 * (a * 0x400 + b * 4);
    assert a * 0x1_0000 / 64 == a * 0x400 == 64 * (a * 16);
  }

  lemma ValueComesBack(table: Bytes, data: Bytes, m: nat)
    requires IsDecodingTable(table) && m < EncodedLength(|data|)
    ensures ValueOf(table, Encode(data)[m]) == Sextet(Triple(data, m / 4), m % 4)
  {
    hide Letter, Sextet, Triple;
    if m >= EncodedLength(|data|) - Padding(|data|) { PaddedBitsAreZero(data, m); }
  }

  lemma GroupPositions(n: nat, group: nat)
    requires 3 * group < n
    ensures 4 * group + 4 <= EncodedLength(n)
    ensures 4 * group / 4 == group && (4 * group + 1) / 4 == group && (4 * group + 2) / 4 == group && (4 * group + 3) / 4 == group
    ensures 4 * group % 4 == 0 && (4 * group + 1) % 4 == 1 && (4 * group + 2) % 4 == 2 && (4 * group + 3) % 4 == 3
  {
  }

  lemma GroupComesBack(table: Bytes, data: Bytes, group: nat)
    requires IsDecodingTable(table) && 3 * group < |data|
    ensures 4 * group + 4 <= EncodedLength(|data|)
    ensures Quadruple(table, Encode(data), group) == Triple(data, group)
  {
    hide Sextet, Triple, Encode, ValueOf, EncodedLength;
    var m := 4 * group;
    GroupPositions(|data|, group);
    ValueComesBack(table, data, m);
    ValueComesBack(table, data, m + 1);
    ValueComesBack(table, data, m + 2);
    ValueComesBack(table, data, m + 3);
    hide IsDecodingTable;
    SextetsJoin(Triple(data, group));
  }

  lemma Lengths(n: nat)
    requires n > 0
    ensures EncodedLength(n) >= 4 && EncodedLength(n) % 4 == 0
    ensures EncodedLength(n) / 4 * 3 == n + Padding(n)
  {
  }

  lemma LengthComesBack(data: Bytes)
    requires data != []
    ensures |Encode(data)| == 4 * ((|data| + 2) / 3) && DecodedLength(Encode(data)) == |data|
  {
    var length := EncodedLength(|data|);
    Lengths(|data|);
    assert length == 4 * ((|data| + 2) / 3);
    hide Encode, LetterOf, EncodedLength, Padding;
    PaddingIsLast(data, length - 1);
    PaddingIsLast(data, length - 2);
  }

  /** Decoding an encoded sequence of at least one octet gives it back. */
  lemma Base64RoundTrip(table: Bytes, data: Bytes)
    requires IsDecodingTable(table) && data != []
    ensures Decode(table, Encode(data)) == Some(data)
  {
    hide Encode, DecodedByte, IsDecodingTable, DecodedLength, EncodedLength;
    var s := Encode(data);
    LengthComesBack(data);
    TableIsFull(table);
    forall k | 0 <= k < |data| ensures 4 * (k / 3) + 4 <= |s| && DecodedByte(table, s, k) == data[k] {
      ByteComesBack(table, data, k);
    }
    var decoded := Decode(table, s);
    assert decoded.Some? && |decoded.value| == |data|;
    assert decoded.value == data;
  }

  lemma TableIsFull(table: Bytes)
    requires IsDecodingTable(table)
    ensures |table| == 256
  {
  }

  lemma ByteComesBack(table: Bytes, data: Bytes, k: nat)
    requires IsDecodingTable(table) && k < |data|
    ensures 4 * (k / 3) + 4 <= |Encode(data)| && DecodedByte(table, Encode(data), k) == data[k]
  {
    hide Encode, Quadruple, IsDecodingTable, EncodedLength;
    GroupComesBack(table, data, k / 3);
    OctetsSplit(data, k);
  }

  lemma OctetsSplit(data: Bytes, k: nat)
    requires k < |data|
    ensures ByteOf(Triple(data, k / 3), k % 3) == data[k]
  {
    var group := k / 3;
    var a, b, c := OctetOf(data, 3 * group), OctetOf(data, 3 * group + 1), OctetOf(data, 3 * group + 2);
    BytesSplit(a, b, c);
    hide ByteOf;
    assert k == 3 * group + k % 3;
    assert k % 3 == 0 || k % 3 == 1 || k % 3 == 2;
  }

  // ---- The alphabet of the standard ----

  const UPPER := "ABCDEFGHIJKLMNOPQRSTUVWXYZ"
  const LOWER := "abcdefghijklmnopqrstuvwxyz"
  const DIGITS := "0123456789"
  const ALPHABET := UPPER + LOWER + DIGITS + "+/"

  lemma CapitalsAre(n: int)
    requires 0 <= n < 26
    ensures |UPPER| == |LOWER| == 26 && UPPER[n] as int == 65 + n && LOWER[n] as int == 97 + n
  {
    assert n == 0 || n == 1 || n == 2 || n == 3 || n == 4 || n == 5 || n == 6 || n == 7 || n == 8 || n == 9 ||
      n == 10 || n == 11 || n == 12 || n == 13 || n == 14 || n == 15 || n == 16 || n == 17 || n == 18 ||
      n == 19 || n == 20 || n == 21 || n == 22 || n == 23 || n == 24 || n == 25;
  }

  lemma DigitsAre(n: int)
    requires 0 <= n < 10
    ensures |DIGITS| == 10 && DIGITS[n] as int == 48 + n
  {
    assert n == 0 || n == 1 || n == 2 || n == 3 || n == 4 || n == 5 || n == 6 || n == 7 || n == 8 || n == 9;
  }

  /** Table 1 of RFC 4648. */
  lemma LettersAre(n: int)
    requires 0 <= n < 64
    ensures |ALPHABET| == 64 && ALPHABET[n] as int == Letter(n)
  {
    CapitalsAre(if n < 26 then n else if n < 52 then n - 26 else 0);
    DigitsAre(if 52 <= n < 62 then n - 52 else 0);
    PieceOf(UPPER, LOWER, DIGITS, "+/", n);
  }

  lemma PieceOf(a: string, b: string, c: string, d: string, n: int)
    requires |a| == |b| == 26 && |c| == 10 && |d| == 2 && 0 <= n < 64
    ensures (a + b + c + d)[n] == if n < 26 then a[n] else if n < 52 then b[n - 26] else if n < 62 then c[n - 52] else d[n - 62]
  {
  }

  /** Four letters are the digits, to the base 64 and the most significant first, of the
      number that the octets of their group make up, zeros standing for those missing; in
      the last group a sign of padding stands for each digit that no octet reaches. */
  lemma GroupSpells(data: Bytes, group: nat)
    requires 3 * group < |data|
    ensures var n, e, t := |data| - 3 * group, Encode(data), Triple(data, group);
      && 4 * group + 4 <= |e|
      && (forall r :: 0 <= r < 4 ==>
           e[4 * group + r] == if n <= 2 && r > n then 61 else ALPHABET[Digit64(t, r)] as int)
      && t == (OctetOf(data, 3 * group) * 256 + OctetOf(data, 3 * group + 1)) * 256 + OctetOf(data, 3 * group + 2)
  {
    GroupPositions(|data|, group);
    forall r | 0 <= r < 4
      ensures Encode(data)[4 * group + r] == if |data| - 3 * group <= 2 && r > |data| - 3 * group then 61
                                             else ALPHABET[Digit64(Triple(data, group), r)] as int
    {
      LetterAt(data, group, r);
    }
    hide Encode, Digit64;
  }

  /** A digit of a number below 64 to the fourth power. */
  function Digit64(t: int, r: nat): (d: int)
    requires 0 <= t < 0x100_0000 && r < 4
    ensures 0 <= d < 64
  {
    if r == 3 then t % 64 else if r == 2 then t / 64 % 64 else if r == 1 then t / 64 / 64 % 64 else t / 64 / 64 / 64
  }

  lemma LetterAt(data: Bytes, group: nat, r: nat)
    requires 3 * group < |data| && r < 4
    ensures |Encode(data)| >= 4 * group + 4
    ensures Encode(data)[4 * group + r] ==
      if |data| - 3 * group <= 2 && r > |data| - 3 * group then 61 else ALPHABET[Digit64(Triple(data, group), r)] as int
  {
    GroupPositions(|data|, group);
    SextetIsDigit(Triple(data, group), r);
    LettersAre(Digit64(Triple(data, group), r));
    PaddedLast(|data|, group, r);
    hide Letter, Sextet, Digit64, Triple, EncodedLength, Padding;
    assert (4 * group + r) / 4 == group && (4 * group + r) % 4 == r;
  }

  lemma SextetIsDigit(t: int, r: nat)
    requires 0 <= t < 0x100_0000 && r < 4
    ensures Sextet(t, r) == Digit64(t, r)
  {
    assert t / 0x1000 == t / 64 / 64 && t / 0x4_0000 == t / 64 / 64 / 64;
  }

  lemma PaddedLast(n: nat, group: nat, r: nat)
    requires 3 * group < n && r < 4
    ensures 4 * group + r >= EncodedLength(n) - Padding(n) <==> n - 3 * group <= 2 && r > n - 3 * group
  {
  }
}
