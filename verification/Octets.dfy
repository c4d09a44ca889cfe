/** Octets, the `char` of every buffer of the program, and numbers in network order. */
module Octets {
  type octet = x: int | 0 <= x < 256

  type Bytes = seq<octet>

  const SHORT_SPACE := 0x1_0000
  const INT_SPACE := 0x1_0000_0000

  datatype Option<+T> = None | Some(value: T)

  /** `add_short`. */
  function Short(n: int): (r: Bytes)
    requires 0 <= n < SHORT_SPACE
    ensures |r| == 2
  {
    [n / 256, n % 256]
  }

  /** `get_short`, as it is declared: unsigned. */
  function ShortAt(buf: Bytes, i: nat): (n: int)
    requires i + 2 <= |buf|
    ensures 0 <= n < SHORT_SPACE
  {
    var high: int, low: int := buf[i], buf[i + 1];
    high * 256 + low
  }

  /** `add_int` for a number that an `int` holds. */
  function Int(n: int): (r: Bytes)
    requires 0 <= n < INT_SPACE
    ensures |r| == 4
  {
    var m := n / 256;
    var k := m / 256;
    [k / 256, k % 256, m % 256, n % 256]
  }

  /** `get_int_advanced`: big-endian and signed. */
  function IntAt(buf: Bytes, i: nat): (n: int)
    requires i + 4 <= |buf|
    ensures -INT_SPACE / 2 <= n < INT_SPACE / 2
  {
    var a: int, b: int, c: int, d: int := buf[i], buf[i + 1], buf[i + 2], buf[i + 3];
    var u := a * 0x100_0000 + b * 0x1_0000 + c * 256 + d;
    if u < INT_SPACE / 2 then u else u - INT_SPACE
  }

  predicate IsShort(n: int) {
    0 <= n < SHORT_SPACE
  }

  /** A number that goes through an `unsigned short`. */
  function Low(n: nat): (r: nat)
    ensures r < SHORT_SPACE && if n < SHORT_SPACE then r == n else r <= n - SHORT_SPACE
  {
    n % SHORT_SPACE
  }

  /** What is copied of a string whose length goes through an `unsigned short`. */
  function Cut(s: Bytes): (r: Bytes)
    ensures |r| == Low(|s|) && (|s| < SHORT_SPACE ==> r == s)
  {
    s[..Low(|s|)]
  }

  /** A flag of a flags octet. */
  function Bit(b: bool, weight: nat): nat {
    if b then weight else 0
  }

  lemma Join(front: Bytes, done: Bytes, next: Bytes)
    ensures front + done + next == front + (done + next)
  {
  }

  /** `s` stands in `buf` at `i`. */
  predicate At(buf: Bytes, i: nat, s: Bytes) {
    i + |s| <= |buf| && buf[i..i + |s|] == s
  }

  lemma AtParts(buf: Bytes, i: nat, s: Bytes, t: Bytes)
    requires At(buf, i, s + t)
    ensures At(buf, i, s) && At(buf, i + |s|, t)
  {
    assert buf[i..i + |s|] == buf[i..i + |s + t|][..|s|];
    assert buf[i + |s|..i + |s + t|] == buf[i..i + |s + t|][|s|..];
  }

  lemma AtOctet(buf: Bytes, i: nat, s: Bytes)
    requires At(buf, i, s) && s != []
    ensures buf[i] == s[0]
  {
    assert buf[i..i + |s|][0] == s[0];
  }

  lemma ShortRoundTrip(buf: Bytes, i: nat, n: int)
    requires 0 <= n < SHORT_SPACE && At(buf, i, Short(n))
    ensures ShortAt(buf, i) == n
  {
    var s := buf[i..i + 2];
    assert s[0] == buf[i] && s[1] == buf[i + 1];
  }

  lemma IntRoundTrip(buf: Bytes, i: nat, n: int)
    requires 0 <= n < INT_SPACE / 2 && At(buf, i, Int(n))
    ensures IntAt(buf, i) == n
  {
    var s := buf[i..i + 4];
    assert s[0] == buf[i] && s[1] == buf[i + 1] && s[2] == buf[i + 2] && s[3] == buf[i + 3];
  }
}
