/** Writing into a buffer through an index, as every encoder of the program does. */
module Buffers {
  import opened Octets

  method Put(buf: array<octet>, i: nat, b: octet) returns (j: nat)
    requires i < buf.Length
    modifies buf
    ensures j == i + 1 && buf[..j] == old(buf[..i]) + [b] && buf[j..] == old(buf[j..])
  {
    buf[i] := b;
    j := i + 1;
  }

  /** `memcpy(&buf[i], s, n)`. */
  method Copy(buf: array<octet>, i: nat, s: Bytes) returns (j: nat)
    requires i + |s| <= buf.Length
    modifies buf
    ensures j == i + |s| && buf[..j] == old(buf[..i]) + s && buf[j..] == old(buf[j..])
  {
    forall k | 0 <= k < |s| {
      buf[i + k] := s[k];
    }
    j := i + |s|;
  }

  method AddShort(buf: array<octet>, i: nat, n: int) returns (j: nat)
    requires i + 2 <= buf.Length && 0 <= n < SHORT_SPACE
    modifies buf
    ensures j == i + 2 && buf[..j] == old(buf[..i]) + Short(n) && buf[j..] == old(buf[j..])
  {
    buf[i] := n / 256;
    buf[i + 1] := n % 256;
    j := i + 2;
  }

  function Reversed(s: Bytes): (r: Bytes)
    ensures |r| == |s|
    ensures forall k :: 0 <= k < |s| ==> r[k] == s[|s| - 1 - k]
  {
    seq(|s|, k requires 0 <= k < |s| => s[|s| - 1 - k])
  }

  /** `reverse`, on the whole array. */
  method Reverse(a: array<octet>)
    modifies a
    ensures a[..] == Reversed(old(a[..]))
  {
    var i, j := a.Length - 1, 0;
    while i > j
      invariant 0 <= j <= a.Length && i == a.Length - 1 - j && j <= i + 2
      invariant forall k :: 0 <= k < j ==> a[k] == old(a[a.Length - 1 - k]) && a[a.Length - 1 - k] == old(a[k])
      invariant forall k :: j <= k <= i ==> a[k] == old(a[k])
    {
      a[i], a[j] := a[j], a[i];
      i := i - 1;
      j := j + 1;
    }
  }

  /** The bytes of an `int` in the memory of a little-endian machine. */
  function LittleEndian(n: int): (r: Bytes)
    requires 0 <= n < INT_SPACE
    ensures |r| == 4
  {
    Reversed(Int(n))
  }

  /** Copying the first `width` bytes of an `int` and reversing them puts its low bytes
      in network order. */
  method NetworkOrder(n: int, width: nat) returns (bytes: array<octet>)
    requires 0 <= n < INT_SPACE && width in {1, 4}
    ensures fresh(bytes) && bytes[..] == Int(n)[4 - width..]
  {
    bytes := new octet[width](k requires 0 <= k < width => LittleEndian(n)[k]);
    assert bytes[..] == LittleEndian(n)[..width];
    Reverse(bytes);
  }
}
