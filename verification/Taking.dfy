/** Taking a message apart from its front, as a receiver that follows a standard does. */
module Taking {
  import opened Octets

  /** What is read off the front, and the rest. */
  datatype Part<+T> = Part(value: T, rest: Bytes) | Broken

  /** A number of two octets, the more significant first. */
  function TakeNumber(s: Bytes): Part<int> {
    if |s| < 2 then Broken
    else
      var high: int, low: int := s[0], s[1];
      Part(256 * high + low, s[2..])
  }

  lemma NumberTaken(n: int, rest: Bytes)
    requires IsShort(n)
    ensures TakeNumber(Short(n) + rest) == Part(n, rest)
  {
    assert (Short(n) + rest)[2..] == rest;
  }

  lemma NumberAt(buf: Bytes, i: nat, s: Bytes)
    requires At(buf, i, s) && TakeNumber(s).Part?
    ensures i + 2 <= |buf| && ShortAt(buf, i) == TakeNumber(s).value && At(buf, i + 2, TakeNumber(s).rest)
  {
    assert s == [s[0], s[1]] + s[2..];
    AtParts(buf, i, [s[0], s[1]], s[2..]);
    AtOctet(buf, i, [s[0], s[1]]);
    AtParts(buf, i, [s[0]], [s[1]]);
    AtOctet(buf, i + 1, [s[1]]);
  }
}
