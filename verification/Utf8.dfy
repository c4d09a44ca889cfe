/** `utf8_check` of helpers.c, against the syntax of section 4 of RFC 3629. */
module Utf8 {
  import opened Octets

  // ---- The standard ----

  predicate IsTail(b: octet) {
    0x80 <= b <= 0xBF
  }

  /** The productions UTF8-1 to UTF8-4. */
  predicate IsCharacter(c: Bytes) {
    || (|c| == 1 && c[0] <= 0x7F)
    || (|c| == 2 && 0xC2 <= c[0] <= 0xDF && IsTail(c[1]))
    || (|c| == 3 && IsTail(c[2])
        && (|| (c[0] == 0xE0 && 0xA0 <= c[1] <= 0xBF)
            || (0xE1 <= c[0] <= 0xEC && IsTail(c[1]))
            || (c[0] == 0xED && 0x80 <= c[1] <= 0x9F)
            || (0xEE <= c[0] <= 0xEF && IsTail(c[1]))))
    || (|c| == 4 && IsTail(c[2]) && IsTail(c[3])
        && (|| (c[0] == 0xF0 && 0x90 <= c[1] <= 0xBF)
            || (0xF1 <= c[0] <= 0xF3 && IsTail(c[1]))
            || (c[0] == 0xF4 && 0x80 <= c[1] <= 0x8F)))
  }

  /** U+FFFE and U+FFFF are characters of the syntax that are not accepted. */
  predicate IsAccepted(c: Bytes) {
    IsCharacter(c) && c != [0xEF, 0xBF, 0xBE] && c != [0xEF, 0xBF, 0xBF]
  }

  function Flat(cs: seq<Bytes>): Bytes {
    if cs == [] then [] else cs[0] + Flat(cs[1..])
  }

  predicate AllAccepted(cs: seq<Bytes>) {
    forall k :: 0 <= k < |cs| ==> IsAccepted(cs[k])
  }

  /** `s` is a sequence of accepted characters. */
  ghost predicate IsText(s: Bytes) {
    exists cs: seq<Bytes> :: AllAccepted(cs) && Flat(cs) == s
  }

  // ---- Where the first bad character starts ----

  /** The size that the first octet announces; 0 for one that starts no character. */
  function SizeOf(b: octet): nat {
    if b <= 0x7F then 1
    else if 0xC2 <= b <= 0xDF then 2
    else if 0xE0 <= b <= 0xEF then 3
    else if 0xF0 <= b <= 0xF4 then 4
    else 0
  }

  lemma SizeIsAnnounced(c: Bytes)
    requires IsCharacter(c)
    ensures c != [] && |c| == SizeOf(c[0]) > 0
  {
  }

  /** The size of the accepted character at `i`, or 0. */
  function SizeAt(s: Bytes, i: nat): (n: nat)
    requires i < |s|
    ensures i + n <= |s|
  {
    var n := SizeOf(s[i]);
    if i + n <= |s| && IsAccepted(s[i..i + n]) then n else 0
  }

  function FirstBad(s: Bytes, i: nat): (r: Option<nat>)
    requires i <= |s|
    ensures r.Some? ==> i <= r.value < |s|
    decreases |s| - i
  {
    if i == |s| then None
    else if SizeAt(s, i) == 0 then Some(i)
    else FirstBad(s, i + SizeAt(s, i))
  }

  /** No accepted character starts at `i`. */
  lemma NoneStarts(s: Bytes, i: nat, n: nat)
    requires i < |s| && SizeAt(s, i) == 0 && i + n <= |s|
    ensures !IsAccepted(s[i..i + n])
  {
    if IsAccepted(s[i..i + n]) { SizeIsAnnounced(s[i..i + n]); }
  }

  /** The characters before the first bad one. */
  function Before(s: Bytes, i: nat): seq<Bytes>
    requires i <= |s|
    decreases |s| - i
  {
    if i == |s| || SizeAt(s, i) == 0 then [] else [s[i..i + SizeAt(s, i)]] + Before(s, i + SizeAt(s, i))
  }

  /** Where the first bad character starts, or the end. */
  function EndOf(s: Bytes, i: nat): (k: nat)
    requires i <= |s|
    ensures i <= k <= |s|
  {
    if FirstBad(s, i).Some? then FirstBad(s, i).value else |s|
  }

  lemma {:induction false} BeforeIsText(s: Bytes, i: nat)
    requires i <= |s|
    ensures AllAccepted(Before(s, i)) && Flat(Before(s, i)) == s[i..EndOf(s, i)]
    decreases |s| - i
  {
    hide IsAccepted, SizeOf;
    if i >= |s| || SizeAt(s, i) <= 0 {
    } else {
      var n := SizeAt(s, i);
      hide SizeAt;
      BeforeIsText(s, i + n);
      BeforeOneMore(s, i, n);
    }
  }

  lemma BeforeOneMore(s: Bytes, i: nat, n: nat)
    requires i < |s| && n == SizeAt(s, i) > 0
    requires AllAccepted(Before(s, i + n)) && Flat(Before(s, i + n)) == s[i + n..EndOf(s, i + n)]
    ensures AllAccepted(Before(s, i)) && Flat(Before(s, i)) == s[i..EndOf(s, i)]
  {
    assert IsAccepted(s[i..i + n]);
    hide IsAccepted, SizeAt;
    var rest, end := Before(s, i + n), EndOf(s, i);
    assert Before(s, i) == [s[i..i + n]] + rest && EndOf(s, i + n) == end;
    hide Before, EndOf;
    var cs := [s[i..i + n]] + rest;
    assert cs[1..] == rest;
    assert s[i..i + n] + s[i + n..end] == s[i..end];
  }

  lemma {:induction false} TextHasNoBad(cs: seq<Bytes>, s: Bytes, i: nat)
    requires AllAccepted(cs) && At(s, i, Flat(cs)) && |s| == i + |Flat(cs)|
    ensures FirstBad(s, i).None?
    decreases |cs|
  {
    if cs == [] {
    } else {
      hide IsCharacter, SizeOf;
      var c := cs[0];
      assert IsAccepted(c);
      AtParts(s, i, c, Flat(cs[1..]));
      SizeIsAnnounced(c);
      assert s[i..i + |c|] == c && s[i] == c[0];
      hide IsAccepted, At;
      TextHasNoBad(cs[1..], s, i + |c|);
    }
  }

  lemma IsTextOf(cs: seq<Bytes>, s: Bytes)
    requires AllAccepted(cs) && Flat(cs) == s
    ensures IsText(s)
  {
  }

  lemma TextPasses(s: Bytes)
    requires IsText(s)
    ensures FirstBad(s, 0).None?
  {
    var cs: seq<Bytes> :| AllAccepted(cs) && Flat(cs) == s;
    hide AllAccepted, Flat, FirstBad;
    assert s[0..] == s && At(s, 0, s);
    TextHasNoBad(cs, s, 0);
  }

  /**
   The check finds nothing exactly when the string is a sequence of accepted
   characters; otherwise it finds where the first bad one starts: what is before it
   is such a sequence, and no accepted character starts there.
   */
  lemma CheckIsExact(s: Bytes)
    ensures FirstBad(s, 0).None? <==> IsText(s)
    ensures FirstBad(s, 0).Some? ==>
      var k := FirstBad(s, 0).value;
      IsText(s[..k]) && forall n :: k <= n <= |s| ==> !IsAccepted(s[k..n])
  {
    BeforeIsText(s, 0);
    hide IsAccepted, SizeOf, SizeAt, IsText, Before, FirstBad, AllAccepted, Flat;
    if FirstBad(s, 0).None? {
      assert s[0..|s|] == s;
      IsTextOf(Before(s, 0), s);
    } else {
      var k := FirstBad(s, 0).value;
      assert s[0..k] == s[..k];
      IsTextOf(Before(s, 0), s[..k]);
      BadStartsNothing(s, 0);
      forall n | k <= n <= |s| ensures !IsAccepted(s[k..n]) { NoneStarts(s, k, n - k); }
      if IsText(s) { TextPasses(s); }
    }
  }

  lemma {:induction false} BadStartsNothing(s: Bytes, i: nat)
    requires i <= |s| && FirstBad(s, i).Some?
    ensures SizeAt(s, FirstBad(s, i).value) == 0
    decreases |s| - i
  {
    if SizeAt(s, i) == 0 {
    } else {
      BadStartsNothing(s, i + SizeAt(s, i));
    }
  }

  // ---- The loop ----

  /** `b & mask`, for a mask of leading ones. */
  function And(b: int, mask: int): int
    requires mask in {0xC0, 0xE0, 0xF0, 0xF8, 0xFE}
  {
    b - b % (256 - mask)
  }

  /** A C string and its terminator. */
  predicate IsCString(buf: Bytes) {
    buf != [] && buf[|buf| - 1] == 0 && forall k :: 0 <= k < |buf| - 1 ==> buf[k] != 0
  }

  function TextOf(buf: Bytes): Bytes
    requires IsCString(buf)
  {
    buf[..|buf| - 1]
  }

  /** The tests of the loop.  They read an octet only when the one before it is not the
      terminator, so never past the end. */
  predicate BadTwo(buf: Bytes, s: nat)
    requires IsCString(buf) && s + 1 < |buf|
  {
    And(buf[s + 1], 0xC0) != 0x80 || And(buf[s], 0xFE) == 0xC0
  }

  predicate BadThree(buf: Bytes, s: nat)
    requires IsCString(buf) && s + 1 < |buf|
  {
    || And(buf[s + 1], 0xC0) != 0x80 || And(buf[s + 2], 0xC0) != 0x80
    || (buf[s] == 0xE0 && And(buf[s + 1], 0xE0) == 0x80)
    || (buf[s] == 0xED && And(buf[s + 1], 0xE0) == 0xA0)
    || (buf[s] == 0xEF && buf[s + 1] == 0xBF && And(buf[s + 2], 0xFE) == 0xBE)
  }

  predicate BadFour(buf: Bytes, s: nat)
    requires IsCString(buf) && s + 1 < |buf|
  {
    || And(buf[s + 1], 0xC0) != 0x80 || And(buf[s + 2], 0xC0) != 0x80 || And(buf[s + 3], 0xC0) != 0x80
    || (buf[s] == 0xF0 && And(buf[s + 1], 0xF0) == 0x80)
    || (buf[s] == 0xF4 && buf[s + 1] > 0x8F) || buf[s] > 0xF4
  }

  /** A size that the first octet announces is the size there if a character is. */
  lemma SizeIs(s: Bytes, i: nat, n: nat)
    requires i < |s| && SizeOf(s[i]) in {0, n}
    ensures SizeAt(s, i) == if i + n <= |s| && IsAccepted(s[i..i + n]) then n else 0
  {
    if i + n <= |s| && IsAccepted(s[i..i + n]) { SizeIsAnnounced(s[i..i + n]); }
  }

  /** The tests agree with the productions. */
  lemma OneIs(buf: Bytes, s: nat)
    requires IsCString(buf) && s + 1 < |buf| && buf[s] < 0x80
    ensures SizeAt(TextOf(buf), s) == 1
  {
  }

  /** The ranges that the masks stand for. */
  lemma Mask0xC0(b: octet)
    ensures And(b, 0xC0) == 0x80 <==> IsTail(b)
  {
  }

  lemma Mask0xE0(b: octet)
    ensures And(b, 0xE0) == 0xC0 <==> 0xC0 <= b <= 0xDF
    ensures And(b, 0xE0) == 0x80 <==> 0x80 <= b <= 0x9F
    ensures And(b, 0xE0) == 0xA0 <==> 0xA0 <= b <= 0xBF
  {
  }

  lemma Mask0xF0(b: octet)
    ensures And(b, 0xF0) == 0xE0 <==> 0xE0 <= b <= 0xEF
    ensures And(b, 0xF0) == 0x80 <==> 0x80 <= b <= 0x8F
  {
  }

  lemma Mask0xF8(b: octet)
    ensures And(b, 0xF8) == 0xF0 <==> 0xF0 <= b <= 0xF7
  {
  }

  lemma Mask0xFE(b: octet)
    ensures And(b, 0xFE) == 0xC0 <==> 0xC0 <= b <= 0xC1
    ensures And(b, 0xFE) == 0xBE <==> 0xBE <= b <= 0xBF
  {
  }

  lemma Masks(b: octet)
    ensures And(b, 0xC0) == 0x80 <==> IsTail(b)
    ensures And(b, 0xE0) == 0xC0 <==> 0xC0 <= b <= 0xDF
    ensures And(b, 0xE0) == 0x80 <==> 0x80 <= b <= 0x9F
    ensures And(b, 0xE0) == 0xA0 <==> 0xA0 <= b <= 0xBF
    ensures And(b, 0xF0) == 0xE0 <==> 0xE0 <= b <= 0xEF
    ensures And(b, 0xF0) == 0x80 <==> 0x80 <= b <= 0x8F
    ensures And(b, 0xF8) == 0xF0 <==> 0xF0 <= b <= 0xF7
    ensures And(b, 0xFE) == 0xC0 <==> 0xC0 <= b <= 0xC1
    ensures And(b, 0xFE) == 0xBE <==> 0xBE <= b <= 0xBF
  {
    hide And;
    Mask0xC0(b);
    Mask0xE0(b);
    Mask0xF0(b);
    Mask0xF8(b);
    Mask0xFE(b);
  }

  lemma TwoOctets(a: octet, b: octet)
    requires And(a, 0xE0) == 0xC0
    ensures SizeOf(a) in {0, 2}
    ensures And(b, 0xC0) != 0x80 || And(a, 0xFE) == 0xC0 <==> !IsAccepted([a, b])
  {
    Masks(a);
    Masks(b);
    hide And;
  }

  lemma ThreeOctets(a: octet, b: octet, c: octet)
    requires And(a, 0xF0) == 0xE0
    ensures SizeOf(a) == 3
    ensures (|| And(b, 0xC0) != 0x80 || And(c, 0xC0) != 0x80
             || (a == 0xE0 && And(b, 0xE0) == 0x80)
             || (a == 0xED && And(b, 0xE0) == 0xA0)
             || (a == 0xEF && b == 0xBF && And(c, 0xFE) == 0xBE)) <==> !IsAccepted([a, b, c])
  {
    Masks(a);
    Masks(b);
    Masks(c);
    hide And;
  }

  lemma FourOctets(a: octet, b: octet, c: octet, d: octet)
    requires And(a, 0xF8) == 0xF0
    ensures SizeOf(a) in {0, 4}
    ensures (|| And(b, 0xC0) != 0x80 || And(c, 0xC0) != 0x80 || And(d, 0xC0) != 0x80
             || (a == 0xF0 && And(b, 0xF0) == 0x80)
             || (a == 0xF4 && b > 0x8F) || a > 0xF4) <==> !IsAccepted([a, b, c, d])
  {
    Masks(a);
    Masks(b);
    Masks(c);
    Masks(d);
    hide And;
  }

  lemma ZeroIsNoTail()
    ensures And(0, 0xC0) != 0x80
  {
  }

  lemma TwoIs(buf: Bytes, s: nat)
    requires IsCString(buf) && s + 1 < |buf| && And(buf[s], 0xE0) == 0xC0
    ensures SizeAt(TextOf(buf), s) == if BadTwo(buf, s) then 0 else 2
  {
    hide And, IsAccepted, SizeOf, SizeAt;
    var text := TextOf(buf);
    ZeroIsNoTail();
    TwoOctets(buf[s], buf[s + 1]);
    SizeIs(text, s, 2);
    if s + 2 <= |text| { assert text[s..s + 2] == [buf[s], buf[s + 1]]; }
  }

  lemma ThreeIs(buf: Bytes, s: nat)
    requires IsCString(buf) && s + 1 < |buf| && And(buf[s], 0xF0) == 0xE0
    ensures SizeAt(TextOf(buf), s) == if BadThree(buf, s) then 0 else 3
  {
    hide And, IsAccepted, SizeOf, SizeAt;
    var text := TextOf(buf);
    ZeroIsNoTail();
    ThreeOctets(buf[s], 0, 0);
    SizeIs(text, s, 3);
    if s + 3 <= |text| {
      ThreeOctets(buf[s], buf[s + 1], buf[s + 2]);
      assert text[s..s + 3] == [buf[s], buf[s + 1], buf[s + 2]];
    }
  }

  lemma FourIs(buf: Bytes, s: nat)
    requires IsCString(buf) && s + 1 < |buf| && And(buf[s], 0xF8) == 0xF0
    ensures SizeAt(TextOf(buf), s) == if BadFour(buf, s) then 0 else 4
  {
    hide And, IsAccepted, SizeOf, SizeAt;
    var text := TextOf(buf);
    ZeroIsNoTail();
    FourOctets(buf[s], 0, 0, 0);
    SizeIs(text, s, 4);
    if s + 4 <= |text| {
      FourOctets(buf[s], buf[s + 1], buf[s + 2], buf[s + 3]);
      assert text[s..s + 4] == [buf[s], buf[s + 1], buf[s + 2], buf[s + 3]];
    }
  }

  lemma NoLead(a: octet)
    requires a >= 0x80 && And(a, 0xE0) != 0xC0 && And(a, 0xF0) != 0xE0 && And(a, 0xF8) != 0xF0
    ensures SizeOf(a) == 0
  {
    Masks(a);
    hide And;
  }

  lemma NoneIs(buf: Bytes, s: nat)
    requires IsCString(buf) && s + 1 < |buf| && buf[s] >= 0x80
    requires And(buf[s], 0xE0) != 0xC0 && And(buf[s], 0xF0) != 0xE0 && And(buf[s], 0xF8) != 0xF0
    ensures SizeAt(TextOf(buf), s) == 0
  {
    hide And, IsAccepted, SizeOf, SizeAt;
    NoLead(buf[s]);
    SizeIs(TextOf(buf), s, 0);
  }

  /** `utf8_check`; the result is the index of the character that is returned. */
  method Utf8Check(buf: Bytes) returns (bad: Option<nat>)
    requires IsCString(buf)
    ensures bad == FirstBad(TextOf(buf), 0)
  {
    hide SizeAt, And, BadTwo, BadThree, BadFour;
    var s := 0;
    while buf[s] != 0
      invariant s < |buf|
      invariant FirstBad(TextOf(buf), s) == FirstBad(TextOf(buf), 0)
      decreases |buf| - s
    {
      if buf[s] < 0x80 {
        OneIs(buf, s);
        s := s + 1;
      } else if And(buf[s], 0xE0) == 0xC0 {
        TwoIs(buf, s);
        if BadTwo(buf, s) { return Some(s); }
        s := s + 2;
      } else if And(buf[s], 0xF0) == 0xE0 {
        ThreeIs(buf, s);
        if BadThree(buf, s) { return Some(s); }
        s := s + 3;
      } else if And(buf[s], 0xF8) == 0xF0 {
        FourIs(buf, s);
        if BadFour(buf, s) { return Some(s); }
        s := s + 4;
      } else {
        NoneIs(buf, s);
        return Some(s);
      }
    }
    return None;
  }
}
