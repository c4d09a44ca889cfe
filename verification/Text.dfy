/** The strings of the program as octets. */
module Text {
  import opened Octets

  /** A `char *`: octets, none of them the terminator. */
  predicate IsText(s: string) {
    forall i :: 0 <= i < |s| ==> 0 < s[i] as int < 256
  }

  function ToOctets(s: string): (r: Bytes)
    requires IsText(s)
    ensures |r| == |s| && 0 !in r && forall i :: 0 <= i < |s| ==> r[i] == s[i] as int
  {
    seq(|s|, i requires 0 <= i < |s| => s[i] as int)
  }

  lemma OctetsDetermine(s: string, t: string)
    requires IsText(s) && IsText(t) && ToOctets(s) == ToOctets(t)
    ensures s == t
  {
    assert forall i :: 0 <= i < |s| ==> ToOctets(s)[i] as char == s[i];
    assert forall i :: 0 <= i < |t| ==> ToOctets(t)[i] as char == t[i];
  }

  function FromOctets(b: Bytes): (s: string)
    ensures |s| == |b| && forall i :: 0 <= i < |b| ==> s[i] as int == b[i]
  {
    seq(|b|, i requires 0 <= i < |b| => b[i] as char)
  }

  lemma FromToOctets(s: string)
    requires IsText(s)
    ensures FromOctets(ToOctets(s)) == s
  {
    assert forall i :: 0 <= i < |s| ==> ToOctets(s)[i] as char == s[i];
  }

  lemma ToFromOctets(b: Bytes)
    requires 0 !in b
    ensures IsText(FromOctets(b)) && ToOctets(FromOctets(b)) == b
  {
  }
}
