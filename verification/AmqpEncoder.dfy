/** AMQP frames with their DATA sections, as amqp_parser.c encodes them. */
module AmqpEncoder {
  import opened Octets
  import opened AmqpTlv
  import opened AmqpList
  import opened Buffers
  import opened AmqpArguments

  /** `sections` are the contents of DATA sections. */
  datatype Frame = Frame(doff: octet, frameType: octet, channel: int, performative: Performative, sections: seq<Bytes>)

  function SectionValue(data: Bytes): (v: Value)
    requires |data| < INT_SPACE / 2
    ensures WellFormed(v)
  {
    var plain := BinaryValue(data);
    ScalarForm(plain.ctor.code, data);
    ScalarForm(SMALL_ULONG, [DATA]);
    Value(Described(CodeValue(DATA), plain.ctor.code), plain.body)
  }

  lemma SectionForm(data: Bytes)
    requires |data| < INT_SPACE / 2
    ensures Encode(SectionValue(data))
         == [0, SMALL_ULONG, DATA, BinaryValue(data).ctor.code] + Field(|data| > 255, |data|) + data
  {
    var v := SectionValue(data);
    ScalarForm(SMALL_ULONG, [DATA]);
    assert EncodeCtor(v.ctor) == [0] + [SMALL_ULONG, DATA] + [v.ctor.code];
    hide Int;
    assert EncodeBody(v.ctor.code, v.body) == Field(|data| > 255, |data|) + data;
  }

  function SectionsBytes(sections: seq<Bytes>): Bytes
    requires forall k :: 0 <= k < |sections| ==> |sections[k]| < INT_SPACE / 2
  {
    if sections == [] then []
    else SectionsBytes(sections[..|sections| - 1]) + Encode(SectionValue(sections[|sections| - 1]))
  }

  /** `add_section`, the DATA case. */
  method AddSection(data: Bytes) returns (bytes: array<octet>)
    requires |data| < INT_SPACE / 2
    ensures fresh(bytes) && bytes[..] == Encode(SectionValue(data))
  {
    SectionForm(data);
    hide Int, Encode;
    var wide := |data| > 255;
    var width := if wide then 4 else 1;
    bytes := new octet[3 + 1 + width + |data|];
    var i := Copy(bytes, 0, [0, SMALL_ULONG, DATA, if wide then BINARY_32 else BINARY_8]);
    if wide {
      i := Copy(bytes, i, Int(|data|));
    } else {
      i := Put(bytes, i, |data|);
    }
    i := Copy(bytes, i, data);
    assert bytes[..] == bytes[..i];
  }

  function FrameBody(f: Frame): Bytes
    requires Encodable(f.performative) && forall k :: 0 <= k < |f.sections| ==> |f.sections[k]| < INT_SPACE / 2
  {
    ArgumentBytes(f.performative) + if f.performative.Transfer? then SectionsBytes(f.sections) else []
  }

  /** The frame can be encoded: `channel` is a `short` and the length an `int`. */
  predicate EncodableFrame(f: Frame) {
    && Encodable(f.performative)
    && -SHORT_SPACE / 2 <= f.channel < SHORT_SPACE / 2
    && (forall k :: 0 <= k < |f.sections| ==> |f.sections[k]| < INT_SPACE / 2)
    && 8 + |FrameBody(f)| < INT_SPACE / 2
  }

  function Opening(f: Frame): Bytes
    requires EncodableFrame(f)
  {
    [f.doff, f.frameType] + Short(f.channel % SHORT_SPACE)
  }

  function EncodeFrame(f: Frame): Bytes
    requires EncodableFrame(f)
  {
    Int(8 + |FrameBody(f)|) + (Opening(f) + FrameBody(f))
  }

  method Realloc(a: array<octet>, n: nat) returns (b: array<octet>)
    requires a.Length <= n
    ensures fresh(b) && b.Length == n && b[..a.Length] == a[..]
  {
    b := new octet[n];
    forall k | 0 <= k < a.Length {
      b[k] := a[k];
    }
  }

  /** `amqp_encode`, the default case: the length comes last. */
  method AmqpEncode(f: Frame) returns (buf: array<octet>)
    requires EncodableFrame(f)
    ensures fresh(buf) && buf[..] == EncodeFrame(f)
  {
    hide ArgumentBytes, SectionsBytes, Int, Opening, Encode;
    buf := StartFrame(f);
    if f.performative.Transfer? {
      buf := AppendSections(buf, f.sections);
    }
    assert buf[4..] == Opening(f) + FrameBody(f);
    SetLength(buf, f);
  }

  method SetLength(buf: array<octet>, ghost f: Frame)
    requires EncodableFrame(f) && buf.Length >= 4 && buf[4..] == Opening(f) + FrameBody(f)
    modifies buf
    ensures buf[..] == EncodeFrame(f)
  {
    hide FrameBody, Int, Short;
    assert |Opening(f)| == 4;
    hide Opening;
    var i := Copy(buf, 0, Int(buf.Length));
    assert buf[..4] == Int(buf.Length) && buf[..] == buf[..4] + buf[4..];
  }

  lemma AfterLength(s: Bytes, length: Bytes, kind: Bytes, channel: Bytes, args: Bytes)
    requires s == length + kind + channel + args
    ensures s[|length|..] == kind + channel + args
  {
    assert s == length + (kind + channel + args);
  }

  /** All but the sections and the length. */
  method StartFrame(f: Frame) returns (buf: array<octet>)
    requires EncodableFrame(f)
    ensures fresh(buf) && buf.Length >= 4 && |Opening(f)| == 4
    ensures buf[4..] == Opening(f) + ArgumentBytes(f.performative)
  {
    hide ArgumentBytes, SectionsBytes, Short;
    var arguments := AddArguments(f.performative);
    buf := new octet[8 + arguments.Length];
    ghost var length := buf[..4];
    var i := Put(buf, 4, f.doff);
    i := Put(buf, i, f.frameType);
    ghost var kind := [f.doff, f.frameType];
    assert buf[..i] == length + kind;
    i := AddShort(buf, i, f.channel % SHORT_SPACE);
    i := Copy(buf, i, arguments[..]);
    assert buf[..i] == buf[..];
    AfterLength(buf[..], length, kind, Short(f.channel % SHORT_SPACE), arguments[..]);
    assert buf[..][4..] == buf[4..];
  }

  /** The loop over the sections, each appended after `realloc`. */
  method AppendSections(buf: array<octet>, sections: seq<Bytes>) returns (b: array<octet>)
    requires forall k :: 0 <= k < |sections| ==> |sections[k]| < INT_SPACE / 2
    modifies buf
    ensures b == buf || fresh(b)
    ensures b.Length >= buf.Length && b[..] == old(buf[..]) + SectionsBytes(sections)
  {
    hide Encode;
    ghost var was := buf[..];
    b := buf;
    for k := 0 to |sections|
      invariant b == buf || fresh(b)
      invariant b[..] == was + SectionsBytes(sections[..k])
    {
      var section := AddSection(sections[k]);
      var i := b.Length;
      b := Realloc(b, i + section.Length);
      i := Copy(b, i, section[..]);
      assert sections[..k + 1][..k] == sections[..k];
      assert b[..] == b[..i];
    }
    assert sections[..|sections|] == sections;
  }
}
