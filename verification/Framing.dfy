/**
 Splitting a receive buffer into frames: `amqp_data_received` (amqp_client.c) and
 `mqtt_data_received` (mqtt_client.c).  `buf` is the memory that can be read, of
 which the first `readable` octets were received.
 */
module Framing {
  import opened Octets
  import opened MqttCodec
  import AmqpDecoder
  import AmqpEncoder
  import AmqpFrame

  /** How the loop ends: past the received octets, outside the memory, or, handing on the
      same empty piece for ever, never. */
  datatype End = Finished | Faulted | Spinning

  /** The pieces handed on, in order. */
  datatype Split = Split(frames: seq<Bytes>, end: End)

  function Prepend(frame: Bytes, s: Split): Split {
    Split([frame] + s.frames, s.end)
  }

  function Flat(frames: seq<Bytes>): Bytes {
    if frames == [] then [] else frames[0] + Flat(frames[1..])
  }

  /** Pieces done so far, in front of what is still to come. */
  function After(done: seq<Bytes>, s: Split): Split {
    Split(done + s.frames, s.end)
  }

  lemma AfterPrepend(done: seq<Bytes>, frame: Bytes, s: Split)
    ensures After(done, Prepend(frame, s)) == After(done + [frame], s)
    ensures After([], s) == s
  {
    assert done + ([frame] + s.frames) == done + [frame] + s.frames;
    assert [] + s.frames == s.frames;
  }

  // ---- AMQP ----

  /** The loop, from a piece of `length` octets at `i` on.  After an empty piece the same
      length of zero is read again and again. */
  function AmqpFrom(buf: Bytes, readable: nat, i: nat, length: int): Split
    requires i <= readable
    decreases readable - i
  {
    if length == 0 then Split([[]], Spinning)
    else if length < 0 || i + length > |buf| then Split([], Faulted)
    else
      var j := i + length;
      if j >= readable then Split([buf[i..j]], Finished)
      else if j + 4 > |buf| then Split([buf[i..j]], Faulted)
      else Prepend(buf[i..j], AmqpFrom(buf, readable, j, IntAt(buf, j)))
  }

  /** A protocol header, alone or with the frame that follows it, or frames. */
  function AmqpReceived(buf: Bytes, readable: nat): Split
    requires readable <= |buf|
  {
    if |buf| < 4 then Split([], Faulted)
    else if IntAt(buf, 0) == AmqpDecoder.AMQP_MAGIC then
      if |buf| < 8 then Split([], Faulted)
      else if buf[4] in {0, 3} && buf[5..8] == [1, 0, 0] && readable > 8 then Split([buf[..8], buf[8..readable]], Finished)
      else Split([buf[..readable]], Finished)
    else AmqpFrom(buf, readable, 0, IntAt(buf, 0))
  }

  /** `amqp_data_received`; `received` are the arguments of `process_amqp_rx`. */
  method AmqpDataReceived(buf: Bytes, readable: nat) returns (received: seq<Bytes>, end: End)
    requires readable <= |buf|
    ensures Split(received, end) == AmqpReceived(buf, readable)
  {
    received := [];
    if |buf| < 4 { return received, Faulted; }
    var i := 0;
    var length := IntAt(buf, 0);
    if length == AmqpDecoder.AMQP_MAGIC {
      i := i + 4;
      if |buf| < 8 { return received, Faulted; }
      var protocolId, major, minor, revision := buf[i], buf[i + 1], buf[i + 2], buf[i + 3];
      assert buf[5..8] == [major, minor, revision];
      if (protocolId == 0 || protocolId == 3) && major == 1 && minor == 0 && revision == 0 && readable > 8 {
        received := [buf[..8], buf[8..readable]];
      } else {
        received := [buf[..readable]];
      }
      return received, Finished;
    }
    AfterPrepend([], [], AmqpFrom(buf, readable, 0, length));
    while true
      invariant 0 <= i <= readable
      invariant After(received, AmqpFrom(buf, readable, i, length)) == AmqpReceived(buf, readable)
      decreases readable - i
    {
      if length == 0 { return received + [[]], Spinning; }
      if length < 0 || i + length > |buf| { return received, Faulted; }
      var nextBytes := buf[i..i + length];
      if i + length < readable && i + length + 4 <= |buf| {
        AfterPrepend(received, nextBytes, AmqpFrom(buf, readable, i + length, IntAt(buf, i + length)));
      }
      received := received + [nextBytes];
      i := i + length;
      if i >= readable { return received, Finished; }
      if i + 4 > |buf| { return received, Faulted; }
      length := IntAt(buf, i);
    }
  }

  /** A frame whose size field is its number of octets. */
  predicate WholeFrame(f: Bytes) {
    |f| >= 4 && IntAt(f, 0) == |f|
  }

  lemma FieldWithin(buf: Bytes, i: nat, f: Bytes)
    requires |f| >= 4 && At(buf, i, f)
    ensures i + 4 <= |buf| && IntAt(buf, i) == IntAt(f, 0)
  {
    assert buf[i] == f[0] && buf[i + 1] == f[1] && buf[i + 2] == f[2] && buf[i + 3] == f[3];
  }

  lemma {:induction false} FramesFrom(frames: seq<Bytes>, buf: Bytes, i: nat)
    requires frames != [] && (forall k :: 0 <= k < |frames| ==> WholeFrame(frames[k])) && At(buf, i, Flat(frames))
    ensures AmqpFrom(buf, i + |Flat(frames)|, i, |frames[0]|) == Split(frames, Finished)
    decreases |frames|
  {
    hide IntAt;
    AtParts(buf, i, frames[0], Flat(frames[1..]));
    assert buf[i..i + |frames[0]|] == frames[0];
    if |frames| == 1 {
      assert frames[1..] == [] && frames == [frames[0]];
    } else {
      var j := i + |frames[0]|;
      FramesFrom(frames[1..], buf, j);
      AtParts(buf, j, frames[1], Flat(frames[1..][1..]));
      FieldWithin(buf, j, frames[1]);
      assert [frames[0]] + frames[1..] == frames;
    }
  }

  /** Whole frames, received together, are handed on one by one, each once, in order,
      and the loop ends. */
  lemma FramesAreDelivered(frames: seq<Bytes>, buf: Bytes)
    requires frames != [] && (forall k :: 0 <= k < |frames| ==> WholeFrame(frames[k])) && At(buf, 0, Flat(frames))
    requires |frames[0]| != AmqpDecoder.AMQP_MAGIC
    ensures AmqpReceived(buf, |Flat(frames)|) == Split(frames, Finished)
  {
    AtParts(buf, 0, frames[0], Flat(frames[1..]));
    FieldWithin(buf, 0, frames[0]);
    FramesFrom(frames, buf, 0);
  }

  lemma Joined(buf: Bytes, i: nat, s: Bytes, t: Bytes)
    requires At(buf, i, s) && At(buf, i + |s|, t)
    ensures At(buf, i, s + t)
  {
    var j, k := i + |s|, i + |s| + |t|;
    assert buf[i..k] == buf[i..j] + buf[j..k];
  }

  function EncodeAll(fs: seq<AmqpEncoder.Frame>): (r: seq<Bytes>)
    requires forall k :: 0 <= k < |fs| ==> AmqpEncoder.EncodableFrame(fs[k])
    ensures |r| == |fs| && forall k :: 0 <= k < |fs| ==> r[k] == AmqpEncoder.EncodeFrame(fs[k])
  {
    seq(|fs|, k requires 0 <= k < |fs| => AmqpEncoder.EncodeFrame(fs[k]))
  }

  /** Encoded frames sent back to back reach the decoder one by one. */
  lemma EncodedFramesAreDelivered(fs: seq<AmqpEncoder.Frame>, buf: Bytes)
    requires fs != [] && forall k :: 0 <= k < |fs| ==> AmqpEncoder.EncodableFrame(fs[k])
    requires At(buf, 0, Flat(EncodeAll(fs))) && |AmqpEncoder.EncodeFrame(fs[0])| != AmqpDecoder.AMQP_MAGIC
    ensures AmqpReceived(buf, |Flat(EncodeAll(fs))|) == Split(EncodeAll(fs), Finished)
  {
    hide AmqpEncoder.EncodeFrame, AmqpEncoder.EncodableFrame, Flat, At, IntAt;
    forall k | 0 <= k < |fs| ensures WholeFrame(EncodeAll(fs)[k]) {
      AmqpFrame.FrameParts(fs[k]);
    }
    FramesAreDelivered(EncodeAll(fs), buf);
  }

  lemma FlatPrepend(buf: Bytes, i: nat, frame: Bytes, s: Split)
    requires At(buf, i, frame) && At(buf, i + |frame|, Flat(s.frames))
    ensures At(buf, i, Flat(Prepend(frame, s).frames))
    ensures |Flat(Prepend(frame, s).frames)| == |frame| + |Flat(s.frames)| && Prepend(frame, s).end == s.end
  {
    assert Prepend(frame, s).frames[1..] == s.frames;
    Joined(buf, i, frame, Flat(s.frames));
  }

  lemma FlatOne(s: Bytes)
    ensures Flat([s]) == s
  {
    assert [s][1..] == [] && s + [] == s;
  }

  /** The loop from `i` on. */
  lemma {:induction false} LoopSkipsNothing(buf: Bytes, readable: nat, i: nat, length: int)
    requires i <= readable && i <= |buf|
    ensures var s := AmqpFrom(buf, readable, i, length);
      At(buf, i, Flat(s.frames)) && (s.end == Finished ==> i + |Flat(s.frames)| >= readable)
    decreases readable - i
  {
    hide IntAt, Flat, At, Prepend;
    EmptyAt(buf, i);
    FlatOne([]);
    if length <= 0 || i + length > |buf| {
    } else {
      var j, frame := i + length, buf[i..i + length];
      assert At(buf, i, frame) by { SliceAt(buf, i, j); }
      if j < readable && j + 4 <= |buf| {
        LoopSkipsNothing(buf, readable, j, IntAt(buf, j));
        FlatPrepend(buf, i, frame, AmqpFrom(buf, readable, j, IntAt(buf, j)));
      } else {
        EmptyAt(buf, j);
        FlatPrepend(buf, i, frame, Split([], Finished));
        OneFrame(frame);
      }
    }
  }

  lemma FlatTwo(s: Bytes, t: Bytes)
    ensures Flat([s, t]) == s + t
  {
    assert [s, t][1..] == [t];
    FlatOne(t);
  }

  /** Whatever was received, behind a protocol header or not, the pieces are consecutive
      stretches of it from the start, and all of it is handed on when the loop ends. */
  lemma NothingIsSkipped(buf: Bytes, readable: nat)
    requires readable <= |buf|
    ensures var s := AmqpReceived(buf, readable);
      At(buf, 0, Flat(s.frames)) && (s.end == Finished ==> |Flat(s.frames)| >= readable)
  {
    EmptyAt(buf, 0);
    if |buf| >= 4 { LoopSkipsNothing(buf, readable, 0, IntAt(buf, 0)); }
    FlatOne(buf[..readable]);
    if 8 <= readable {
      FlatTwo(buf[..8], buf[8..readable]);
      assert buf[..8] + buf[8..readable] == buf[..readable];
    }
    hide AmqpFrom, Flat, IntAt;
  }

  lemma EmptyAt(buf: Bytes, i: nat)
    requires i <= |buf|
    ensures Flat([]) == [] && At(buf, i, Flat([]))
  {
  }

  lemma SliceAt(buf: Bytes, i: nat, j: nat)
    requires i <= j <= |buf|
    ensures At(buf, i, buf[i..j])
  {
  }

  lemma OneFrame(frame: Bytes)
    ensures forall end :: Prepend(frame, Split([], end)) == Split([frame], end)
  {
  }

  // ---- MQTT ----

  /** `buf[i+1] + 2`. */
  function NextLength(buf: Bytes, i: nat): (n: int)
    requires i + 2 <= |buf|
    ensures n >= 2
  {
    var octets: int := buf[i + 1];
    octets + 2
  }

  /** The remaining length of a packet takes one octet. */
  predicate OneOctet(f: Bytes) {
    |f| >= 2 && f[1] < 128
  }

  /** The loop: the length of every piece but the first is read as if it took one octet. */
  function MqttFrom(buf: Bytes, readable: nat, i: nat, length: int): Split
    requires i <= readable && length != 0
    decreases readable - i
  {
    if length < 0 || i + length > |buf| then Split([], Faulted)
    else
      var j := i + length;
      if j >= readable then Split([buf[i..j]], Finished)
      else if j + 2 > |buf| then Split([buf[i..j]], Faulted)
      else Prepend(buf[i..j], MqttFrom(buf, readable, j, NextLength(buf, j)))
  }

  function MqttReceived(buf: Bytes, readable: nat, plainMqtt: bool): Split
    requires readable <= |buf|
  {
    var details := DecodeLength(buf);
    if details.None? then Split([], Faulted)
    else if details.value.length < readable && plainMqtt then
      (LengthIsNotZero(buf); MqttFrom(buf, readable, 0, details.value.length))
    else Split([buf[..readable]], Finished)
  }

  lemma LengthIsNotZero(buf: Bytes)
    ensures DecodeLength(buf).Some? ==> DecodeLength(buf).value.length != 0
  {
    LengthCounts(buf, 0, 0);
  }

  lemma {:induction false} LengthCounts(buf: Bytes, used: nat, length: nat)
    requires used <= 4
    ensures var r := LengthFrom(buf, used, length);
      r.Some? ==> r.value.length == -1 || r.value.length >= length + 2 + used
    decreases 4 - used
  {
    if used == 4 || 1 + used >= |buf| {
    } else {
      var enc: int := buf[1 + used];
      assert DigitOf(enc) * Scale(used) >= 0;
      LengthCounts(buf, used + 1, length + DigitOf(enc) * Scale(used));
    }
  }

  /** `mqtt_data_received`. */
  method MqttDataReceived(buf: Bytes, readable: nat, plainMqtt: bool) returns (received: seq<Bytes>, end: End)
    requires readable <= |buf|
    ensures Split(received, end) == MqttReceived(buf, readable, plainMqtt)
  {
    received := [];
    var i := 0;
    var details := DecodeRemainingLength(buf);
    if details.None? { return received, Faulted; }
    var length := details.value.length;
    LengthIsNotZero(buf);
    if length < readable && plainMqtt {
      AfterPrepend([], [], MqttFrom(buf, readable, 0, length));
      while true
        invariant 0 <= i <= readable && length != 0
        invariant After(received, MqttFrom(buf, readable, i, length)) == MqttReceived(buf, readable, plainMqtt)
        decreases readable - i
      {
        if length < 0 || i + length > |buf| { return received, Faulted; }
        var nextBytes := buf[i..i + length];
        if i + length < readable && i + length + 2 <= |buf| {
          AfterPrepend(received, nextBytes, MqttFrom(buf, readable, i + length, NextLength(buf, i + length)));
        }
        received := received + [nextBytes];
        i := i + length;
        if i >= readable { return received, Finished; }
        if i + 2 > |buf| { return received, Faulted; }
        length := NextLength(buf, i);
      }
    } else {
      return [buf[..readable]], Finished;
    }
  }

  /** A packet whose remaining length is what follows it. */
  predicate WholePacket(f: Bytes) {
    DecodeLength(f).Some? && DecodeLength(f).value.length == |f|
  }

  lemma {:induction false} LengthWithin(f: Bytes, buf: Bytes, used: nat, length: nat)
    requires used <= 4 && f <= buf && LengthFrom(f, used, length).Some?
    ensures LengthFrom(buf, used, length) == LengthFrom(f, used, length)
    decreases 4 - used
  {
    if used == 4 {
    } else {
      var enc: int := f[1 + used];
      if enc >= 128 { LengthWithin(f, buf, used + 1, length + DigitOf(enc) * Scale(used)); }
    }
  }

  predicate Round(n: int) {
    n % 128 == 0
  }

  lemma ScaleIsRound(used: nat, enc: octet)
    requires 1 <= used <= 3
    ensures Scale(used) <= 128 * 128 * 128 && DigitOf(enc) * Scale(used) >= 0 && Round(DigitOf(enc) * Scale(used))
  {
    var digit := DigitOf(enc);
    match used {
      case 1 =>
      case 2 => assert digit * Scale(2) == digit * 128 * 128;
      case _ => assert digit * Scale(3) == digit * 128 * 128 * 128;
    }
  }

  lemma RoundSum(a: int, b: int)
    requires Round(a) && Round(b)
    ensures Round(a + b)
  {
  }

  /** Beyond the first octet the value grows by multiples of 128. */
  lemma {:induction false} LongLength(f: Bytes, used: nat, length: nat)
    requires 1 <= used <= 4 && LengthFrom(f, used, length).Some? && LengthFrom(f, used, length).value.length != -1
    ensures var r := LengthFrom(f, used, length).value;
      Round(r.length - 1 - r.bytesUsed - length) && used < r.bytesUsed <= 4
    decreases 4 - used
  {
    if used == 4 {
    } else {
      ScaleIsRound(used, f[1 + used]);
      hide Scale, DigitOf, Round;
      var more := DigitOf(f[1 + used]) * Scale(used);
      if f[1 + used] >= 128 {
        assert LengthFrom(f, used, length) == LengthFrom(f, used + 1, length + more);
        hide LengthFrom;
        LongLength(f, used + 1, length + more);
        var r := LengthFrom(f, used + 1, length + more).value;
        RoundSum(r.length - 1 - r.bytesUsed - (length + more), more);
        assert r.length - 1 - r.bytesUsed - length == r.length - 1 - r.bytesUsed - (length + more) + more;
      } else {
        assert length + more - length == more;
      }
    }
  }

  /** Reading one octet of length is right exactly when there is only one. */
  lemma OneOctetLength(f: Bytes)
    requires WholePacket(f)
    ensures |f| >= 2 && (NextLength(f, 0) == |f| <==> OneOctet(f))
  {
    LengthCounts(f, 0, 0);
    if |f| >= 2 && f[1] >= 128 {
      var enc: int := f[1];
      LongLength(f, 1, DigitOf(enc) * Scale(0));
    }
  }

  predicate AllOneOctet(frames: seq<Bytes>) {
    forall k :: 0 <= k < |frames| ==> OneOctet(frames[k])
  }

  lemma PrependIs(frame: Bytes, s: Split, frames: seq<Bytes>)
    requires frames != []
    ensures Prepend(frame, s) == Split(frames, Finished) <==> frame == frames[0] && s == Split(frames[1..], Finished)
  {
    assert ([frame] + s.frames)[1..] == s.frames && [frames[0]] + frames[1..] == frames;
  }

  lemma {:induction false} PacketsFrom(frames: seq<Bytes>, buf: Bytes, i: nat, length: int)
    requires frames != [] && (forall k :: 0 <= k < |frames| ==> WholePacket(frames[k]))
    requires At(buf, i, Flat(frames)) && length != 0
    ensures MqttFrom(buf, i + |Flat(frames)|, i, length) == Split(frames, Finished)
      <==> length == |frames[0]| && AllOneOctet(frames[1..])
    decreases |frames|
  {
    hide WholePacket, OneOctet, NextLength, AllOneOctet;
    var rest, j := frames[1..], i + length;
    AtParts(buf, i, frames[0], Flat(rest));
    OneOctetLength(frames[0]);
    if length != |frames[0]| {
      WrongLength(frames, buf, i, length);
    } else if |frames| == 1 {
      assert rest == [] && frames == [frames[0]];
      NoneLeft(rest);
    } else {
      AtParts(buf, j, rest[0], Flat(rest[1..]));
      OneOctetLength(rest[0]);
      NextLengthWithin(buf, j, rest[0]);
      assert i + |Flat(frames)| >= j;
      hide Flat, At;
      PacketsFrom(rest, buf, j, NextLength(buf, j));
      PrependIs(frames[0], MqttFrom(buf, i + |Flat(frames)|, j, NextLength(buf, j)), frames);
      FirstAndRest(rest);
    }
  }

  lemma NoneLeft(frames: seq<Bytes>)
    ensures frames == [] ==> AllOneOctet(frames)
  {
  }

  lemma FirstAndRest(frames: seq<Bytes>)
    requires frames != []
    ensures AllOneOctet(frames) <==> OneOctet(frames[0]) && AllOneOctet(frames[1..])
  {
    assert forall k :: 1 <= k < |frames| ==> frames[k] == frames[1..][k - 1];
  }

  lemma NextLengthWithin(buf: Bytes, i: nat, f: Bytes)
    requires |f| >= 2 && At(buf, i, f)
    ensures i + 2 <= |buf| && NextLength(buf, i) == NextLength(f, 0)
  {
    assert buf[i + 1] == f[1];
  }

  lemma WrongLength(frames: seq<Bytes>, buf: Bytes, i: nat, length: int)
    requires frames != [] && length != 0 && length != |frames[0]|
    ensures MqttFrom(buf, i + |Flat(frames)|, i, length) != Split(frames, Finished)
  {
    var s := MqttFrom(buf, i + |Flat(frames)|, i, length);
    assert s.frames != [] ==> |s.frames[0]| == length;
  }

  /**
   Whole packets, received together, are handed on one by one exactly when every one
   after the first has a remaining length of one octet.
   */
  lemma PacketsAreDelivered(frames: seq<Bytes>, buf: Bytes)
    requires frames != [] && (forall k :: 0 <= k < |frames| ==> WholePacket(frames[k])) && At(buf, 0, Flat(frames))
    ensures MqttReceived(buf, |Flat(frames)|, true) == Split(frames, Finished)
      <==> AllOneOctet(frames[1..])
  {
    var first, rest := frames[0], frames[1..];
    AtParts(buf, 0, first, Flat(rest));
    LengthWithin(first, buf, 0, 0);
    OneOctetLength(first);
    if rest == [] {
      assert frames == [first] && buf[..|first|] == first;
    } else {
      OneOctetLength(frames[1]);
      assert Flat(rest) == rest[0] + Flat(rest[1..]);
      PacketsFrom(frames, buf, 0, |first|);
    }
  }

  /** For a packet of this client that is a remaining length of at most 127. */
  lemma LayoutIsWhole(p: Packet)
    requires Sendable(p) && StringsFit(p)
    ensures WholePacket(Layout(p)) && (OneOctet(Layout(p)) <==> GetLength(p) <= 127)
  {
    LayoutParts(p, Layout(p));
    LengthAgrees(p);
    hide Body, Header, GetLength, Sendable, StringsFit, DecodeLength;
    assert Layout(p)[1] == Digits(GetLength(p))[0];
  }
}
