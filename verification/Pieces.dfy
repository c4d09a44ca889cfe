/**
 What the two receive loops hand on and how they end, told by the lengths that stand in
 the buffer: the pieces are as long as they declare, and the loop ends where no further
 piece can be cut.
 */
module Pieces {
  import opened Octets
  import opened Framing
  import opened MqttCodec
  import AmqpDecoder

  /** The length declared at `i`, if it can be read: of an AMQP frame four octets, of an
      MQTT packet its remaining length, or, behind the first, one octet of it. */
  function Declares(mqtt: bool, buf: Bytes, i: nat): Option<int> {
    if !mqtt then (if i + 4 > |buf| then None else Some(IntAt(buf, i)))
    else if i == 0 then (if DecodeLength(buf).None? then None else Some(DecodeLength(buf).value.length))
    else if i + 2 > |buf| then None
    else Some(buf[i + 1] as int + 2)
  }

  /** `frames` are pieces from `i` to `j`, each as long as it declares; all but the first
      begin among the octets received. */
  ghost predicate AreCut(mqtt: bool, buf: Bytes, readable: nat, i: nat, frames: seq<Bytes>, j: nat)
    decreases |frames|
  {
    if frames == [] then i == j
    else
      && frames[0] != [] && At(buf, i, frames[0]) && Declares(mqtt, buf, i) == Some(|frames[0]|)
      && (|frames| > 1 ==> i + |frames[0]| < readable)
      && AreCut(mqtt, buf, readable, i + |frames[0]|, frames[1..], j)
  }

  /** No piece can be cut at `i`. */
  predicate Overruns(mqtt: bool, buf: Bytes, i: nat) {
    match Declares(mqtt, buf, i)
    case None => true
    case Some(n) => n < 0 || i + n > |buf|
  }

  /** The loop ends behind what was received, or where nothing can be cut; or it goes on
      for ever with an empty piece where the length is zero. */
  ghost predicate IsSplit(mqtt: bool, buf: Bytes, readable: nat, i: nat, s: Split, j: nat) {
    match s.end
    case Finished => s.frames != [] && AreCut(mqtt, buf, readable, i, s.frames, j) && j >= readable
    case Faulted => AreCut(mqtt, buf, readable, i, s.frames, j) && (j < readable || j == i) && Overruns(mqtt, buf, j)
    case Spinning =>
      && s.frames != [] && s.frames[|s.frames| - 1] == []
      && AreCut(mqtt, buf, readable, i, s.frames[..|s.frames| - 1], j) && (j < readable || j == i)
      && Declares(mqtt, buf, j) == Some(0)
  }

  lemma NoPiece(mqtt: bool, buf: Bytes, readable: nat, i: nat)
    ensures Overruns(mqtt, buf, i) ==> IsSplit(mqtt, buf, readable, i, Split([], Faulted), i)
    ensures Declares(mqtt, buf, i) == Some(0) ==> IsSplit(mqtt, buf, readable, i, Split([[]], Spinning), i)
  {
    var none: seq<Bytes> := [[]];
    assert none[..0] == [];
  }

  lemma LastPiece(mqtt: bool, buf: Bytes, readable: nat, i: nat, n: nat)
    requires n > 0 && i + n <= |buf| && Declares(mqtt, buf, i) == Some(n)
    ensures i + n >= readable ==> IsSplit(mqtt, buf, readable, i, Split([buf[i..i + n]], Finished), i + n)
    ensures i + n < readable && Overruns(mqtt, buf, i + n) ==> IsSplit(mqtt, buf, readable, i, Split([buf[i..i + n]], Faulted), i + n)
  {
    assert [buf[i..i + n]][1..] == [];
  }

  lemma PieceInFront(mqtt: bool, buf: Bytes, readable: nat, i: nat, n: nat, frames: seq<Bytes>, j: nat)
    requires n > 0 && i + n <= |buf| && i + n < readable && Declares(mqtt, buf, i) == Some(n)
    requires AreCut(mqtt, buf, readable, i + n, frames, j)
    ensures AreCut(mqtt, buf, readable, i, [buf[i..i + n]] + frames, j) && i < j
  {
    CutIsInOrder(mqtt, buf, readable, i + n, frames, j);
    assert ([buf[i..i + n]] + frames)[1..] == frames;
    hide Declares;
  }

  lemma OneMorePiece(mqtt: bool, buf: Bytes, readable: nat, i: nat, n: nat, s: Split, j: nat)
    requires n > 0 && i + n <= |buf| && i + n < readable && Declares(mqtt, buf, i) == Some(n)
    requires IsSplit(mqtt, buf, readable, i + n, s, j)
    ensures IsSplit(mqtt, buf, readable, i, Prepend(buf[i..i + n], s), j)
  {
    var f := buf[i..i + n];
    CutIsInOrder(mqtt, buf, readable, i + n, Cut(s), j);
    PieceInFront(mqtt, buf, readable, i, n, Cut(s), j);
    hide Declares, AreCut, Overruns;
    if s.end.Spinning? {
      var all := [f] + s.frames;
      assert all[..|all| - 1] == [f] + s.frames[..|s.frames| - 1];
    }
  }

  /** All but the empty piece that is read again and again. */
  function Cut(s: Split): seq<Bytes> {
    if s.end.Spinning? && s.frames != [] then s.frames[..|s.frames| - 1] else s.frames
  }

  lemma {:induction false} CutIsInOrder(mqtt: bool, buf: Bytes, readable: nat, i: nat, frames: seq<Bytes>, j: nat)
    requires AreCut(mqtt, buf, readable, i, frames, j)
    ensures i <= j && (i == j ==> frames == [])
    decreases |frames|
  {
    hide Declares, At;
    if frames != [] { CutIsInOrder(mqtt, buf, readable, i + |frames[0]|, frames[1..], j); }
  }

  lemma {:induction false} AmqpLoop(buf: Bytes, readable: nat, i: nat) returns (j: nat)
    requires i <= readable <= |buf| && i + 4 <= |buf|
    ensures IsSplit(false, buf, readable, i, AmqpFrom(buf, readable, i, IntAt(buf, i)), j)
    decreases readable - i
  {
    hide IntAt, IsSplit;
    var n := IntAt(buf, i);
    NoPiece(false, buf, readable, i);
    j := i;
    if n > 0 && i + n <= |buf| {
      j := i + n;
      LastPiece(false, buf, readable, i, n);
      if j < readable && j + 4 <= |buf| {
        var k := AmqpLoop(buf, readable, j);
        OneMorePiece(false, buf, readable, i, n, AmqpFrom(buf, readable, j, IntAt(buf, j)), k);
        j := k;
      }
    }
  }

  lemma {:induction false} MqttLoop(buf: Bytes, readable: nat, i: nat, n: int) returns (j: nat)
    requires i <= readable <= |buf| && Declares(true, buf, i) == Some(n) && n != 0
    ensures IsSplit(true, buf, readable, i, MqttFrom(buf, readable, i, n), j)
    decreases readable - i
  {
    hide DecodeLength, IsSplit;
    NoPiece(true, buf, readable, i);
    j := i;
    if n > 0 && i + n <= |buf| {
      j := i + n;
      LastPiece(true, buf, readable, i, n);
      if j < readable && j + 2 <= |buf| {
        var k := MqttLoop(buf, readable, j, NextLength(buf, j));
        OneMorePiece(true, buf, readable, i, n, MqttFrom(buf, readable, j, NextLength(buf, j)), k);
        j := k;
      }
    }
  }

  /** AMQP, on every buffer that does not open with "AMQP". */
  lemma AmqpSplits(buf: Bytes, readable: nat) returns (j: nat)
    requires readable <= |buf| && !([0x41, 0x4D, 0x51, 0x50] <= buf)
    ensures IsSplit(false, buf, readable, 0, AmqpReceived(buf, readable), j)
  {
    j := 0;
    if |buf| < 4 {
      NoPiece(false, buf, readable, 0);
    } else {
      NotMagic(buf);
      j := AmqpLoop(buf, readable, 0);
    }
    hide IntAt, IsSplit, AmqpFrom;
  }

  lemma NotMagic(buf: Bytes)
    requires 4 <= |buf|
    ensures IntAt(buf, 0) == AmqpDecoder.AMQP_MAGIC <==> [0x41, 0x4D, 0x51, 0x50] <= buf
  {
  }

  /** MQTT, on every buffer: a first packet that fills the read, and one behind another
      transport, is handed on with all that was received. */
  lemma MqttSplits(buf: Bytes, readable: nat, plainMqtt: bool) returns (j: nat)
    requires readable <= |buf|
    ensures var s, n := MqttReceived(buf, readable, plainMqtt), Declares(true, buf, 0);
      if n.None? then s == Split([], Faulted)
      else if plainMqtt && n.value < readable then IsSplit(true, buf, readable, 0, s, j)
      else s == Split([buf[..readable]], Finished)
  {
    j := 0;
    var details := DecodeLength(buf);
    if details.Some? && plainMqtt && details.value.length < readable {
      LengthIsNotZero(buf);
      j := MqttLoop(buf, readable, 0, details.value.length);
    }
    hide IsSplit, MqttFrom, DecodeLength;
  }
}
