/** Which cuts of a stream into reads deliver the frames, or the packets, it is made of. */
module Reads {
  import opened Octets
  import opened Framing
  import AmqpDecoder
  import MqttCodec

  /** Memory, and how much of it was received. */
  datatype Memory = Memory(buf: Bytes, readable: nat)

  /** One call of the receive function. */
  type Read = m: Memory | 0 < m.readable <= |m.buf| witness Memory([0], 1)

  function Taken(r: Read): Bytes {
    r.buf[..r.readable]
  }

  function Stream(all: seq<Read>): Bytes {
    if all == [] then [] else Taken(all[0]) + Stream(all[1..])
  }

  function Received(r: Read, mqtt: bool): Split {
    if mqtt then MqttReceived(r.buf, r.readable, true) else AmqpReceived(r.buf, r.readable)
  }

  /** The reads one after the other, as long as their loops end well. */
  function ReceivedAll(all: seq<Read>, mqtt: bool): Split {
    if all == [] then Split([], Finished)
    else
      var s := Received(all[0], mqtt);
      if s.end == Finished then After(s.frames, ReceivedAll(all[1..], mqtt)) else s
  }

  /** A frame of the protocol, of an AMQP one not so long that it reads as "AMQP". */
  predicate Whole(f: Bytes, mqtt: bool) {
    if mqtt then WholePacket(f) else WholeFrame(f) && |f| != AmqpDecoder.AMQP_MAGIC
  }

  /** The first `n` frames make up `s`, and are cut apart right when they arrive together. */
  predicate Fills(frames: seq<Bytes>, n: nat, s: Bytes, mqtt: bool) {
    0 < n <= |frames| && Flat(frames[..n]) == s && (mqtt ==> AllOneOctet(frames[..n][1..]))
  }

  /** Every read holds a number of whole frames. */
  ghost predicate Grouped(frames: seq<Bytes>, all: seq<Read>, mqtt: bool)
    decreases |all|
  {
    if all == [] then frames == []
    else exists n: nat :: Fills(frames, n, Taken(all[0]), mqtt) && Grouped(frames[n..], all[1..], mqtt)
  }

  lemma {:induction false} FlatSplits(frames: seq<Bytes>, n: nat)
    requires n <= |frames|
    ensures Flat(frames) == Flat(frames[..n]) + Flat(frames[n..])
    decreases n
  {
    if n == 0 {
      assert frames[..0] == [] && frames[0..] == frames;
    } else {
      FlatSplits(frames[1..], n - 1);
      assert frames[..n][1..] == frames[1..][..n - 1] && frames[1..][n - 1..] == frames[n..];
      Join(frames[0], Flat(frames[..n][1..]), Flat(frames[n..]));
    }
  }

  /** The loop from `i` on. */
  lemma {:induction false} MqttLoopSkipsNothing(buf: Bytes, readable: nat, i: nat, length: int)
    requires i <= readable && length != 0
    ensures var s := MqttFrom(buf, readable, i, length); s.end == Finished ==> i + |Flat(s.frames)| >= readable
    decreases readable - i
  {
    hide Flat, Prepend, NextLength;
    if length <= 0 || i + length > |buf| {
    } else {
      var j, frame := i + length, buf[i..i + length];
      FlatOne(frame);
      if j < readable && j + 2 <= |buf| {
        MqttLoopSkipsNothing(buf, readable, j, NextLength(buf, j));
        FlatPrepends(frame, MqttFrom(buf, readable, j, NextLength(buf, j)));
      }
    }
  }

  lemma FlatPrepends(frame: Bytes, s: Split)
    ensures |Flat(Prepend(frame, s).frames)| == |frame| + |Flat(s.frames)| && Prepend(frame, s).end == s.end
  {
    assert Prepend(frame, s).frames[1..] == s.frames;
  }

  /** A read that ends well hands on at least what was received. */
  lemma ReadSkipsNothing(r: Read, mqtt: bool)
    ensures var s := Received(r, mqtt); s.end == Finished ==> |Flat(s.frames)| >= r.readable
  {
    if mqtt {
      var details := MqttCodec.DecodeLength(r.buf);
      FlatOne(r.buf[..r.readable]);
      if details.Some? {
        LengthIsNotZero(r.buf);
        if details.value.length < r.readable { MqttLoopSkipsNothing(r.buf, r.readable, 0, details.value.length); }
      }
    } else {
      NothingIsSkipped(r.buf, r.readable);
    }
  }

  lemma {:induction false} ReadsSkipNothing(all: seq<Read>, mqtt: bool)
    ensures var s := ReceivedAll(all, mqtt); s.end == Finished ==> |Flat(s.frames)| >= |Stream(all)|
    decreases |all|
  {
    hide Received, Flat;
    if all == [] {
    } else {
      var s, rest := Received(all[0], mqtt), ReceivedAll(all[1..], mqtt);
      ReadSkipsNothing(all[0], mqtt);
      ReadsSkipNothing(all[1..], mqtt);
      FlatSplits(s.frames + rest.frames, |s.frames|);
      TakeAndDrop(s.frames, rest.frames);
    }
  }

  lemma TakeAndDrop<T>(a: seq<T>, b: seq<T>)
    ensures (a + b)[..|a|] == a && (a + b)[|a|..] == b
  {
  }

  /** A read of whole frames delivers them, for MQTT as long as their lengths are short. */
  lemma GroupIsDelivered(group: seq<Bytes>, r: Read, mqtt: bool)
    requires group != [] && Flat(group) == Taken(r) && forall k :: 0 <= k < |group| ==> Whole(group[k], mqtt)
    ensures Received(r, mqtt) == Split(group, Finished) <==> (mqtt ==> AllOneOctet(group[1..]))
  {
    assert At(r.buf, 0, Flat(group));
    if mqtt { PacketsAreDelivered(group, r.buf); } else { FramesAreDelivered(group, r.buf); }
  }

  lemma Cancels(s: Bytes, s': Bytes, t: Bytes, t': Bytes)
    requires s + s' == t + t' && |s| == |t|
    ensures s == t && s' == t'
  {
    TakeAndDrop(s, s');
    TakeAndDrop(t, t');
  }

  lemma {:induction false} GroupedIsDelivered(frames: seq<Bytes>, all: seq<Read>, mqtt: bool)
    requires (forall k :: 0 <= k < |frames| ==> Whole(frames[k], mqtt)) && Stream(all) == Flat(frames)
    requires Grouped(frames, all, mqtt)
    ensures ReceivedAll(all, mqtt) == Split(frames, Finished)
    decreases |all|
  {
    hide Received, Whole, Flat, Taken, AllOneOctet;
    if all == [] {
    } else {
      var n: nat :| Fills(frames, n, Taken(all[0]), mqtt) && Grouped(frames[n..], all[1..], mqtt);
      FlatSplits(frames, n);
      Cancels(Taken(all[0]), Stream(all[1..]), Flat(frames[..n]), Flat(frames[n..]));
      GroupIsDelivered(frames[..n], all[0], mqtt);
      GroupedIsDelivered(frames[n..], all[1..], mqtt);
      assert frames[..n] + frames[n..] == frames;
    }
  }

  lemma {:induction false} DeliveredIsGrouped(frames: seq<Bytes>, all: seq<Read>, mqtt: bool)
    requires (forall k :: 0 <= k < |frames| ==> Whole(frames[k], mqtt)) && Stream(all) == Flat(frames)
    requires ReceivedAll(all, mqtt) == Split(frames, Finished)
    ensures Grouped(frames, all, mqtt)
    decreases |all|
  {
    hide Received, Whole, Flat, AllOneOctet;
    if all == [] {
    } else {
      var s, rest := Received(all[0], mqtt), ReceivedAll(all[1..], mqtt);
      var n := |s.frames|;
      TakeAndDrop(s.frames, rest.frames);
      FlatSplits(frames, n);
      ReadSkipsNothing(all[0], mqtt);
      ReadsSkipNothing(all[1..], mqtt);
      Cancels(Taken(all[0]), Stream(all[1..]), Flat(frames[..n]), Flat(frames[n..]));
      SomeFrame(s.frames);
      GroupIsDelivered(frames[..n], all[0], mqtt);
      assert Fills(frames, n, Taken(all[0]), mqtt);
      DeliveredIsGrouped(frames[n..], all[1..], mqtt);
    }
  }

  lemma SomeFrame(frames: seq<Bytes>)
    ensures Flat(frames) != [] ==> frames != []
  {
  }

  /** However a stream of whole frames is cut into reads, they are handed on one by one, in
      order, exactly when every read holds whole frames only and, for MQTT, each but the
      first of a read has a remaining length of one octet.  Nothing joins two reads. */
  lemma CutsDeliver(frames: seq<Bytes>, all: seq<Read>, mqtt: bool)
    requires (forall k :: 0 <= k < |frames| ==> Whole(frames[k], mqtt)) && Stream(all) == Flat(frames)
    ensures ReceivedAll(all, mqtt) == Split(frames, Finished) <==> Grouped(frames, all, mqtt)
  {
    hide Whole, Stream, Flat, ReceivedAll, Grouped;
    if Grouped(frames, all, mqtt) { GroupedIsDelivered(frames, all, mqtt); }
    if ReceivedAll(all, mqtt) == Split(frames, Finished) { DeliveredIsGrouped(frames, all, mqtt); }
  }
}
