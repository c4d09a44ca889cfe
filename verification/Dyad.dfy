/** The vectors and streams of dyad.c, proved against DyadSpec. */
module Dyad {
  import opened Octets
  import opened DyadSpec

  class Vec {
    var data: array<octet>
    var length: nat

    ghost predicate Valid()
      reads this
    {
      length <= data.Length
    }

    ghost function Contents(): Bytes
      requires Valid()
      reads this, data
    {
      data[..length]
    }

    constructor ()
      ensures Valid() && Contents() == [] && fresh(data)
    {
      data, length := new octet[0], 0;
    }

    /** `vec_expand`. */
    method Expand()
      requires Valid()
      modifies this`data
      ensures Valid() && length < data.Length && Contents() == old(Contents())
      ensures data == old(data) || fresh(data)
    {
      if length + 1 > data.Length {
        var capacity := if data.Length == 0 then 1 else data.Length * 2;
        var bigger := new octet[capacity];
        forall k | 0 <= k < data.Length {
          bigger[k] := data[k];
        }
        data := bigger;
      }
    }

    /** `vec_push`. */
    method Push(value: octet)
      requires Valid()
      modifies this, data
      ensures Valid() && Contents() == old(Contents()) + [value]
      ensures data == old(data) || fresh(data)
    {
      Expand();
      data[length] := value;
      length := length + 1;
    }

    method PushAll(values: Bytes)
      requires Valid()
      modifies this, data
      ensures Valid() && Contents() == old(Contents()) + values
      ensures data == old(data) || fresh(data)
    {
      ghost var was := Contents();
      for i := 0 to |values|
        invariant Valid() && Contents() == was + values[..i]
        invariant data == old(data) || fresh(data)
      {
        Push(values[i]);
      }
    }

    /** `vec_splice`: takes out `count` elements from `start` on. */
    method Splice(start: nat, count: nat)
      requires Valid() && start + count <= length
      modifies this`length, data
      ensures Valid() && data == old(data)
      ensures Contents() == old(Contents()[..start] + Contents()[start + count..])
    {
      forall k | start <= k < length - count {
        data[k] := data[k + count];
      }
      length := length - count;
    }

    method Clear()
      requires Valid()
      modifies this`length
      ensures Valid() && Contents() == []
    {
      length := 0;
    }
  }

  class Stream {
    const lineBuffer: Vec
    const writeBuffer: Vec
    var state: State
    var bytesSent: nat
    var flagWritten: bool
    var flagReady: bool
    var events: seq<Bytes>              // the LINE events emitted
    ghost var written: Bytes
    ghost var accepted: Bytes
    ghost var discarded: seq<Bytes>

    ghost predicate Valid()
      reads this, lineBuffer, writeBuffer
    {
      && lineBuffer != writeBuffer && lineBuffer.data != writeBuffer.data
      && lineBuffer.Valid() && writeBuffer.Valid()
    }

    ghost function Repr(): set<object>
      reads this, lineBuffer, writeBuffer
    {
      {this, lineBuffer, lineBuffer.data, writeBuffer, writeBuffer.data}
    }

    ghost function ToReading(): Reading
      requires Valid()
      reads this, lineBuffer, lineBuffer.data, writeBuffer, writeBuffer.data
    {
      Reading(events, lineBuffer.Contents())
    }

    ghost function ToQueue(): Queue
      requires Valid()
      reads this, lineBuffer, lineBuffer.data, writeBuffer, writeBuffer.data
    {
      Queue(state, writeBuffer.Contents(), bytesSent, flagWritten, flagReady, written, accepted, discarded)
    }

    constructor ()
      ensures Valid() && fresh(Repr()) && ToQueue() == NewQueue() && ToReading() == Reading([], [])
    {
      var lines := new Vec();
      var writes := new Vec();
      lineBuffer, writeBuffer := lines, writes;
      state, bytesSent, flagWritten, flagReady, events := Connecting, 0, false, false, [];
      written, accepted, discarded := [], [], [];
    }

    // ---- Reading ----

    /** The part of `stream_handleReceivedData` after a successful `recv` and the DATA
        event, for a stream that someone listens to the lines of. */
    method HandleReceivedData(data: Bytes)
      requires Valid()
      modifies Repr()
      ensures Valid() && fresh(Repr() - old(Repr()))
      ensures ToReading() == if old(state) == Connected then Read(old(ToReading()), data) else old(ToReading())
      ensures ToQueue() == old(ToQueue())
    {
      if state != Connected { return; }
      TakeLines(data);
    }

    /** The part for the LINE events. */
    method TakeLines(data: Bytes)
      requires Valid()
      modifies Repr()
      ensures Valid() && fresh(Repr() - old(Repr()))
      ensures ToReading() == Read(old(ToReading()), data)
      ensures ToQueue() == old(ToQueue())
    {
      hide Lines, Tail;
      ghost var text := lineBuffer.Contents() + data;
      lineBuffer.PushAll(data);
      var start := EmitLines();
      ghost var tail := lineBuffer.Contents()[start..];
      if start == lineBuffer.length {
        lineBuffer.Clear();
      } else {
        lineBuffer.Splice(0, start);
        assert [] + tail == tail;
      }
      assert lineBuffer.Contents() == Tail(text);
    }

    /** The loop over the line buffer: terminates each line in place and emits it. */
    method EmitLines() returns (start: nat)
      requires Valid()
      modifies this`events, lineBuffer.data
      ensures Valid() && start <= lineBuffer.length
      ensures events == old(events) + Lines(old(lineBuffer.Contents()))
      ensures lineBuffer.Contents()[start..] == Tail(old(lineBuffer.Contents()))
    {
      hide Lines, Tail;
      ghost var text := lineBuffer.Contents();
      var buf := lineBuffer.data;
      start := 0;
      NothingYet(events);
      for i := 0 to lineBuffer.length
        invariant start <= i && buf == lineBuffer.data
        invariant forall k :: start <= k < lineBuffer.length ==> buf[k] == text[k]
        invariant text[start..i] == Tail(text[..i])
        invariant events == old(events) + Lines(text[..i])
      {
        OneMore(text[..i], text[i]);
        assert text[..i + 1] == text[..i] + [text[i]];
        if buf[i] == NEWLINE {
          assert buf[start..i] == text[start..i];
          buf[i] := 0;
          var size := i - start;
          if size > 0 && buf[start + size - 1] == CARRIAGE_RETURN {
            size := size - 1;
            buf[start + size] := 0;
          }
          assert buf[start..start + size] == Strip(text[start..i]);
          ghost var before := events;
          events := events + [buf[start..start + size]];
          start := i + 1;
          assert old(events) + Lines(text[..i]) + [Strip(Tail(text[..i]))] == old(events) + (Lines(text[..i]) + [Strip(Tail(text[..i]))]);
        } else {
          assert text[start..i + 1] == text[start..i] + [text[i]];
        }
      }
      assert text[..lineBuffer.length] == text;
    }

    static lemma NothingYet(events: seq<Bytes>)
      ensures Tail([]) == [] && events + Lines([]) == events
    {
    }

    // ---- Writing ----

    /** `dyad_write`. */
    method Write(data: Bytes)
      requires Valid()
      modifies Repr()
      ensures Valid() && fresh(Repr() - old(Repr()))
      ensures ToQueue() == Next(old(ToQueue()), DyadSpec.Write(data))
      ensures ToReading() == old(ToReading())
    {
      writeBuffer.PushAll(data);
      flagWritten := true;
      written := written + data;
    }

    /** `dyad_close`, without its event. */
    method Close()
      requires Valid()
      modifies Repr()
      ensures Valid() && Repr() == old(Repr())
      ensures ToQueue() == Shut(old(ToQueue()))
      ensures events == old(events)
      ensures lineBuffer.Contents() == if old(state) == Closed then old(lineBuffer.Contents()) else []
    {
      if state == Closed { return; }
      state := Closed;
      discarded := discarded + [writeBuffer.Contents()];
      lineBuffer.Clear();
      writeBuffer.Clear();
    }

    /** `dyad_end`. */
    method End()
      requires Valid()
      modifies Repr()
      ensures Valid() && Repr() == old(Repr())
      ensures ToQueue() == Next(old(ToQueue()), DyadSpec.End)
      ensures events == old(events)
    {
      if state == Closed { return; }
      if writeBuffer.length > 0 {
        state := Closing;
      } else {
        Close();
      }
    }

    /** `stream_flushWriteBuffer`; `size` and `wouldBlock` are the answer of `send`. */
    method FlushWriteBuffer(size: int, wouldBlock: bool) returns (more: bool)
      requires Valid() && size <= writeBuffer.length && state != Closed
      modifies Repr()
      ensures Valid() && Repr() == old(Repr())
      ensures ToQueue() == Next(old(ToQueue()), Flush(size, wouldBlock))
      ensures more <==> state != Closed && (old(writeBuffer.length) > 0 ==> size > 0)
      ensures events == old(events)
    {
      flagWritten := false;
      if writeBuffer.length > 0 {
        if size <= 0 {
          if wouldBlock { return false; }
          Close();
          return false;
        }
        ghost var sent := writeBuffer.Contents()[..size];
        if size == writeBuffer.length {
          writeBuffer.Clear();
        } else {
          writeBuffer.Splice(0, size);
        }
        bytesSent := bytesSent + size;
        accepted := accepted + sent;
      }
      if writeBuffer.length == 0 {
        if state == Closing {
          Close();
          return false;
        }
        flagReady := true;
      }
      return true;
    }
  }
}
