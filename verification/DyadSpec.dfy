/**
 What dyad.c promises about a stream: the lines cut out of what was received, and
 the bytes queued for sending.
 */
module DyadSpec {
  import opened Octets

  const NEWLINE: octet := 10
  const CARRIAGE_RETURN: octet := 13

  // ---- Lines ----

  function Strip(s: Bytes): Bytes {
    if s != [] && s[|s| - 1] == CARRIAGE_RETURN then s[..|s| - 1] else s
  }

  /** The lines that `s` ends, each without one trailing carriage return. */
  function Lines(s: Bytes): seq<Bytes> {
    if s == [] then []
    else
      var init, last := s[..|s| - 1], s[|s| - 1];
      if last == NEWLINE then Lines(init) + [Strip(Tail(init))] else Lines(init)
  }

  /** What follows the last newline. */
  function Tail(s: Bytes): Bytes {
    if s == [] || s[|s| - 1] == NEWLINE then [] else Tail(s[..|s| - 1]) + [s[|s| - 1]]
  }

  lemma OneMore(s: Bytes, b: octet)
    ensures Lines(s + [b]) == if b == NEWLINE then Lines(s) + [Strip(Tail(s))] else Lines(s)
    ensures Tail(s + [b]) == if b == NEWLINE then [] else Tail(s) + [b]
  {
    assert (s + [b])[..|s|] == s;
  }

  /** No octet is a line feed, U+000A. */
  predicate Plain(s: Bytes) {
    10 !in s
  }

  lemma {:induction false} PlainAppend(s: Bytes, t: Bytes)
    requires Plain(t)
    ensures Lines(s + t) == Lines(s) && Tail(s + t) == Tail(s) + t
    decreases |t|
  {
    if t == [] {
      assert s + t == s && Tail(s) + t == Tail(s);
    } else {
      hide Lines, Tail, Strip;
      var init, last := t[..|t| - 1], t[|t| - 1];
      assert t == init + [last];
      PlainAppend(s, init);
      OneMore(s + init, last);
      assert s + t == s + init + [last] && Tail(s) + t == Tail(s) + init + [last];
    }
  }

  /** Lines put together again, each with its line feed. */
  function Ended(raw: seq<Bytes>): Bytes {
    if raw == [] then [] else Ended(raw[..|raw| - 1]) + raw[|raw| - 1] + [10]
  }

  function Stripped(raw: seq<Bytes>): seq<Bytes> {
    if raw == [] then [] else Stripped(raw[..|raw| - 1]) + [Strip(raw[|raw| - 1])]
  }

  /** `raw` is the line, or the line and a carriage return, U+000D, that is its last octet. */
  predicate IsLineOf(line: Bytes, raw: Bytes) {
    raw == line + [13] || (raw == line && (raw == [] || raw[|raw| - 1] != 13))
  }

  lemma {:induction false} StrippedLines(raw: seq<Bytes>)
    ensures |Stripped(raw)| == |raw| && forall k :: 0 <= k < |raw| ==> IsLineOf(Stripped(raw)[k], raw[k])
  {
    if raw == [] {
    } else {
      var last := raw[|raw| - 1];
      StrippedLines(raw[..|raw| - 1]);
      assert last != [] ==> last == last[..|last| - 1] + [last[|last| - 1]];
    }
  }

  predicate AllPlain(raw: seq<Bytes>) {
    forall k :: 0 <= k < |raw| ==> Plain(raw[k])
  }

  /** The lines of a text are its newline-terminated lines and its tail is the rest. */
  lemma {:induction false} LinesOfText(raw: seq<Bytes>, rest: Bytes)
    requires AllPlain(raw) && Plain(rest)
    ensures Lines(Ended(raw) + rest) == Stripped(raw) && Tail(Ended(raw) + rest) == rest
    ensures |Stripped(raw)| == |raw| && forall k :: 0 <= k < |raw| ==> IsLineOf(Stripped(raw)[k], raw[k])
    decreases |raw|
  {
    StrippedLines(raw);
    hide Strip;
    if raw == [] {
      PlainAppend([], rest);
      assert [] + rest == rest;
    } else {
      hide Lines, Tail;
      var init, last := raw[..|raw| - 1], raw[|raw| - 1];
      LinesOfText(init, last);
      OneMore(Ended(init) + last, NEWLINE);
      PlainAppend(Ended(raw), rest);
      assert [] + rest == rest;
    }
  }

  /** The lines of `s` with nothing stripped from them. */
  function Raw(s: Bytes): seq<Bytes> {
    if s == [] then []
    else
      var init, last := s[..|s| - 1], s[|s| - 1];
      if last == NEWLINE then Raw(init) + [Tail(init)] else Raw(init)
  }

  /** Every sequence of octets is such a text. */
  lemma {:induction false} EveryInputIsText(s: Bytes)
    ensures AllPlain(Raw(s)) && Plain(Tail(s)) && s == Ended(Raw(s)) + Tail(s)
    decreases |s|
  {
    hide Strip;
    if s == [] {
    } else {
      var init, last := s[..|s| - 1], s[|s| - 1];
      EveryInputIsText(init);
      assert s == init + [last];
      if last == NEWLINE {
        assert Raw(s)[..|Raw(s)| - 1] == Raw(init);
      } else {
        assert Ended(Raw(s)) + (Tail(init) + [last]) == Ended(Raw(init)) + Tail(init) + [last];
      }
    }
  }

  lemma OneMoreRead(s: Bytes, data: Bytes, b: octet)
    requires Lines(s + data) == Lines(s) + Lines(Tail(s) + data) && Tail(s + data) == Tail(Tail(s) + data)
    ensures Lines(s + (data + [b])) == Lines(s) + Lines(Tail(s) + (data + [b]))
    ensures Tail(s + (data + [b])) == Tail(Tail(s) + (data + [b]))
  {
    hide Lines, Tail, Strip;
    var t := Tail(s);
    assert s + data + [b] == s + (data + [b]) && t + data + [b] == t + (data + [b]);
    OneMore(s + data, b);
    OneMore(t + data, b);
    var line := Strip(Tail(t + data));
    assert Lines(s) + Lines(t + data) + [line] == Lines(s) + (Lines(t + data) + [line]);
  }

  /** What was left over and the next read together yield what the whole yields. */
  lemma {:induction false} NextRead(s: Bytes, data: Bytes)
    ensures Lines(s + data) == Lines(s) + Lines(Tail(s) + data)
    ensures Tail(s + data) == Tail(Tail(s) + data)
    decreases |data|
  {
    hide Strip;
    if data == [] {
      EveryInputIsText(s);
      PlainAppend([], Tail(s));
      assert s + [] == s && [] + Tail(s) == Tail(s) && Tail(s) + [] == Tail(s);
    } else {
      hide Lines, Tail;
      var init, last := data[..|data| - 1], data[|data| - 1];
      NextRead(s, init);
      OneMoreRead(s, init, last);
      assert init + [last] == data;
    }
  }

  /** Events delivered and what is left in the buffer, after some reads. */
  datatype Reading = Reading(events: seq<Bytes>, buffer: Bytes)

  function Read(r: Reading, data: Bytes): Reading {
    Reading(r.events + Lines(r.buffer + data), Tail(r.buffer + data))
  }

  function ReadAll(chunks: seq<Bytes>): Reading {
    if chunks == [] then Reading([], []) else Read(ReadAll(chunks[..|chunks| - 1]), chunks[|chunks| - 1])
  }

  function Joined(chunks: seq<Bytes>): Bytes {
    if chunks == [] then [] else Joined(chunks[..|chunks| - 1]) + chunks[|chunks| - 1]
  }

  /** However the input is cut into reads, the events are the lines of the whole input
      and the buffer is its unterminated tail. */
  lemma {:induction false} ChunkingDoesNotMatter(chunks: seq<Bytes>)
    ensures ReadAll(chunks) == Reading(Lines(Joined(chunks)), Tail(Joined(chunks)))
    decreases |chunks|
  {
    if chunks == [] {
    } else {
      var init, last := chunks[..|chunks| - 1], chunks[|chunks| - 1];
      ChunkingDoesNotMatter(init);
      NextRead(Joined(init), last);
    }
  }

  // ---- The write queue ----

  datatype State = Connecting | Connected | Closing | Closed

  /**
   `written` is everything given to `dyad_write`, `accepted` what the socket took and
   `discarded` what was cleared when the stream was closed.
   */
  datatype Queue = Queue(
    state: State, buffer: Bytes, bytesSent: nat, flagWritten: bool, flagReady: bool,
    written: Bytes, accepted: Bytes, discarded: seq<Bytes>)

  /** A call, with what `send` answers it where it sends. */
  datatype Call =
    | Write(data: Bytes)
    | Flush(size: int, wouldBlock: bool)
    | End
    | Close

  /** `dyad_close`; what is still in the buffer is cleared. */
  function Shut(q: Queue): Queue {
    if q.state == Closed then q else q.(state := Closed, buffer := [], discarded := q.discarded + [q.buffer])
  }

  /** `stream_flushWriteBuffer`. */
  function Flushed(q: Queue, size: int, wouldBlock: bool): Queue
    requires size <= |q.buffer|
  {
    var q' := q.(flagWritten := false);
    if |q.buffer| > 0 && size <= 0 then (if wouldBlock then q' else Shut(q'))
    else if |q.buffer| > 0 then
      Emptied(q'.(buffer := q.buffer[size..], bytesSent := q.bytesSent + size, accepted := q.accepted + q.buffer[..size]))
    else Emptied(q')
  }

  function Emptied(q: Queue): Queue {
    if q.buffer != [] then q
    else if q.state == Closing then Shut(q)
    else q.(flagReady := true)
  }

  /** `send` takes no more than it is given, and a closed stream is not flushed. */
  predicate Enabled(q: Queue, c: Call) {
    c.Flush? ==> c.size <= |q.buffer| && q.state != Closed
  }

  function Next(q: Queue, c: Call): Queue
    requires Enabled(q, c)
  {
    match c
    case Write(data) => q.(buffer := q.buffer + data, written := q.written + data, flagWritten := true)
    case Flush(size, wouldBlock) => Flushed(q, size, wouldBlock)
    case End => if q.state == Closed then q else if q.buffer != [] then q.(state := Closing) else Shut(q)
    case Close => Shut(q)
  }

  function NewQueue(): Queue {
    Queue(Connecting, [], 0, false, false, [], [], [])
  }

  /** `run[k + 1]` follows from `run[k]` by `calls[k]`. */
  ghost predicate IsRun(run: seq<Queue>, calls: seq<Call>) {
    && |run| == |calls| + 1 && run[0].state != Closed
    && run[0] == NewQueue().(state := run[0].state)
    && forall k :: 0 <= k < |calls| ==> Enabled(run[k], calls[k]) && run[k + 1] == Next(run[k], calls[k])
  }

  /** While the stream is open the bytes the socket took and the bytes in the buffer
      are the bytes written, in order; a closed stream has discarded one stretch. */
  ghost predicate Conserved(q: Queue) {
    && q.bytesSent == |q.accepted|
    && if q.state == Closed then
         |q.discarded| == 1 && q.accepted + q.discarded[0] + q.buffer == q.written
       else q.discarded == [] && q.accepted + q.buffer == q.written
  }

  lemma ShutConserves(q: Queue)
    requires Conserved(q) && q.state != Closed
    ensures Conserved(Shut(q))
  {
    assert q.accepted + q.buffer + [] == q.accepted + q.buffer;
    assert Shut(q).discarded == [q.buffer];
  }

  lemma FlushConserves(q: Queue, size: int, wouldBlock: bool)
    requires Conserved(q) && Enabled(q, Flush(size, wouldBlock))
    ensures Conserved(Flushed(q, size, wouldBlock))
  {
    hide Shut;
    var q' := q.(flagWritten := false);
    if |q.buffer| > 0 && size > 0 {
      var taken, left := q.buffer[..size], q.buffer[size..];
      assert taken + left == q.buffer && q.accepted + taken + left == q.accepted + (taken + left);
      q' := q'.(buffer := left, bytesSent := q.bytesSent + size, accepted := q.accepted + taken);
    }
    ShutConserves(q');
  }

  lemma NextConserves(q: Queue, c: Call)
    requires Conserved(q) && Enabled(q, c)
    ensures Conserved(Next(q, c))
  {
    hide Flushed, Shut;
    if q.state != Closed { ShutConserves(q); }
    match c {
      case Write(data) => WriteConserves(q, data);
      case Flush(size, wouldBlock) => FlushConserves(q, size, wouldBlock);
      case End => ClosedStays(q);
      case Close => ClosedStays(q);
    }
  }

  lemma ClosedStays(q: Queue)
    ensures q.state == Closed ==> Shut(q) == q
  {
  }

  lemma WriteConserves(q: Queue, data: Bytes)
    requires Conserved(q)
    ensures Conserved(Next(q, Write(data)))
  {
    var sent := if q.state == Closed then q.accepted + q.discarded[0] else q.accepted;
    assert sent + q.buffer + data == sent + (q.buffer + data);
  }

  /** Conservation over every interleaving of writes, partial sends, ends and closes. */
  lemma {:induction false} BytesAreConserved(run: seq<Queue>, calls: seq<Call>, k: nat)
    requires IsRun(run, calls) && k < |run|
    ensures Conserved(run[k])
    decreases k
  {
    if k == 0 {
    } else {
      BytesAreConserved(run, calls, k - 1);
      NextConserves(run[k - 1], calls[k - 1]);
    }
  }

  /** The call cuts the stream off: an immediate close, or a send that failed. */
  predicate CutsOff(q: Queue, c: Call) {
    c.Close? || (c.Flush? && q.buffer != [] && c.size <= 0 && !c.wouldBlock)
  }

  /** A flush closes the stream exactly when a send failed, or when the stream was
      closing and all that was written has now been taken. */
  lemma FlushClosesWhenDone(q: Queue, size: int, wouldBlock: bool)
    requires Conserved(q) && Enabled(q, Flush(size, wouldBlock))
    ensures var q' := Next(q, Flush(size, wouldBlock));
      q'.state == Closed <==>
        CutsOff(q, Flush(size, wouldBlock)) || (q.state == Closing && q'.accepted == q.written)
  {
    NextConserves(q, Flush(size, wouldBlock));
    var q' := Next(q, Flush(size, wouldBlock));
    assert q.accepted + [] == q.accepted;
    if q.buffer != [] {
      assert |q.written| == |q.accepted| + |q.buffer|;
      if size > 0 {
        assert |q'.accepted| == |q.accepted| + size;
        if size == |q.buffer| { assert q.buffer[..size] == q.buffer; }
      } else {
        assert q'.accepted == q.accepted;
      }
    }
  }

  /** A closed stream discarded nothing, or the call that closed it cut it off. */
  ghost predicate EndedWell(q: Queue) {
    q.state == Closed ==> q.discarded == [[]]
  }

  lemma NextEndsWell(q: Queue, c: Call)
    requires Enabled(q, c) && Conserved(q) && EndedWell(q) && !CutsOff(q, c)
    ensures EndedWell(Next(q, c))
  {
    assert [] + [q.buffer] == [q.buffer];
  }

  /** Without a close and without a failed send, all that was written before the stream
      was closed has been taken, after any number of partial sends. */
  lemma {:induction false} GracefulRunLosesNothing(run: seq<Queue>, calls: seq<Call>, k: nat)
    requires IsRun(run, calls) && k < |run|
    requires forall j :: 0 <= j < k ==> !CutsOff(run[j], calls[j])
    ensures EndedWell(run[k]) && run[k].accepted + run[k].buffer == run[k].written
    decreases k
  {
    BytesAreConserved(run, calls, k);
    if k == 0 {
    } else {
      GracefulRunLosesNothing(run, calls, k - 1);
      BytesAreConserved(run, calls, k - 1);
      NextEndsWell(run[k - 1], calls[k - 1]);
    }
    assert run[k].accepted + [] == run[k].accepted;
  }
}
