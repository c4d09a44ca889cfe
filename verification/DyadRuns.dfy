/** What becomes of a stream over a whole run of calls. */
module DyadRuns {
  import opened Octets
  import opened DyadSpec

  /** All that was given to `dyad_write`. */
  function Given(calls: seq<Call>): Bytes {
    if calls == [] then []
    else
      var last := calls[|calls| - 1];
      Given(calls[..|calls| - 1]) + if last.Write? then last.data else []
  }

  /** How many bytes `send` has taken. */
  function Taken(run: seq<Queue>, calls: seq<Call>, j: nat): int
    requires j <= |run| && j <= |calls|
  {
    if j == 0 then 0
    else
      var c := calls[j - 1];
      Taken(run, calls, j - 1) + if c.Flush? && c.size > 0 && run[j - 1].accepted != run[j - 1].written then c.size else 0
  }

  ghost predicate EndedBefore(run: seq<Queue>, calls: seq<Call>, j: nat)
    requires |run| > 0 && j <= |calls|
  {
    run[0].state == Closing || exists i: nat :: i < j && calls[i].End?
  }

  /** Call `k` closes an open stream: an immediate close, a send that fails, an end when
      all that was written has been taken, or the flush after an end that takes the last. */
  ghost predicate ClosesAt(run: seq<Queue>, calls: seq<Call>, k: nat)
    requires k < |calls| && |run| == |calls| + 1
  {
    match calls[k]
    case Write(_) => false
    case Close => true
    case End => run[k].accepted == run[k].written
    case Flush(size, wouldBlock) =>
      if size <= 0 && run[k].accepted != run[k].written then !wouldBlock
      else EndedBefore(run, calls, k) && run[k + 1].accepted == run[k].written
  }

  ghost predicate ClosedBefore(run: seq<Queue>, calls: seq<Call>, j: nat)
    requires j <= |calls| && |run| == |calls| + 1
  {
    exists k: nat :: k < j && ClosesAt(run, calls, k)
  }

  lemma EndedNext(run: seq<Queue>, calls: seq<Call>, j: nat)
    requires |run| > 0 && 0 < j <= |calls|
    ensures EndedBefore(run, calls, j) <==> EndedBefore(run, calls, j - 1) || calls[j - 1].End?
  {
  }

  lemma ClosedNext(run: seq<Queue>, calls: seq<Call>, j: nat)
    requires 0 < j <= |calls| && |run| == |calls| + 1
    ensures ClosedBefore(run, calls, j) <==> ClosedBefore(run, calls, j - 1) || ClosesAt(run, calls, j - 1)
  {
    hide ClosesAt;
  }

  lemma AllTaken(q: Queue)
    requires Conserved(q) && q.state != Closed
    ensures q.accepted == q.written <==> q.buffer == []
  {
    assert |q.written| == |q.accepted| + |q.buffer|;
    assert q.accepted + [] == q.accepted;
  }

  /** The state after each call: closed exactly from the first closing call on, closing
      once the stream has been ended, and otherwise as it was made. */
  lemma {:induction false} StateOverRun(run: seq<Queue>, calls: seq<Call>, j: nat)
    requires IsRun(run, calls) && j <= |calls|
    ensures run[j].state ==
      if ClosedBefore(run, calls, j) then Closed
      else if EndedBefore(run, calls, j) then Closing
      else run[0].state
    decreases j
  {
    if j == 0 {
    } else {
      hide ClosedBefore, EndedBefore, ClosesAt, Next, Enabled, Conserved;
      StateOverRun(run, calls, j - 1);
      ClosedNext(run, calls, j);
      EndedNext(run, calls, j);
      BytesAreConserved(run, calls, j - 1);
      BytesAreConserved(run, calls, j);
      StateStep(run, calls, j - 1);
    }
  }

  lemma StateStep(run: seq<Queue>, calls: seq<Call>, k: nat)
    requires IsRun(run, calls) && k < |calls| && Conserved(run[k])
    requires run[k].state == if run[k].state == Closed then Closed else if EndedBefore(run, calls, k) then Closing else run[0].state
    ensures run[k].state == Closed ==> run[k + 1].state == Closed
    ensures run[k].state != Closed ==>
      run[k + 1].state == if ClosesAt(run, calls, k) then Closed else if calls[k].End? then Closing else run[k].state
  {
    var q, c := run[k], calls[k];
    assert run[k + 1] == Next(q, c);
    if q.state != Closed {
      AllTaken(q);
      if c.Flush? { FlushClosesWhenDone(q, c.size, c.wouldBlock); }
    }
  }

  /** What was written is what was given, and as much of it has been taken as `send` said. */
  lemma {:induction false} TrafficOverRun(run: seq<Queue>, calls: seq<Call>, j: nat)
    requires IsRun(run, calls) && j <= |calls|
    ensures run[j].written == Given(calls[..j]) && |run[j].accepted| == run[j].bytesSent == Taken(run, calls, j)
    decreases j
  {
    hide Conserved;
    BytesAreConserved(run, calls, j);
    if j == 0 {
    } else {
      TrafficOverRun(run, calls, j - 1);
      BytesAreConserved(run, calls, j - 1);
      assert calls[..j][..j - 1] == calls[..j - 1];
      TrafficStep(run, calls, j - 1);
    }
  }

  lemma TrafficStep(run: seq<Queue>, calls: seq<Call>, k: nat)
    requires IsRun(run, calls) && k < |calls| && Conserved(run[k])
    ensures run[k + 1].written == run[k].written + if calls[k].Write? then calls[k].data else []
    ensures run[k + 1].bytesSent == run[k].bytesSent +
      if calls[k].Flush? && calls[k].size > 0 && run[k].accepted != run[k].written then calls[k].size else 0
  {
    var q := run[k];
    assert run[k + 1] == Next(q, calls[k]) && q.written + [] == q.written;
    if q.state != Closed { AllTaken(q); }
  }

  /** A write that no flush has followed. */
  ghost predicate WrittenSince(calls: seq<Call>, j: nat)
    requires j <= |calls|
  {
    exists k: nat :: k < j && calls[k].Write? && NoFlush(calls, k, j)
  }

  predicate NoFlush(calls: seq<Call>, k: nat, j: nat)
    requires j <= |calls|
  {
    forall m :: k < m < j ==> !calls[m].Flush?
  }

  /** A flush that left an open stream with everything taken. */
  ghost predicate ReadyBefore(run: seq<Queue>, calls: seq<Call>, j: nat)
    requires j <= |calls| && |run| == |calls| + 1
  {
    exists k: nat :: k < j && calls[k].Flush? && run[k + 1].state != Closed && run[k + 1].accepted == run[k + 1].written
  }

  /** The two flags: WRITTEN from a write to the next flush, READY from the first flush on
      that leaves nothing to send. */
  lemma {:induction false} FlagsOverRun(run: seq<Queue>, calls: seq<Call>, j: nat)
    requires IsRun(run, calls) && j <= |calls|
    ensures run[j].flagWritten <==> WrittenSince(calls, j)
    ensures run[j].flagReady <==> ReadyBefore(run, calls, j)
    decreases j
  {
    if j == 0 {
    } else {
      hide Next, Conserved, Enabled;
      FlagsOverRun(run, calls, j - 1);
      BytesAreConserved(run, calls, j - 1);
      BytesAreConserved(run, calls, j);
      FlagsStep(run, calls, j - 1);
      WrittenNext(calls, j);
      ReadyNext(run, calls, j);
    }
  }

  lemma WrittenNext(calls: seq<Call>, j: nat)
    requires 0 < j <= |calls|
    ensures WrittenSince(calls, j) <==> calls[j - 1].Write? || (!calls[j - 1].Flush? && WrittenSince(calls, j - 1))
  {
    if calls[j - 1].Write? {
      assert NoFlush(calls, j - 1, j);
    } else if WrittenSince(calls, j - 1) && !calls[j - 1].Flush? {
      var k: nat :| k < j - 1 && calls[k].Write? && NoFlush(calls, k, j - 1);
      assert NoFlush(calls, k, j);
    }
    if WrittenSince(calls, j) && !calls[j - 1].Write? {
      var k: nat :| k < j && calls[k].Write? && NoFlush(calls, k, j);
      assert k < j - 1 && NoFlush(calls, k, j - 1);
    }
  }

  lemma ReadyNext(run: seq<Queue>, calls: seq<Call>, j: nat)
    requires 0 < j <= |calls| && |run| == |calls| + 1
    ensures ReadyBefore(run, calls, j) <==>
      ReadyBefore(run, calls, j - 1)
      || (calls[j - 1].Flush? && run[j].state != Closed && run[j].accepted == run[j].written)
  {
  }

  lemma FlagsStep(run: seq<Queue>, calls: seq<Call>, k: nat)
    requires IsRun(run, calls) && k < |calls| && Conserved(run[k]) && Conserved(run[k + 1])
    ensures run[k + 1].flagWritten <==> calls[k].Write? || (!calls[k].Flush? && run[k].flagWritten)
    ensures run[k + 1].flagReady <==>
      run[k].flagReady || (calls[k].Flush? && run[k + 1].state != Closed && run[k + 1].accepted == run[k + 1].written)
  {
    var q, c := run[k], calls[k];
    assert run[k + 1] == Next(q, c);
    if q.state != Closed { AllTaken(q); }
    if run[k + 1].state != Closed { AllTaken(run[k + 1]); }
  }
}
