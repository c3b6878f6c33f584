/** `CopyBuffer::poll_copy` of clash-lib/src/common/io/mod.rs. */
module BufferCopy {
  import opened Basics
  import opened AbstractCopier
  import opened CopyStreams

  datatype CopyPoll = CopyReady(n: nat) | CopyFailed | CopyPending

  class CopyBuffer {
    var readDone: bool
    var needFlush: bool
    var pos: nat
    var cap: nat
    var amt: nat
    const buf: array<byte>
    // the abstract copy this one stands for, and the actions that led there
    ghost var acts: seq<Act>
    ghost var copy: Copy

    ghost predicate Valid()
      reads this, buf
    {
      && pos <= cap <= buf.Length
      && Leads(Start, acts, copy) && Faithful(copy)
      && InFlight(copy) == buf[pos..cap] && |copy.given| == amt
      && copy.ended == readDone && (copy.over || (copy.dirty <==> needFlush))
    }

    // The streams have seen exactly the bytes of this copy, and the end of the input was
    // noticed when it came.
    ghost predicate Joins(reader: Stream, writer: Stream)
      reads this, buf, reader`taken, reader`ended, writer`given, writer`unflushed
    {
      && Valid() && reader != writer
      && copy.taken == reader.taken && copy.given == writer.given && copy.dirty == writer.unflushed
      && (reader.ended <==> readDone && buf.Length > 0)
    }

    constructor (size: nat)
      ensures Valid() && fresh(buf) && buf.Length == size && copy == Start && acts == []
    {
      readDone, needFlush, pos, cap, amt := false, false, 0, 0, 0;
      buf := new byte[size](_ => 0);
      acts, copy := [], Start;
    }

    ghost method Do(act: Act)
      requires Leads(Start, acts, copy) && Faithful(copy) && Enabled(copy, act)
      modifies this`acts, this`copy
      ensures copy == Apply(old(copy), act) && acts == old(acts) + [act]
      ensures Leads(Start, acts, copy) && Faithful(copy)
    {
      OneMore(acts, copy, act);
      acts, copy := acts + [act], Apply(copy, act);
    }

    // Bytes came into the empty buffer.
    method Received(bytes: seq<byte>)
      requires Valid() && pos == cap && |bytes| <= buf.Length && !readDone && !copy.over
      modifies this, buf
      ensures Valid() && readDone == (bytes == []) && old(acts) <= acts
      ensures copy == Apply(old(copy), if bytes == [] then SeeEnd else Take(bytes))
    {
      if |bytes| == 0 {
        readDone := true;
        Do(SeeEnd);
      } else {
        forall i | 0 <= i < |bytes| { buf[i] := bytes[i]; }
        pos, cap := 0, |bytes|;
        assert buf[pos..cap] == bytes;
        TakeFills(copy, bytes);
        Do(Take(bytes));
      }
    }

    // Bytes of the buffer were written.
    method Sent(i: nat)
      requires Valid() && 0 < i <= cap - pos && !copy.over
      modifies this`pos, this`amt, this`needFlush, this`acts, this`copy
      ensures Valid() && pos == old(pos) + i && copy == Apply(old(copy), Give(i)) && old(acts) <= acts
    {
      assert buf[pos..cap][i..] == buf[pos + i..cap];
      pos, amt, needFlush := pos + i, amt + i, true;
      GiveShortens(copy, i);
      Do(Give(i));
    }

    // Empty buffer: read.  While the reader has nothing, flush what the writer holds.
    method Fill(reader: Stream, writer: Stream) returns (stop: Option<CopyPoll>)
      requires Joins(reader, writer) && pos == cap && !readDone && !copy.over && !writer.closing
      modifies this, buf, reader`readScript, reader`taken, reader`ended, reader`failures, reader`waits,
               writer`flushScript, writer`unflushed, writer`failures, writer`waits
      ensures Joins(reader, writer) && !copy.over && old(acts) <= acts
      ensures stop.None? && !readDone ==> Work(reader.readScript) < Work(old(reader.readScript))
      ensures stop.Some? ==> !stop.value.CopyReady?
      ensures stop.None? || !old(writer.unflushed) ==> writer.flushScript == old(writer.flushScript)
      ensures stop.Some? ==> pos == cap && !readDone
      ensures AtEnd(old(reader.readScript)) ==> stop.None? && readDone && pos == cap
      ensures old(Quiet(reader)) ==> stop == Some(CopyPending)
      ensures stop == Some(CopyPending) ==> FlushedOrHeld(writer)
      ensures buf.Length == 0 ==>
        && stop.None? && readDone && reader.taken == old(reader.taken) && reader.readScript == old(reader.readScript)
        && writer.flushScript == old(writer.flushScript)
      ensures Polled(reader, writer, stop == Some(CopyFailed), stop == Some(CopyPending), stop.None?)
    {
      var r := reader.PollRead(buf.Length);
      match r {
        case Got(bytes) =>
          Received(bytes);
          stop := None;
        case ReadError => stop := Some(CopyFailed);
        case NothingYet =>
          stop := FlushWhileIdle(reader, writer);
      }
    }

    method FlushWhileIdle(ghost reader: Stream, writer: Stream) returns (stop: Option<CopyPoll>)
      requires Joins(reader, writer) && !copy.over && !writer.closing
      modifies this`needFlush, this`acts, this`copy, writer`flushScript, writer`unflushed, writer`failures, writer`waits
      ensures Joins(reader, writer) && !copy.over && old(acts) <= acts
      ensures stop == Some(CopyPending) || stop == Some(CopyFailed)
      ensures stop == Some(CopyPending) ==> FlushedOrHeld(writer)
      ensures !old(needFlush) ==> stop == Some(CopyPending)
      ensures !old(writer.unflushed) ==> writer.flushScript == old(writer.flushScript)
      ensures Polled(reader, writer, stop == Some(CopyFailed), false, false)
    {
      if needFlush {
        var f := writer.PollFlush();
        match f {
          case Completed =>
            needFlush := false;
            Do(Flush);
          case NotYet => return Some(CopyPending);
          case Broken => return Some(CopyFailed);
        }
      }
      stop := Some(CopyPending);
    }

    // Write out what the buffer holds.
    method Drain(ghost reader: Stream, writer: Stream) returns (stop: Option<CopyPoll>)
      requires Joins(reader, writer) && !copy.over && !writer.closing
      modifies this`pos, this`amt, this`needFlush, this`acts, this`copy,
               writer`writeScript, writer`given, writer`unflushed, writer`failures, writer`waits
      ensures Joins(reader, writer) && !copy.over && old(acts) <= acts
      ensures stop.None? <==> pos == cap
      ensures stop.Some? ==> !stop.value.CopyReady?
      ensures old(pos) == cap ==> stop.None?
      ensures Polled(reader, writer, stop == Some(CopyFailed), stop == Some(CopyPending), stop.None?)
    {
      stop := None;
      while pos < cap && stop.None?
        invariant Joins(reader, writer) && !copy.over && old(acts) <= acts
        invariant stop.Some? ==> !stop.value.CopyReady? && pos < cap
        invariant old(pos) == cap ==> pos == cap && stop.None?
        invariant Polled(reader, writer, stop == Some(CopyFailed), stop == Some(CopyPending), stop.None?)
        decreases cap - pos, stop.None?
      {
        stop := WriteOnce(reader, writer);
      }
    }

    method WriteOnce(ghost reader: Stream, writer: Stream) returns (stop: Option<CopyPoll>)
      requires Joins(reader, writer) && pos < cap && !copy.over && !writer.closing
      modifies this`pos, this`amt, this`needFlush, this`acts, this`copy,
               writer`writeScript, writer`given, writer`unflushed, writer`failures, writer`waits
      ensures Joins(reader, writer) && !copy.over && old(acts) <= acts
      ensures stop.None? ==> pos > old(pos)
      ensures stop.Some? ==> !stop.value.CopyReady? && pos == old(pos)
      ensures Polled(reader, writer, stop == Some(CopyFailed), stop == Some(CopyPending), stop.None?)
    {
      var r := writer.PollWrite(buf[pos..cap]);
      match r {
        case NoRoom => stop := Some(CopyPending);
        case WriteError => stop := Some(CopyFailed);
        case Wrote(i) =>
          if i == 0 { return Some(CopyFailed); }
          Sent(i);
          stop := None;
      }
    }

    // Everything is written and the end was seen: flush, and the copy is over.
    method FlushAtEnd(ghost reader: Stream, writer: Stream) returns (r: CopyPoll)
      requires Joins(reader, writer) && pos == cap && readDone && !copy.over && !writer.closing
      modifies this`acts, this`copy, writer`flushScript, writer`unflushed, writer`failures, writer`waits
      ensures Joins(reader, writer) && old(acts) <= acts
      ensures r.CopyReady? <==> copy.over
      ensures r.CopyReady? <==> WillComplete(old(writer.flushScript))
      ensures r.CopyPending? ==> FlushedOrHeld(writer) && WillWait(old(writer.flushScript))
      ensures r.CopyReady? ==> r.n == amt
      ensures Polled(reader, writer, r.CopyFailed?, r.CopyPending?, r.CopyReady?)
    {
      var f := writer.PollFlush();
      match f {
        case NotYet => r := CopyPending;
        case Broken => r := CopyFailed;
        case Completed =>
          Do(Flush);
          Do(Finish);
          r := CopyReady(amt);
      }
    }

    // The buffer is empty, and the next polls are the end of the input and a flush.
    ghost predicate EndsNow(reader: Stream, writer: Stream)
      reads this, reader`readScript, writer`flushScript
    {
      buf.Length > 0 && pos == cap && !readDone && AtEnd(reader.readScript) && WillComplete(writer.flushScript)
    }

    // Nothing to write or flush, and nothing to read now.
    ghost predicate Quiet(reader: Stream)
      reads this, reader`readScript
    {
      buf.Length > 0 && pos == cap && !readDone && !needFlush && Silent(reader.readScript)
    }

    // The first two steps of a turn of `poll_copy`.
    method FillAndDrain(reader: Stream, writer: Stream) returns (stop: Option<CopyPoll>)
      requires Joins(reader, writer) && !copy.over && !writer.closing
      modifies this, buf, reader`readScript, reader`taken, reader`ended, reader`failures, reader`waits,
               writer`writeScript, writer`given, writer`unflushed, writer`flushScript, writer`failures, writer`waits
      ensures Joins(reader, writer) && !copy.over && old(acts) <= acts
      ensures stop.Some? ==> !stop.value.CopyReady?
      ensures stop.None? ==> pos == cap && (old(readDone) ==> readDone) && writer.flushScript == old(writer.flushScript)
      ensures stop.Some? && pos == cap ==> !readDone
      ensures old(EndsNow(reader, writer)) ==> stop.None? && readDone
      ensures old(Quiet(reader)) ==> stop == Some(CopyPending)
      ensures stop == Some(CopyPending) && pos == cap ==> FlushedOrHeld(writer)
      ensures stop.None? && !readDone && old(pos) == old(cap) ==> Work(reader.readScript) < Work(old(reader.readScript))
      ensures old(pos) != old(cap) ==> readDone == old(readDone) && reader.readScript == old(reader.readScript)
      ensures buf.Length == 0 ==>
        && stop.None? && readDone && reader.taken == old(reader.taken) && reader.readScript == old(reader.readScript)
        && writer.flushScript == old(writer.flushScript)
      ensures Polled(reader, writer, stop == Some(CopyFailed), stop == Some(CopyPending), stop.None?)
    {
      if pos == cap && !readDone {
        stop := Fill(reader, writer);
        if stop.Some? { return; }
      }
      stop := Drain(reader, writer);
    }

    /** `poll_copy`, for readers and writers that return anything at each poll.  Ready means
        that the end was seen and every byte was written in order and flushed; a failure
        is a poll that failed or wrote nothing; pending means that some poll was, and that
        what was written is flushed once the buffer is empty, unless that is what is pending. */
    method PollCopy(reader: Stream, writer: Stream) returns (r: CopyPoll)
      requires Joins(reader, writer) && !copy.over && !writer.closing
      modifies this, buf, reader`readScript, reader`taken, reader`ended, reader`failures, reader`waits,
               writer`writeScript, writer`given, writer`unflushed, writer`flushScript, writer`failures, writer`waits
      ensures Joins(reader, writer) && old(acts) <= acts
      ensures r.CopyReady? <==> copy.over
      ensures r.CopyPending? && pos == cap ==> FlushedOrHeld(writer)
      ensures old(EndsNow(reader, writer)) ==> r.CopyReady?
      ensures old(Quiet(reader)) ==> r.CopyPending?
      ensures r.CopyReady? ==> r.n == |writer.given| && writer.given == reader.taken && !writer.unflushed
      ensures r.CopyReady? ==> (reader.ended <==> buf.Length > 0)
      ensures buf.Length == 0 ==>
        && reader.taken == old(reader.taken) && reader.readScript == old(reader.readScript)
        && (r.CopyReady? <==> WillComplete(old(writer.flushScript)))
      ensures Polled(reader, writer, r.CopyFailed?, r.CopyPending?, r.CopyReady?)
    {
      while true
        invariant Joins(reader, writer) && !copy.over && old(acts) <= acts
        invariant Polled(reader, writer, false, false, true)
        invariant writer.flushScript == old(writer.flushScript)
        invariant old(EndsNow(reader, writer)) ==> EndsNow(reader, writer)
        invariant old(Quiet(reader)) ==> Quiet(reader)
        invariant buf.Length == 0 ==>
          && reader.taken == old(reader.taken) && reader.readScript == old(reader.readScript)
          && writer.flushScript == old(writer.flushScript)
        decreases !readDone, Work(reader.readScript), !(pos == cap)
      {
        var stop := FillAndDrain(reader, writer);
        if stop.Some? { return stop.value; }
        if pos == cap && readDone {
          r := FlushAtEnd(reader, writer);
          return;
        }
      }
    }
  }

  /** A buffer of size zero takes the empty read for the end: with bytes waiting and a writer
      that flushes, the copy reports success at once and has moved none of them. */
  method EmptyBufferGivesUp(waiting: seq<byte>) returns (r: CopyPoll, left: seq<ReadEvent>)
    requires waiting != []
    ensures r == CopyReady(0) && left == [Data(waiting)]
  {
    var reader := new Stream([Data(waiting)], [], [], []);
    var writer := new Stream([], [], [Completes], []);
    var b := new CopyBuffer(0);
    r := b.PollCopy(reader, writer);
    left := reader.readScript;
  }
}
