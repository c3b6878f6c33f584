/** The pipe-backed `CopyBuffer` of clash-lib/src/common/io/splice.rs.  Bytes stay in a
    kernel pipe; the fields only count them. */
module PipeCopy {
  import opened Basics
  import opened AbstractCopier
  import opened CopyStreams
  import opened BufferCopy

  const PipeSize: nat := 65536

  class PipeBuffer {
    var readDone: bool
    var needFlush: bool
    var pos: nat
    var cap: nat
    var amt: nat
    var pipe: seq<byte>
    ghost var acts: seq<Act>
    ghost var copy: Copy

    /** The pipe holds what was read and not yet written, and `cap - pos` is its length. */
    ghost predicate Valid()
      reads this
    {
      && pos <= cap && |pipe| == cap - pos
      && Leads(Start, acts, copy) && Faithful(copy)
      && InFlight(copy) == pipe && |copy.given| == amt
      && copy.ended == readDone && (copy.over || (copy.dirty <==> needFlush))
    }

    ghost predicate Joins(reader: Stream, writer: Stream)
      reads this, reader`taken, reader`ended, writer`given, writer`unflushed
    {
      && Valid() && reader != writer
      && copy.taken == reader.taken && copy.given == writer.given && copy.dirty == writer.unflushed
      && reader.ended == readDone
    }

    constructor ()
      ensures Valid() && copy == Start && acts == []
    {
      readDone, needFlush, pos, cap, amt, pipe := false, false, 0, 0, 0, [];
      acts, copy := [], Start;
    }

    ghost method Do(act: Act)
      requires Leads(Start, acts, copy) && Faithful(copy) && Enabled(copy, act)
      modifies this`acts, this`copy
      ensures copy == Apply(old(copy), act) && acts == old(acts) + [act]
      ensures Leads(Start, acts, copy) && Faithful(copy)
    {
      OneMore(acts, copy, act);
      acts, copy := acts + [act], Apply(copy, act);
    }

    // Bytes came into the empty pipe.
    method Received(bytes: seq<byte>)
      requires Valid() && pos == cap == 0 && !readDone && !copy.over
      modifies this`pipe, this`readDone, this`cap, this`acts, this`copy
      ensures Valid() && cap == |bytes| && readDone == (bytes == []) && pos == 0
      ensures copy == Apply(old(copy), if bytes == [] then SeeEnd else Take(bytes)) && old(acts) <= acts
    {
      pipe := pipe + bytes;
      if cap == |bytes| {
        readDone := true;
        Do(SeeEnd);
      } else {
        TakeFills(copy, bytes);
        Do(Take(bytes));
      }
      cap := |bytes|;
    }

    // Bytes went out of the pipe.
    method Sent(size: nat)
      requires Valid() && 0 < size <= |pipe| && !copy.over
      modifies this`pipe, this`pos, this`amt, this`needFlush, this`acts, this`copy
      ensures Valid() && pos == old(pos) + size && copy == Apply(old(copy), Give(size)) && old(acts) <= acts
    {
      pipe := pipe[size..];
      pos, amt, needFlush := pos + size, amt + size, true;
      GiveShortens(copy, size);
      Do(Give(size));
    }

    /** `poll_fill_buf`: tries until the kernel moves bytes into the pipe.  The end is noticed
        exactly when none are moved. */
    method PollFill(reader: Stream, ghost writer: Stream) returns (stop: Option<CopyPoll>)
      requires Joins(reader, writer) && pos == cap == 0 && !readDone && !copy.over
      modifies this, reader`readScript, reader`taken, reader`ended, reader`failures, reader`waits
      ensures Joins(reader, writer) && !copy.over && old(acts) <= acts
      ensures stop.None? ==> (readDone <==> cap == 0)
      ensures AtEnd(old(reader.readScript)) ==> stop.None? && readDone
      ensures Silent(old(reader.readScript)) ==> stop == Some(CopyPending)
      ensures stop.Some? ==> needFlush == old(needFlush)
      ensures stop.None? && !readDone ==> Work(reader.readScript) < Work(old(reader.readScript))
      ensures stop.Some? ==> !stop.value.CopyReady? && copy == old(copy) && pos == cap == 0 && !readDone
      ensures Polled(reader, writer, stop == Some(CopyFailed), stop == Some(CopyPending), stop.None?)
    {
      var r := reader.PollRead(PipeSize);
      match r {
        case Got(bytes) =>
          Received(bytes);
          stop := None;
        case NothingYet => stop := Some(CopyPending);
        case ReadError => stop := Some(CopyFailed);
      }
    }

    method FlushWhileIdle(ghost reader: Stream, writer: Stream) returns (stop: Option<CopyPoll>)
      requires Joins(reader, writer) && !copy.over && !writer.closing
      modifies this`needFlush, this`acts, this`copy, writer`flushScript, writer`unflushed, writer`failures, writer`waits
      ensures Joins(reader, writer) && !copy.over && old(acts) <= acts
      ensures stop == Some(CopyPending) || stop == Some(CopyFailed)
      ensures stop == Some(CopyPending) ==> FlushedOrHeld(writer)
      ensures !old(needFlush) ==> stop == Some(CopyPending)
      ensures !old(writer.unflushed) ==> writer.flushScript == old(writer.flushScript)
      ensures Polled(reader, writer, stop == Some(CopyFailed), false, false)
    {
      stop := Some(CopyPending);
      if needFlush {
        var f := writer.PollFlush();
        match f {
          case Completed =>
            needFlush := false;
            Do(Flush);
          case NotYet =>
          case Broken => stop := Some(CopyFailed);
        }
      }
    }

    // An empty pipe: fill it.
    method Fill(reader: Stream, writer: Stream) returns (stop: Option<CopyPoll>)
      requires Joins(reader, writer) && pos == cap && !readDone && !copy.over && !writer.closing
      modifies this, reader`readScript, reader`taken, reader`ended, reader`failures, reader`waits,
               writer`flushScript, writer`unflushed, writer`failures, writer`waits
      ensures Joins(reader, writer) && !copy.over && old(acts) <= acts
      ensures stop.None? && !readDone ==> Work(reader.readScript) < Work(old(reader.readScript))
      ensures stop.Some? ==> !stop.value.CopyReady?
      ensures stop.None? || !old(writer.unflushed) ==> writer.flushScript == old(writer.flushScript)
      ensures stop.Some? ==> pos == cap && !readDone
      ensures old(Quiet(reader)) ==> stop == Some(CopyPending)
      ensures stop == Some(CopyPending) ==> FlushedOrHeld(writer)
      ensures AtEnd(old(reader.readScript)) ==>
        stop.None? && readDone && pos == cap && writer.flushScript == old(writer.flushScript)
      ensures Polled(reader, writer, stop == Some(CopyFailed), stop == Some(CopyPending), stop.None?)
    {
      pos, cap := 0, 0;
      stop := PollFill(reader, writer);
      if stop == Some(CopyPending) {
        stop := FlushWhileIdle(reader, writer);
      }
    }

    /** `poll_write_buf`, and the accounting after it. */
    method WriteOnce(ghost reader: Stream, writer: Stream) returns (stop: Option<CopyPoll>)
      requires Joins(reader, writer) && pos < cap && !copy.over && !writer.closing
      modifies this`pos, this`amt, this`needFlush, this`pipe, this`acts, this`copy,
               writer`writeScript, writer`given, writer`unflushed, writer`failures, writer`waits
      ensures Joins(reader, writer) && !copy.over && old(acts) <= acts
      ensures stop.None? ==> pos > old(pos)
      ensures stop.Some? ==> !stop.value.CopyReady? && pos == old(pos)
      ensures Polled(reader, writer, stop == Some(CopyFailed), stop == Some(CopyPending), stop.None?)
    {
      var r := writer.PollWrite(pipe[..cap - pos]);
      match r {
        case NoRoom => stop := Some(CopyPending);
        case WriteError => stop := Some(CopyFailed);
        case Wrote(size) =>
          if size == 0 { return Some(CopyFailed); }
          Sent(size);
          stop := None;
      }
    }

    method Drain(ghost reader: Stream, writer: Stream) returns (stop: Option<CopyPoll>)
      requires Joins(reader, writer) && !copy.over && !writer.closing
      modifies this`pos, this`amt, this`needFlush, this`pipe, this`acts, this`copy,
               writer`writeScript, writer`given, writer`unflushed, writer`failures, writer`waits
      ensures Joins(reader, writer) && !copy.over && old(acts) <= acts
      ensures stop.None? <==> pos == cap
      ensures stop.Some? ==> !stop.value.CopyReady?
      ensures old(pos) == cap ==> stop.None?
      ensures Polled(reader, writer, stop == Some(CopyFailed), stop == Some(CopyPending), stop.None?)
    {
      stop := None;
      while pos < cap && stop.None?
        invariant Joins(reader, writer) && !copy.over && old(acts) <= acts
        invariant stop.Some? ==> !stop.value.CopyReady? && pos < cap
        invariant old(pos) == cap ==> pos == cap && stop.None?
        invariant Polled(reader, writer, stop == Some(CopyFailed), stop == Some(CopyPending), stop.None?)
        decreases cap - pos, stop.None?
      {
        stop := WriteOnce(reader, writer);
      }
    }

    method FlushAtEnd(ghost reader: Stream, writer: Stream) returns (r: CopyPoll)
      requires Joins(reader, writer) && pos == cap && readDone && !copy.over && !writer.closing
      modifies this`acts, this`copy, writer`flushScript, writer`unflushed, writer`failures, writer`waits
      ensures Joins(reader, writer) && old(acts) <= acts
      ensures r.CopyReady? <==> copy.over
      ensures r.CopyReady? <==> WillComplete(old(writer.flushScript))
      ensures r.CopyPending? ==> FlushedOrHeld(writer) && WillWait(old(writer.flushScript))
      ensures r.CopyReady? ==> r.n == amt
      ensures Polled(reader, writer, r.CopyFailed?, r.CopyPending?, r.CopyReady?)
    {
      var f := writer.PollFlush();
      match f {
        case NotYet => r := CopyPending;
        case Broken => r := CopyFailed;
        case Completed =>
          Do(Flush);
          Do(Finish);
          r := CopyReady(amt);
      }
    }

    // The pipe is empty, and the next polls are the end of the input and a flush.
    ghost predicate EndsNow(reader: Stream, writer: Stream)
      reads this, reader`readScript, writer`flushScript
    {
      pos == cap && !readDone && AtEnd(reader.readScript) && WillComplete(writer.flushScript)
    }

    // Nothing to write or flush, and nothing to read now.
    ghost predicate Quiet(reader: Stream)
      reads this, reader`readScript
    {
      pos == cap && !readDone && !needFlush && Silent(reader.readScript)
    }

    // The first two steps of a turn of `poll_copy`.
    method FillAndDrain(reader: Stream, writer: Stream) returns (stop: Option<CopyPoll>)
      requires Joins(reader, writer) && !copy.over && !writer.closing
      modifies this, reader`readScript, reader`taken, reader`ended, reader`failures, reader`waits,
               writer`writeScript, writer`given, writer`unflushed, writer`flushScript, writer`failures, writer`waits
      ensures Joins(reader, writer) && !copy.over && old(acts) <= acts
      ensures stop.Some? ==> !stop.value.CopyReady?
      ensures stop.None? ==> pos == cap && (old(readDone) ==> readDone) && writer.flushScript == old(writer.flushScript)
      ensures stop.Some? && pos == cap ==> !readDone
      ensures old(Quiet(reader)) ==> stop == Some(CopyPending)
      ensures stop == Some(CopyPending) && pos == cap ==> FlushedOrHeld(writer)
      ensures stop.None? && !readDone && old(pos) == old(cap) ==> Work(reader.readScript) < Work(old(reader.readScript))
      ensures old(pos) != old(cap) ==> readDone == old(readDone) && reader.readScript == old(reader.readScript)
      ensures old(EndsNow(reader, writer)) ==> stop.None? && readDone && writer.flushScript == old(writer.flushScript)
      ensures Polled(reader, writer, stop == Some(CopyFailed), stop == Some(CopyPending), stop.None?)
    {
      if pos == cap && !readDone {
        stop := Fill(reader, writer);
        if stop.Some? { return; }
      }
      stop := Drain(reader, writer);
    }

    /** `poll_copy`: the same promises as the buffered one. */
    method PollCopy(reader: Stream, writer: Stream) returns (r: CopyPoll)
      requires Joins(reader, writer) && !copy.over && !writer.closing
      modifies this, reader`readScript, reader`taken, reader`ended, reader`failures, reader`waits,
               writer`writeScript, writer`given, writer`unflushed, writer`flushScript, writer`failures, writer`waits
      ensures Joins(reader, writer) && old(acts) <= acts
      ensures r.CopyReady? <==> copy.over
      ensures r.CopyPending? && pos == cap ==> FlushedOrHeld(writer)
      ensures old(Quiet(reader)) ==> r.CopyPending?
      ensures old(EndsNow(reader, writer)) ==> r.CopyReady?
      ensures r.CopyReady? ==>
        r.n == |writer.given| && writer.given == reader.taken && !writer.unflushed && reader.ended
      ensures Polled(reader, writer, r.CopyFailed?, r.CopyPending?, r.CopyReady?)
    {
      while true
        invariant Joins(reader, writer) && !copy.over && old(acts) <= acts
        invariant Polled(reader, writer, false, false, true)
        invariant writer.flushScript == old(writer.flushScript)
        invariant old(EndsNow(reader, writer)) ==> EndsNow(reader, writer)
        invariant old(Quiet(reader)) ==> Quiet(reader)
        decreases !readDone, Work(reader.readScript), !(pos == cap)
      {
        var stop := FillAndDrain(reader, writer);
        if stop.Some? { return stop.value; }
        if pos == cap && readDone {
          r := FlushAtEnd(reader, writer);
          return;
        }
      }
    }
  }
}
