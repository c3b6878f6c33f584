/** The two ends of a copy, as finite scripts of what each poll returns.  A poll beyond the
    end of its script is pending. */
module CopyStreams {
  import opened Basics
  import opened AbstractCopier

  // Spurious: the descriptor was reported ready and the call would block all the same.
  datatype ReadEvent = Data(bytes: seq<byte>) | ReadPending | ReadFails | ReadSpurious
  datatype WriteEvent = Accepts(n: nat) | WritePending | WriteFails | WriteSpurious
  datatype PollEvent = Completes | StillPending | Breaks

  datatype ReadResult = Got(bytes: seq<byte>) | NothingYet | ReadError | TryReadAgain
  datatype WriteResult = Wrote(n: nat) | NoRoom | WriteError | TryWriteAgain
  datatype PollResult = Completed | NotYet | Broken

  function Work(script: seq<ReadEvent>): nat {
    if script == [] then 0
    else (if script[0].Data? then 1 + |script[0].bytes| else 1) + Work(script[1..])
  }

  // What the next poll of a script is going to be.
  predicate AtEnd(script: seq<ReadEvent>) {
    script != [] && script[0] == Data([])
  }

  predicate WillComplete(script: seq<PollEvent>) {
    script != [] && script[0].Completes?
  }

  predicate WillBreak(script: seq<PollEvent>) {
    script != [] && script[0].Breaks?
  }

  predicate WillWait(script: seq<PollEvent>) {
    script == [] || script[0].StillPending?
  }

  // A reader that has nothing now.
  predicate Silent(script: seq<ReadEvent>) {
    script == [] || script[0].ReadPending?
  }

  // A script after one poll.
  function Rest<T>(script: seq<T>): seq<T> {
    if script == [] then [] else script[1..]
  }

  class Stream {
    var readScript: seq<ReadEvent>
    var writeScript: seq<WriteEvent>
    var flushScript: seq<PollEvent>
    var shutdownScript: seq<PollEvent>
    // what has gone out of the stream and into it
    ghost var taken: seq<byte>
    ghost var ended: bool
    ghost var given: seq<byte>
    ghost var unflushed: bool
    ghost var closing: bool
    ghost var closed: bool
    // how many polls failed, or accepted nothing, and how many were pending
    ghost var failures: nat
    ghost var waits: nat

    constructor (readScript: seq<ReadEvent>, writeScript: seq<WriteEvent>, flushScript: seq<PollEvent>,
                 shutdownScript: seq<PollEvent>)
      ensures this.readScript == readScript && this.writeScript == writeScript
      ensures this.flushScript == flushScript && this.shutdownScript == shutdownScript
      ensures taken == [] && given == [] && !ended && !unflushed && !closing && !closed && failures == 0 && waits == 0
    {
      this.readScript, this.writeScript := readScript, writeScript;
      this.flushScript, this.shutdownScript := flushScript, shutdownScript;
      taken, given, ended, unflushed, closing, closed := [], [], false, false, false, false;
      failures, waits := 0, 0;
    }

    /** One attempt to read into a buffer of this size.  No bytes means the end of the
        stream, unless the buffer has no room for any.  It is an error to try again after
        the end. */
    method TryRead(size: nat) returns (r: ReadResult)
      requires !ended
      modifies this`readScript, this`taken, this`ended, this`failures, this`waits
      ensures r.Got? ==> |r.bytes| <= size && taken == old(taken) + r.bytes
      ensures r.Got? && size > 0 ==> (ended <==> r.bytes == []) && Work(readScript) < Work(old(readScript))
      ensures size == 0 ==> r == Got([]) && !ended && readScript == old(readScript)
      ensures AtEnd(old(readScript)) ==> r == Got([])
      ensures Silent(old(readScript)) && size > 0 ==> r.NothingYet?
      ensures !r.Got? ==> taken == old(taken) && !ended && Work(readScript) <= Work(old(readScript))
      ensures r.TryReadAgain? ==> |readScript| < |old(readScript)|
      ensures failures == old(failures) + (if r.ReadError? then 1 else 0)
      ensures waits == old(waits) + (if r.NothingYet? then 1 else 0)
    {
      if size == 0 { return Got([]); }
      if readScript == [] {
        waits := waits + 1;
        return NothingYet;
      }
      var event := readScript[0];
      readScript := readScript[1..];
      match event {
        case Data(bytes) =>
          if |bytes| > size {
            var rest := [Data(bytes[size..])] + readScript;
            assert rest[1..] == readScript;
            readScript := rest;
            taken := taken + bytes[..size];
            return Got(bytes[..size]);
          }
          taken := taken + bytes;
          ended := bytes == [];
          return Got(bytes);
        case ReadPending =>
          waits := waits + 1;
          return NothingYet;
        case ReadFails =>
          failures := failures + 1;
          return ReadError;
        case ReadSpurious => return TryReadAgain;
      }
    }

    /** `poll_read`: tries until there is a result. */
    method PollRead(size: nat) returns (r: ReadResult)
      requires !ended
      modifies this`readScript, this`taken, this`ended, this`failures, this`waits
      ensures !r.TryReadAgain?
      ensures r.Got? ==> |r.bytes| <= size && taken == old(taken) + r.bytes
      ensures r.Got? && size > 0 ==> (ended <==> r.bytes == []) && Work(readScript) < Work(old(readScript))
      ensures size == 0 ==> r == Got([]) && !ended && readScript == old(readScript)
      ensures AtEnd(old(readScript)) ==> r == Got([])
      ensures Silent(old(readScript)) && size > 0 ==> r.NothingYet?
      ensures !r.Got? ==> taken == old(taken) && !ended
      ensures failures == old(failures) + (if r.ReadError? then 1 else 0)
      ensures waits == old(waits) + (if r.NothingYet? then 1 else 0)
    {
      r := TryRead(size);
      while r.TryReadAgain?
        invariant r.TryReadAgain? ==> taken == old(taken) && !ended
        invariant Work(readScript) <= Work(old(readScript))
        invariant r.Got? ==> |r.bytes| <= size && taken == old(taken) + r.bytes
        invariant r.Got? && size > 0 ==> (ended <==> r.bytes == []) && Work(readScript) < Work(old(readScript))
        invariant size == 0 ==> r == Got([]) && !ended && readScript == old(readScript)
        invariant AtEnd(old(readScript)) ==> r == Got([])
        invariant Silent(old(readScript)) && size > 0 ==> r.NothingYet?
        invariant !r.Got? ==> taken == old(taken) && !ended
        invariant failures == old(failures) + (if r.ReadError? then 1 else 0)
        invariant waits == old(waits) + (if r.NothingYet? then 1 else 0)
        decreases r.TryReadAgain?, |readScript|
      {
        r := TryRead(size);
      }
    }

    /** One attempt to write; never after the shutdown has begun. */
    method TryWrite(data: seq<byte>) returns (r: WriteResult)
      requires !closing && data != []
      modifies this`writeScript, this`given, this`unflushed, this`failures, this`waits
      ensures r.Wrote? ==>
        r.n <= |data| && given == old(given) + data[..r.n] && (unflushed <==> old(unflushed) || r.n > 0)
      ensures !r.Wrote? ==> given == old(given) && unflushed == old(unflushed)
      ensures r.TryWriteAgain? ==> |writeScript| < |old(writeScript)|
      ensures failures == old(failures) + (if r.WriteError? || r == Wrote(0) then 1 else 0)
      ensures waits == old(waits) + (if r.NoRoom? then 1 else 0)
    {
      if writeScript == [] {
        waits := waits + 1;
        return NoRoom;
      }
      var event := writeScript[0];
      writeScript := writeScript[1..];
      match event {
        case Accepts(n) =>
          var k := if n <= |data| then n else |data|;
          given := given + data[..k];
          unflushed := unflushed || k > 0;
          failures := failures + if k == 0 then 1 else 0;
          return Wrote(k);
        case WritePending =>
          waits := waits + 1;
          return NoRoom;
        case WriteFails =>
          failures := failures + 1;
          return WriteError;
        case WriteSpurious => return TryWriteAgain;
      }
    }

    /** `poll_write`: tries until there is a result. */
    method PollWrite(data: seq<byte>) returns (r: WriteResult)
      requires !closing && data != []
      modifies this`writeScript, this`given, this`unflushed, this`failures, this`waits
      ensures !r.TryWriteAgain?
      ensures r.Wrote? ==>
        r.n <= |data| && given == old(given) + data[..r.n] && (unflushed <==> old(unflushed) || r.n > 0)
      ensures !r.Wrote? ==> given == old(given) && unflushed == old(unflushed)
      ensures failures == old(failures) + (if r.WriteError? || r == Wrote(0) then 1 else 0)
      ensures waits == old(waits) + (if r.NoRoom? then 1 else 0)
    {
      r := TryWrite(data);
      while r.TryWriteAgain?
        invariant r.Wrote? ==>
          r.n <= |data| && given == old(given) + data[..r.n] && (unflushed <==> old(unflushed) || r.n > 0)
        invariant !r.Wrote? ==> given == old(given) && unflushed == old(unflushed)
        invariant failures == old(failures) + (if r.WriteError? || r == Wrote(0) then 1 else 0)
        invariant waits == old(waits) + (if r.NoRoom? then 1 else 0)
        decreases r.TryWriteAgain?, |writeScript|
      {
        r := TryWrite(data);
      }
    }

    method PollFlush() returns (r: PollResult)
      requires !closing
      modifies this`flushScript, this`unflushed, this`failures, this`waits
      ensures r == if old(flushScript) == [] then NotYet else Result(old(flushScript)[0])
      ensures flushScript == Rest(old(flushScript))
      ensures r.Completed? ==> !unflushed
      ensures !r.Completed? ==> unflushed == old(unflushed)
      ensures failures == old(failures) + (if r.Broken? then 1 else 0)
      ensures waits == old(waits) + (if r.NotYet? then 1 else 0)
    {
      r := NotYet;
      if flushScript != [] {
        r := Result(flushScript[0]);
        flushScript := flushScript[1..];
      }
      match r {
        case Completed => unflushed := false;
        case NotYet => waits := waits + 1;
        case Broken => failures := failures + 1;
      }
    }

    /** A poll of `poll_shutdown`: from the first one on, nothing may be written. */
    method PollShutdown() returns (r: PollResult)
      requires !closed
      modifies this`shutdownScript, this`closing, this`closed, this`failures, this`waits
      ensures closing && (closed <==> r.Completed?) && (r.Broken? <==> WillBreak(old(shutdownScript)))
      ensures (r.Completed? <==> WillComplete(old(shutdownScript))) && shutdownScript == Rest(old(shutdownScript))
      ensures failures == old(failures) + (if r.Broken? then 1 else 0)
      ensures waits == old(waits) + (if r.NotYet? then 1 else 0)
    {
      r := NotYet;
      closing := true;
      if shutdownScript != [] {
        r := Result(shutdownScript[0]);
        shutdownScript := shutdownScript[1..];
      }
      match r {
        case Completed => closed := true;
        case NotYet => waits := waits + 1;
        case Broken => failures := failures + 1;
      }
    }
  }

  /** What a call made of the polls of two streams: whether one of them failed, and whether
      some were pending, or certainly none. */
  twostate predicate Polled(a: Stream, b: Stream, failed: bool, pending: bool, clean: bool)
    reads a`failures, a`waits, b`failures, b`waits
  {
    && a.failures + b.failures == old(a.failures + b.failures) + (if failed then 1 else 0)
    && a.waits + b.waits >= old(a.waits + b.waits)
    && (pending ==> a.waits + b.waits > old(a.waits + b.waits))
    && (clean ==> a.waits + b.waits == old(a.waits + b.waits))
  }

  /** A writer that a pending copy leaves unflushed was asked to flush, and that was pending. */
  twostate predicate FlushedOrHeld(w: Stream)
    reads w`unflushed, w`flushScript
  {
    w.unflushed ==> WillWait(old(w.flushScript)) && w.flushScript == Rest(old(w.flushScript))
  }

  function Result(event: PollEvent): PollResult {
    match event
    case Completes => Completed
    case StillPending => NotYet
    case Breaks => Broken
  }
}
