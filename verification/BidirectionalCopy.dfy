/** `CopyBidirectional` of clash-lib/src/common/io/mod.rs and its variant in splice.rs.

    The source writes the code of the two directions out twice.  Here one direction is a
    `Transfer`, which works for the buffered and for the pipe-backed copier; only the latter
    reports amounts to a tracker. */
module BidirectionalCopy {
  import opened Basics
  import opened AbstractCopier
  import opened CopyStreams
  import opened BufferCopy
  import opened PipeCopy

  datatype Buffer = Plain(plain: CopyBuffer) | Piped(pipe: PipeBuffer)

  datatype TransferState = Running(buf: Buffer) | ShuttingDown(count: nat) | Done

  function Stage(s: TransferState): nat {
    match s
    case Running(_) => 2
    case ShuttingDown(_) => 1
    case Done => 0
  }

  datatype Progress = Moved | Waits | Fails

  // A timer, once armed: what its next polls return; later ones are pending.
  type Timer = Option<seq<bool>>

  predicate Fires(timer: Timer) {
    timer.Some? && timer.value != [] && timer.value[0]
  }

  function AfterPoll(timer: Timer): Timer {
    match timer
    case None => None
    case Some(script) => Some(Rest(script))
  }

  // What a poll goes by in one direction: its stage, its timer, what shutting down its writer
  // is going to return and whether that has begun; whether it runs and ends well at the next
  // poll, or has nothing to move and nothing to read then.
  datatype View = View(stage: nat, timer: Timer, closes: seq<PollEvent>, closing: bool, ends: bool, quiet: bool)

  // A direction that was polled and did not move: its timer, if armed, did not fire, or its
  // shutdown was pending.
  predicate Stayed(x: View, y: View) {
    && y.stage == x.stage && !x.ends
    && (x.stage == 2 ==> !Fires(x.timer) && y.timer == AfterPoll(x.timer) && y.closes == x.closes)
    && (x.stage == 1 ==> WillWait(x.closes) && y.closing)
  }

  // One direction is polled beside another; when it is done the other's timer is armed.
  predicate Sided(x: View, o: View, y: View, p: View, timeout: seq<bool>, moved: bool) {
    && p.stage == o.stage && p.closes == o.closes && (o.quiet ==> p.quiet)
    && if moved then
         && y.stage == x.stage - 1 && (x.quiet ==> Fires(x.timer))
         && (y.stage == 1 ==> y.closes == x.closes) && (y.stage == 0 ==> WillComplete(x.closes))
         && p.timer == if y.stage == 0 then Some(timeout) else o.timer
       else Stayed(x, y) && p.timer == o.timer
  }

  // A direction fails only while it copies, or when its shutdown breaks.
  predicate Failing(x: View, y: View) {
    x.stage > 0 && !x.ends && !x.quiet && (x.stage == 1 ==> WillBreak(x.closes) && y.closing)
  }

  // The timer that a direction has once the other one is done.
  function Armed(before: View, other: View, timeout: seq<bool>): Timer {
    if other.stage == 0 then before.timer else Some(timeout)
  }

  // From x0 beside o0, turns that moved something have led to x beside o.
  predicate Kept(x0: View, o0: View, x: View, o: View, timeout: seq<bool>) {
    && x.stage <= 2 && o.stage <= o0.stage && (x.ends || x.quiet ==> x.stage == 2)
    && (x.stage == 2 && o.stage == 0 ==> x.timer == Armed(x0, o0, timeout))
    && (x.stage == 2 ==> x.closes == x0.closes)
    && (x.stage == 1 ==> x.closes == x0.closes || WillWait(x0.closes))
  }

  /** What holds a direction up after a poll that did not finish: it has a reader or a writer
      to wait for, and its timer, armed if the other direction is done, has not fired; or the
      shutdown of its writer is pending. */
  predicate Held(x0: View, o0: View, y: View, p: View, timeout: seq<bool>) {
    && (y.stage == 2 && p.stage == 0 ==>
          !Fires(Armed(x0, o0, timeout)) && y.timer == AfterPoll(Armed(x0, o0, timeout)))
    && (y.stage == 2 ==> y.closes == x0.closes)
    && (y.stage == 1 ==> y.closing && WillWait(x0.closes))
  }

  // A direction that is about to end well and whose shutdown then breaks.
  predicate Doomed(x: View) {
    (x.ends || x.stage == 1) && WillBreak(x.closes)
  }

  // One direction ends or has ended, the other is quiet until its timer fires, and both
  // writers shut down when asked.
  predicate Ending(x: View, d: View, downTimeout: seq<bool>) {
    && (x.ends || x.stage < 2) && (x.stage == 0 || WillComplete(x.closes))
    && (d.quiet || d.stage < 2) && (d.stage == 0 || WillComplete(d.closes))
    && (d.stage == 2 ==> Fires(if x.stage == 0 then d.timer else Some(downTimeout)))
  }

  // Where turns that moved something lead the two directions, and how the turns end: with
  // nothing more to move, or with a failure on one side.
  predicate UnderWay(x0: View, d0: View, x: View, d: View, upTimeout: seq<bool>, downTimeout: seq<bool>) {
    && Kept(x0, d0, x, d, upTimeout) && Kept(d0, x0, d, x, downTimeout)
    && (Doomed(x0) ==> Doomed(x)) && (Ending(x0, d0, downTimeout) ==> Ending(x, d, downTimeout))
  }

  predicate AtRest(x0: View, d0: View, x: View, d: View, upTimeout: seq<bool>, downTimeout: seq<bool>) {
    && Held(x0, d0, x, d, upTimeout) && Held(d0, x0, d, x, downTimeout)
    && !Doomed(x0) && (Ending(x0, d0, downTimeout) ==> x.stage == 0 && d.stage == 0)
  }

  predicate BrokenOff(x0: View, d0: View, x: View, downTimeout: seq<bool>, left: bool) {
    !Ending(x0, d0, downTimeout) && (Doomed(x0) ==> left && x.closing)
  }

  lemma FirstMoved(x0: View, d0: View, x: View, d: View, y: View, e: View, ut: seq<bool>, dt: seq<bool>)
    requires UnderWay(x0, d0, x, d, ut, dt) && Sided(x, d, y, e, dt, true)
    requires (y.ends || y.quiet ==> y.stage == 2) && (e.ends || e.quiet ==> e.stage == 2)
    ensures UnderWay(x0, d0, y, e, ut, dt)
  {
  }

  lemma FirstFailed(x0: View, d0: View, x: View, d: View, y: View, ut: seq<bool>, dt: seq<bool>)
    requires UnderWay(x0, d0, x, d, ut, dt) && Failing(x, y)
    ensures BrokenOff(x0, d0, y, dt, true)
  {
  }

  lemma SecondMoved(x0: View, d0: View, x: View, d: View, x1: View, d1: View, y: View, e: View, ut: seq<bool>,
                    dt: seq<bool>)
    requires UnderWay(x0, d0, x, d, ut, dt) && Sided(x, d, x1, d1, dt, false) && Sided(d1, x1, e, y, ut, true)
    requires (y.ends || y.quiet ==> y.stage == 2) && (e.ends || e.quiet ==> e.stage == 2)
    ensures UnderWay(x0, d0, y, e, ut, dt)
  {
  }

  lemma SecondFailed(x0: View, d0: View, x: View, d: View, x1: View, d1: View, y: View, e: View, ut: seq<bool>,
                     dt: seq<bool>)
    requires UnderWay(x0, d0, x, d, ut, dt) && Sided(x, d, x1, d1, dt, false) && Failing(d1, e)
    ensures BrokenOff(x0, d0, y, dt, false)
  {
  }

  lemma NoneMoved(x0: View, d0: View, x: View, d: View, x1: View, d1: View, y: View, e: View, ut: seq<bool>,
                  dt: seq<bool>)
    requires UnderWay(x0, d0, x, d, ut, dt) && Sided(x, d, x1, d1, dt, false) && Sided(d1, x1, e, y, ut, false)
    requires y.closing == x1.closing
    ensures AtRest(x0, d0, y, e, ut, dt)
  {
  }

  function Drop<T>(s: seq<T>, m: nat): seq<T> {
    if m <= |s| then s[m..] else []
  }

  predicate NoneFired(timeout: seq<bool>, m: nat) {
    forall k :: 0 <= k < m && k < |timeout| ==> !timeout[k]
  }

  // Over polls from the start x0, of which m ended with the other direction done: the timer
  // was polled in each of those and never fired; or the shutdown was pending from the first.
  predicate Waited(x0: View, x: View, o: View, m: nat, timeout: seq<bool>) {
    && x.stage <= 2 && (o.stage == 0 <==> m > 0)
    && (x.stage == 2 && m > 0 ==> x.timer == Some(Drop(timeout, m)) && NoneFired(timeout, m))
    && (x.stage == 2 ==> x.closes == x0.closes)
    && (x.stage == 1 ==> x.closing && WillWait(x0.closes))
  }

  lemma WaitedMore(x0: View, x: View, o: View, m: nat, y: View, p: View, timeout: seq<bool>)
    requires Waited(x0, x, o, m, timeout) && Held(x, o, y, p, timeout) && y.stage <= x.stage && p.stage <= o.stage
    ensures Waited(x0, y, p, if p.stage == 0 then m + 1 else 0, timeout)
  {
    if y.stage == 2 && p.stage == 0 {
      assert Armed(x, o, timeout) == Some(Drop(timeout, m));
      DropOne(timeout, m);
    }
  }

  lemma DropOne(timeout: seq<bool>, m: nat)
    ensures Rest(Drop(timeout, m)) == Drop(timeout, m + 1)
    ensures NoneFired(timeout, m) && !Fires(Some(Drop(timeout, m))) ==> NoneFired(timeout, m + 1)
  {
  }

  class Transfer {
    const reader: Stream
    const writer: Stream
    const piped: bool
    var state: TransferState
    var count: nat
    var delay: Timer
    var tracked: seq<nat>
    // whether the timer ended this direction
    ghost var cut: bool
    // whether its buffer has no room for any byte
    ghost const blind: bool

    // What this direction owns besides the streams.
    ghost function Own(): set<object>
      reads this`state
    {
      match state
      case Running(Plain(b)) => {this, b, b.buf}
      case Running(Piped(b)) => {this, b}
      case _ => {this}
    }

    ghost predicate RunningOk()
      reads this, Own(), reader`taken, reader`ended, writer`given, writer`unflushed, writer`closing, writer`closed
    {
      && !writer.closing && !writer.closed && count == 0 && tracked == [] && !cut
      && match state {
        case Running(Plain(b)) =>
          && !piped && (blind <==> b.buf.Length == 0) && (blind ==> reader.taken == [])
          && b.Joins(reader, writer) && !b.copy.over
        case Running(Piped(b)) => piped && !blind && b.Joins(reader, writer) && !b.copy.over
        case _ => false
      }
    }

    // Every byte was handed on, and the reader had ended; or the timer ended it early.  A
    // direction whose buffer has no room hands on nothing and takes that for the end.
    ghost predicate EndedOk()
      reads this, reader`taken, reader`ended, writer`given, writer`unflushed
    {
      && writer.given <= reader.taken
      && (!cut ==> writer.given == reader.taken && (reader.ended <==> !blind) && !writer.unflushed)
      && (blind ==> reader.taken == [])
    }

    ghost predicate Valid()
      reads this, Own(), reader`taken, reader`ended, writer`given, writer`unflushed, writer`closing, writer`closed
    {
      && reader != writer
      && match state {
        case Running(_) => RunningOk()
        case ShuttingDown(c) => EndedOk() && !writer.closed && c == |writer.given| && count == 0 && tracked == []
        case Done =>
          EndedOk() && writer.closing && writer.closed && count == |writer.given| &&
          tracked == if piped then [count] else []
      }
    }

    // What a tracker was given so far, when the direction has not failed; and when it has.
    ghost predicate TrackedSoFar()
      reads this, writer`given, writer`closed
    {
      tracked == if piped && writer.closed then [|writer.given|] else []
    }

    ghost predicate TrackedAtFailure()
      reads this, writer`given, writer`closing
    {
      tracked == if piped && !writer.closing then [|writer.given|] else []
    }

    // A running direction that ends well at the next poll.
    ghost predicate EndsNow()
      reads this, Own(), reader`readScript, writer`flushScript
    {
      match state
      case Running(Plain(b)) => b.EndsNow(reader, writer)
      case Running(Piped(b)) => b.EndsNow(reader, writer)
      case _ => false
    }

    // A running direction with nothing to move and nothing to read now.
    ghost predicate Quiet()
      reads this, Own(), reader`readScript
    {
      match state
      case Running(Plain(b)) => b.Quiet(reader)
      case Running(Piped(b)) => b.Quiet(reader)
      case _ => false
    }

    ghost function Seen(): (x: View)
      reads this, Own(), reader`readScript, writer`flushScript, writer`shutdownScript, writer`closing
      ensures x.stage <= 2 && (x.ends || x.quiet ==> x.stage == 2)
    {
      View(Stage(state), delay, writer.shutdownScript, writer.closing, EndsNow(), Quiet())
    }

    constructor Buffered(reader: Stream, writer: Stream, size: nat)
      requires reader != writer && FreshPair(reader, writer)
      ensures this.reader == reader && this.writer == writer && !piped && (blind <==> size == 0)
      ensures size > 0 && AtEnd(reader.readScript) && WillComplete(writer.flushScript) ==> EndsNow()
      ensures size > 0 && Silent(reader.readScript) ==> Quiet()
      ensures Valid() && state.Running? && delay == None && fresh(Own()) && reader !in Own() && writer !in Own()
    {
      this.reader, this.writer, piped, blind := reader, writer, false, size == 0;
      var b := new CopyBuffer(size);
      state, count, delay, tracked, cut := Running(Plain(b)), 0, None, [], false;
    }

    constructor ThroughPipe(reader: Stream, writer: Stream)
      requires reader != writer && FreshPair(reader, writer)
      ensures this.reader == reader && this.writer == writer && piped && !blind
      ensures AtEnd(reader.readScript) && WillComplete(writer.flushScript) ==> EndsNow()
      ensures Silent(reader.readScript) ==> Quiet()
      ensures Valid() && state.Running? && delay == None && fresh(Own()) && reader !in Own() && writer !in Own()
    {
      this.reader, this.writer, piped, blind := reader, writer, true, false;
      var b := new PipeBuffer();
      state, count, delay, tracked, cut := Running(Piped(b)), 0, None, [], false;
    }

    // What one call of the buffer's `poll_copy` does to this direction.
    method PollCopy() returns (r: CopyPoll)
      requires Valid() && state.Running? && reader !in Own() && writer !in Own()
      modifies Own() - {this}, reader`readScript, reader`taken, reader`ended, reader`failures, reader`waits,
               writer`writeScript, writer`given, writer`unflushed, writer`flushScript, writer`failures, writer`waits
      ensures !r.CopyReady? ==> Valid()
      ensures r.CopyReady? ==>
        r.n == |writer.given| && writer.given == reader.taken && !writer.unflushed && (reader.ended <==> !blind)
      ensures blind ==> reader.taken == []
      ensures old(EndsNow()) ==> r.CopyReady?
      ensures old(Quiet()) ==> r.CopyPending?
      ensures Polled(reader, writer, r.CopyFailed?, r.CopyPending?, false)
    {
      match state.buf {
        case Plain(b) => r := b.PollCopy(reader, writer);
        case Piped(b) => r := b.PollCopy(reader, writer);
      }
    }

    // `amount_transferred`
    method Amount() returns (n: nat)
      requires Valid() && state.Running?
      ensures n == |writer.given|
    {
      match state.buf {
        case Plain(b) => n := b.amt;
        case Piped(b) => n := b.amt;
      }
    }

    // Polls the timer, if it is armed.
    method TimerFires() returns (r: bool)
      modifies this`delay
      ensures (r <==> Fires(old(delay))) && delay == AfterPoll(old(delay))
    {
      if delay.None? || delay.value == [] { return false; }
      r := delay.value[0];
      delay := Some(delay.value[1..]);
    }

    method PollRunning() returns (r: Progress)
      requires Valid() && state.Running? && reader !in Own() && writer !in Own()
      modifies Own(), reader`readScript, reader`taken, reader`ended, reader`failures, reader`waits,
               writer`writeScript, writer`given, writer`unflushed, writer`flushScript, writer`failures, writer`waits
      ensures delay.Some? <==> old(delay).Some?
      ensures Own() <= old(Own())
      ensures r.Moved? ==> Valid() && state.ShuttingDown? && (cut ==> delay.Some?)
      ensures old(EndsNow()) ==> r.Moved?
      ensures r.Waits? ==> Valid() && state == old(state) && !Fires(old(delay)) && delay == AfterPoll(old(delay))
      ensures old(Quiet()) ==> if Fires(old(delay)) then r.Moved? && cut else r.Waits?
      ensures r.Fails? ==> TrackedAtFailure() && state == old(state)
      ensures writer.given <= reader.taken
      ensures Polled(reader, writer, r.Fails?, r.Waits?, false)
    {
      var res := PollCopy();
      match res {
        case CopyReady(n) =>
          state := ShuttingDown(n);
          r := Moved;
        case CopyFailed =>
          var n := Amount();
          if piped { tracked := tracked + [n]; }
          r := Fails;
        case CopyPending =>
          r := CutIfTimedOut();
      }
    }

    // A pending direction ends early when its timer fires.
    method CutIfTimedOut() returns (r: Progress)
      requires Valid() && state.Running?
      modifies this
      ensures Valid() && !r.Fails? && (delay.Some? <==> old(delay).Some?)
      ensures r.Moved? ==> state.ShuttingDown? && cut
      ensures (r.Moved? <==> Fires(old(delay))) && delay == AfterPoll(old(delay))
      ensures r.Waits? ==> state == old(state)
    {
      var n := Amount();
      var fires := TimerFires();
      if fires {
        state, cut := ShuttingDown(n), true;
        r := Moved;
      } else {
        r := Waits;
      }
    }

    method PollClosing() returns (r: Progress)
      requires Valid() && state.ShuttingDown?
      modifies this, writer`shutdownScript, writer`closing, writer`closed, writer`failures, writer`waits
      ensures delay == old(delay) && cut == old(cut)
      ensures r.Moved? ==> Valid() && state.Done?
      ensures r.Waits? ==> Valid() && state == old(state)
      ensures r.Fails? ==> TrackedAtFailure() && state == old(state)
      ensures writer.closing && (r.Fails? <==> WillBreak(old(writer.shutdownScript)))
      ensures r.Moved? <==> WillComplete(old(writer.shutdownScript))
      ensures Polled(reader, writer, r.Fails?, r.Waits?, false)
    {
      var res := writer.PollShutdown();
      match res {
        case Completed =>
          count := count + state.count;
          if piped { tracked := tracked + [state.count]; }
          state := Done;
          r := Moved;
        case NotYet => r := Waits;
        case Broken => r := Fails;
      }
    }
  }

  ghost predicate FreshPair(reader: Stream, writer: Stream)
    reads reader, writer
  {
    && reader.taken == [] && !reader.ended && writer.given == []
    && !writer.unflushed && !writer.closing && !writer.closed
  }

  // The reader is at its end, the writer flushes, and its shutdown breaks.
  ghost predicate EndsThenBreaks(reader: Stream, writer: Stream)
    reads reader, writer
  {
    AtEnd(reader.readScript) && WillComplete(writer.flushScript) && WillBreak(writer.shutdownScript)
  }

  // The first stream is at its end, the second has nothing to say, and both shut down.
  ghost predicate HalfClosed(a: Stream, b: Stream)
    reads a, b
  {
    && AtEnd(a.readScript) && WillComplete(b.flushScript) && WillComplete(b.shutdownScript)
    && Silent(b.readScript) && WillComplete(a.shutdownScript)
  }

  // Bytes come out of a direction in the order they went in, in every stage.
  lemma InOrder(t: Transfer)
    requires t.Valid()
    ensures t.writer.given <= t.reader.taken
  {
  }

  // What each stage says about the streams and the tracker.
  lemma StagesShow(t: Transfer)
    requires t.Valid()
    ensures t.state.Running? ==> !t.writer.closing && !t.cut
    ensures t.state.Done? <==> t.writer.closed
    ensures t.state.Done? ==>
      t.writer.closing && t.tracked == (if t.piped then [|t.writer.given|] else []) && t.EndedOk()
  {
  }

  // Two directions over the same two streams, with nothing else in common.
  ghost predicate Linked(t: Transfer, o: Transfer)
    reads t`state, o`state
  {
    && t != o && t.reader == o.writer && t.writer == o.reader && t.piped == o.piped
    && t.Own() !! o.Own() && {t.reader, t.writer} !! t.Own() && {t.reader, t.writer} !! o.Own()
  }

  // A timer is armed exactly when the other direction is done, so it cuts one only then.
  ghost predicate TimersOk(t: Transfer, o: Transfer)
    reads t, o
  {
    && (t.delay.Some? <==> o.state.Done?) && (o.delay.Some? <==> t.state.Done?)
    && (t.cut ==> o.state.Done?) && (o.cut ==> t.state.Done?) && !(t.cut && o.cut)
  }

  ghost predicate Opposite(t: Transfer, o: Transfer)
    reads t, o, t.Own(), o.Own(), t.reader, t.writer
  {
    Linked(t, o) && TimersOk(t, o) && forall s :: s in {t, o} ==> s.Valid()
  }

  lemma OppositeSymmetric(t: Transfer, o: Transfer)
    requires Opposite(t, o)
    ensures Opposite(o, t)
  {
  }

  // The other direction is as it was, but for its timer.
  twostate predicate Aside(o: Transfer)
    reads o, o.Own(), o.reader, o.writer
  {
    && unchanged(o`state, o`count, o`tracked, o`cut) && unchanged(o.Own() - {o})
    && unchanged(o.reader`taken, o.reader`ended, o.reader`readScript)
    && unchanged(o.writer`given, o.writer`unflushed, o.writer`closing, o.writer`closed, o.writer`shutdownScript)
  }

  twostate lemma AsideIsValid(o: Transfer)
    requires old(o.Valid()) && Aside(o)
    ensures o.Valid() && o.Own() == old(o.Own())
    ensures (old(o.Quiet()) ==> o.Quiet()) && o.TrackedSoFar() == old(o.TrackedSoFar())
  {
  }

  // One direction beside another, of which nothing is needed but that it is apart.
  ghost predicate Beside(t: Transfer, o: Transfer)
    reads t, o, t.Own(), t.reader, t.writer
  {
    Linked(t, o) && t.Valid() && TimersOk(t, o)
  }

  method RunSide(t: Transfer, o: Transfer, ghost timeout: seq<bool>) returns (r: Progress)
    requires Beside(t, o) && t.state.Running?
    modifies t.Own(),
             t.reader`readScript, t.reader`taken, t.reader`ended, t.reader`failures, t.reader`waits,
             t.writer`writeScript, t.writer`given, t.writer`unflushed, t.writer`flushScript, t.writer`failures,
             t.writer`waits
    ensures t.Own() <= old(t.Own()) && Aside(o)
    ensures !r.Fails? ==> Beside(t, o)
    ensures r.Moved? ==> t.state.ShuttingDown?
    ensures !r.Moved? ==> t.state == old(t.state)
    ensures r.Fails? ==> t.TrackedAtFailure()
    ensures !r.Fails? ==> Sided(old(t.Seen()), old(o.Seen()), t.Seen(), o.Seen(), timeout, r.Moved?)
    ensures r.Fails? ==> Failing(old(t.Seen()), t.Seen())
    ensures t.writer.given <= t.reader.taken
    ensures Polled(t.reader, t.writer, r.Fails?, r.Waits?, false)
  {
    r := t.PollRunning();
  }

  method CloseSide(t: Transfer, o: Transfer, timeout: seq<bool>) returns (r: Progress)
    requires Beside(t, o) && t.state.ShuttingDown?
    modifies t, o`delay, t.writer`shutdownScript, t.writer`closing, t.writer`closed, t.writer`failures, t.writer`waits
    ensures t.Own() == old(t.Own()) && Aside(o)
    ensures !r.Fails? ==> Beside(t, o)
    ensures r.Moved? ==> t.state.Done?
    ensures !r.Moved? ==> t.state == old(t.state)
    ensures r.Fails? ==> t.TrackedAtFailure()
    ensures !r.Fails? ==> Sided(old(t.Seen()), old(o.Seen()), t.Seen(), o.Seen(), timeout, r.Moved?)
    ensures r.Fails? ==> Failing(old(t.Seen()), t.Seen())
    ensures t.writer.given <= t.reader.taken
    ensures Polled(t.reader, t.writer, r.Fails?, r.Waits?, false)
  {
    InOrder(t);
    r := t.PollClosing();
    if r.Moved? { o.delay := Some(timeout); }
  }

  /** One of the two `match` statements of `poll`: `t` is polled once; when it is done it
      arms the timer of the other direction.  It stays as it is only if its timer, once
      armed, does not fire, or its shutdown is pending. */
  method PollSide(t: Transfer, o: Transfer, timeout: seq<bool>) returns (r: Progress)
    requires Opposite(t, o)
    modifies t.Own(), o`delay,
             t.reader`readScript, t.reader`taken, t.reader`ended, t.reader`failures, t.reader`waits,
             t.writer`writeScript, t.writer`given, t.writer`unflushed, t.writer`flushScript, t.writer`failures,
             t.writer`waits,
             t.writer`shutdownScript, t.writer`closing, t.writer`closed
    ensures t.Own() <= old(t.Own()) && o.Own() == old(o.Own())
    ensures !r.Fails? ==> Opposite(t, o)
    ensures o.state == old(o.state)
    ensures r.Moved? ==> Stage(t.state) == old(Stage(t.state)) - 1
    ensures !r.Moved? ==> t.state == old(t.state)
    ensures r.Fails? ==> t.TrackedAtFailure() && o.TrackedSoFar()
    ensures !r.Fails? ==> Sided(old(t.Seen()), old(o.Seen()), t.Seen(), o.Seen(), timeout, r.Moved?)
    ensures r.Fails? ==> Failing(old(t.Seen()), t.Seen())
    ensures t.writer.given <= t.reader.taken && (old(Stage(t.state)) < 2 ==> t.writer.given == old(t.writer.given))
    ensures Polled(t.reader, t.writer, r.Fails?, r.Waits? && !t.state.Done?, false)
  {
    ValidIsTracked(o);
    match t.state {
      case Running(_) =>
        r := RunSide(t, o, timeout);
        AsideIsValid(o);
      case ShuttingDown(_) =>
        r := CloseSide(t, o, timeout);
        AsideIsValid(o);
      case Done =>
        InOrder(t);
        r := Waits;
    }
  }

  lemma ValidIsTracked(o: Transfer)
    requires o.Valid()
    ensures o.TrackedSoFar()
  {
  }

  // The other `match` statement, the same with the roles exchanged.
  method PollOther(o: Transfer, t: Transfer, timeout: seq<bool>) returns (r: Progress)
    requires Opposite(o, t)
    modifies t.Own(), o`delay,
             t.reader`readScript, t.reader`taken, t.reader`ended, t.reader`failures, t.reader`waits,
             t.writer`writeScript, t.writer`given, t.writer`unflushed, t.writer`flushScript, t.writer`failures,
             t.writer`waits,
             t.writer`shutdownScript, t.writer`closing, t.writer`closed
    ensures t.Own() <= old(t.Own()) && o.Own() == old(o.Own())
    ensures !r.Fails? ==> Opposite(o, t)
    ensures o.state == old(o.state)
    ensures r.Moved? ==> Stage(t.state) == old(Stage(t.state)) - 1
    ensures !r.Moved? ==> t.state == old(t.state)
    ensures r.Fails? ==> t.TrackedAtFailure() && o.TrackedSoFar()
    ensures !r.Fails? ==> Sided(old(t.Seen()), old(o.Seen()), t.Seen(), o.Seen(), timeout, r.Moved?)
    ensures r.Fails? ==> Failing(old(t.Seen()), t.Seen())
    ensures t.writer.given <= t.reader.taken
    ensures Polled(t.reader, t.writer, r.Fails?, r.Waits? && !t.state.Done?, false)
  {
    OppositeSymmetric(o, t);
    r := PollSide(t, o, timeout);
    if !r.Fails? { OppositeSymmetric(t, o); }
  }

  datatype Outcome = Finished(up: nat, down: nat) | FailedLeft | FailedRight | Unfinished

  class CopyBidirectional {
    const up: Transfer
    const down: Transfer
    const upTimeout: seq<bool>
    const downTimeout: seq<bool>

    constructor (up: Transfer, down: Transfer, upTimeout: seq<bool>, downTimeout: seq<bool>)
      ensures this.up == up && this.down == down && this.upTimeout == upTimeout && this.downTimeout == downTimeout
    {
      this.up, this.down, this.upTimeout, this.downTimeout := up, down, upTimeout, downTimeout;
    }

    predicate BothDone()
      reads up, down
    {
      up.state.Done? && down.state.Done?
    }

    // What has been written, and what the trackers have been given, when the copy has failed
    // on one side.
    ghost predicate TrackedFailing(left: bool)
      reads up, down, up.reader, up.writer, down.reader, down.writer
    {
      && up.writer.given <= up.reader.taken && down.writer.given <= down.reader.taken
      && if left then up.TrackedAtFailure() && down.TrackedSoFar() else down.TrackedAtFailure() && up.TrackedSoFar()
    }

    ghost predicate Look(x: View, d: View)
      reads up, up.Own(), up.reader, up.writer, down, down.Own()
    {
      down.reader == up.writer && down.writer == up.reader && x == up.Seen() && d == down.Seen()
    }

    // The first half of a turn.
    method FirstHalf(ghost x0: View, ghost d0: View, ghost x: View, ghost d: View)
      returns (p: Progress, ghost y: View, ghost e: View)
      requires Opposite(up, down) && Look(x, d) && UnderWay(x0, d0, x, d, upTimeout, downTimeout)
      modifies up.Own(), down`delay, up.reader, up.writer
      ensures up.Own() <= old(up.Own()) && down.Own() == old(down.Own())
      ensures Look(y, e) && (!p.Fails? ==> Opposite(up, down))
      ensures p.Fails? ==> TrackedFailing(true) && BrokenOff(x0, d0, y, downTimeout, true)
      ensures p.Moved? ==> y.stage == x.stage - 1 && UnderWay(x0, d0, y, e, upTimeout, downTimeout)
      ensures p.Waits? ==> Sided(x, d, y, e, downTimeout, false)
      ensures e.stage == d.stage && y.stage <= x.stage
      ensures Polled(up.reader, up.writer, p.Fails?, p.Waits? && y.stage > 0, false)
    {
      InOrder(down);
      p := PollSide(up, down, downTimeout);
      y, e := up.Seen(), down.Seen();
      if p.Moved? {
        FirstMoved(x0, d0, x, d, y, e, upTimeout, downTimeout);
      } else if p.Fails? {
        FirstFailed(x0, d0, x, d, y, upTimeout, downTimeout);
      }
    }

    // The second half of a turn, after the first half moved nothing.
    method SecondHalf(ghost x0: View, ghost d0: View, ghost x: View, ghost d: View, ghost x1: View, ghost d1: View)
      returns (p: Progress, ghost y: View, ghost e: View)
      requires Opposite(up, down) && Look(x1, d1) && UnderWay(x0, d0, x, d, upTimeout, downTimeout)
      requires Sided(x, d, x1, d1, downTimeout, false)
      modifies down.Own(), up`delay, up.reader, up.writer
      ensures up.Own() == old(up.Own()) && down.Own() <= old(down.Own())
      ensures Look(y, e) && (!p.Fails? ==> Opposite(up, down))
      ensures p.Fails? ==> TrackedFailing(false) && BrokenOff(x0, d0, y, downTimeout, false)
      ensures p.Moved? ==> e.stage == d1.stage - 1 && UnderWay(x0, d0, y, e, upTimeout, downTimeout)
      ensures p.Waits? ==> AtRest(x0, d0, y, e, upTimeout, downTimeout)
      ensures y.stage == x1.stage && e.stage <= d1.stage
      ensures Polled(up.reader, up.writer, p.Fails?, p.Waits? && e.stage > 0, false)
    {
      InOrder(up);
      p := PollOther(up, down, upTimeout);
      y, e := up.Seen(), down.Seen();
      match p {
        case Moved => SecondMoved(x0, d0, x, d, x1, d1, y, e, upTimeout, downTimeout);
        case Waits => NoneMoved(x0, d0, x, d, x1, d1, y, e, upTimeout, downTimeout);
        case Fails => SecondFailed(x0, d0, x, d, x1, d1, y, e, upTimeout, downTimeout);
      }
    }

    // One turn of the loop of `poll`, up to the point where it starts over or falls through.
    method Turn(ghost x0: View, ghost d0: View, ghost x: View, ghost d: View)
      returns (p: Progress, left: bool, ghost y: View, ghost e: View)
      requires Opposite(up, down) && Look(x, d) && UnderWay(x0, d0, x, d, upTimeout, downTimeout)
      modifies up.Own(), down.Own(), up.reader, up.writer
      ensures up.Own() <= old(up.Own()) && down.Own() <= old(down.Own())
      ensures Look(y, e) && (!p.Fails? ==> Opposite(up, down))
      ensures p.Fails? ==> TrackedFailing(left) && BrokenOff(x0, d0, y, downTimeout, left)
      ensures p.Moved? ==> y.stage + e.stage < x.stage + d.stage && UnderWay(x0, d0, y, e, upTimeout, downTimeout)
      ensures p.Waits? ==> AtRest(x0, d0, y, e, upTimeout, downTimeout)
      ensures y.stage <= x.stage && e.stage <= d.stage
      ensures Polled(up.reader, up.writer, p.Fails?, p.Waits? && y.stage + e.stage > 0, false)
    {
      left := true;
      p, y, e := FirstHalf(x0, d0, x, d);
      if p.Waits? {
        left := false;
        p, y, e := SecondHalf(x0, d0, x, d, y, e);
      }
    }

    // The loop of `poll`: turns until nothing moves.
    method Turns(ghost x0: View, ghost d0: View) returns (p: Progress, left: bool, ghost y: View, ghost e: View)
      requires Opposite(up, down) && Look(x0, d0)
      modifies up.Own(), down.Own(), up.reader, up.writer
      ensures up.Own() <= old(up.Own()) && down.Own() <= old(down.Own())
      ensures !p.Moved? && Look(y, e) && (p.Waits? ==> Opposite(up, down))
      ensures p.Fails? ==> TrackedFailing(left) && BrokenOff(x0, d0, y, downTimeout, left)
      ensures p.Waits? ==> AtRest(x0, d0, y, e, upTimeout, downTimeout)
      ensures y.stage <= x0.stage && e.stage <= d0.stage
      ensures Polled(up.reader, up.writer, p.Fails?, p.Waits? && y.stage + e.stage > 0, false)
    {
      p, left, y, e := Moved, true, x0, d0;
      while p.Moved?
        invariant Look(y, e) && (!p.Fails? ==> Opposite(up, down))
        invariant up.Own() <= old(up.Own()) && down.Own() <= old(down.Own())
        invariant p.Fails? ==> TrackedFailing(left) && BrokenOff(x0, d0, y, downTimeout, left)
        invariant p.Moved? ==> UnderWay(x0, d0, y, e, upTimeout, downTimeout)
        invariant p.Waits? ==> AtRest(x0, d0, y, e, upTimeout, downTimeout)
        invariant y.stage <= x0.stage && e.stage <= d0.stage
        invariant Polled(up.reader, up.writer, p.Fails?, p.Waits? && y.stage + e.stage > 0, false)
        decreases p.Moved?, y.stage + e.stage
      {
        p, left, y, e := Turn(x0, d0, y, e);
      }
    }

    /** `poll`.  Each direction only goes on from running to shutting down to done; on
        success both are done and the counts are the bytes written each way; on failure the
        trackers have been given what was written by then, but nothing for a direction whose
        shutdown failed.  A direction is left running beside one that is done only if its
        timer was polled and did not fire, and left shutting down only if that is pending. */
    method Poll() returns (r: Outcome)
      requires Opposite(up, down)
      modifies up.Own(), down.Own(), up.reader, up.writer
      ensures up.Own() <= old(up.Own()) && down.Own() <= old(down.Own())
      ensures Stage(up.state) <= old(Stage(up.state)) && Stage(down.state) <= old(Stage(down.state))
      ensures up.writer.given <= up.reader.taken && down.writer.given <= down.reader.taken
      ensures r.Finished? || r.Unfinished? ==> Opposite(up, down)
      ensures r.Finished? ==> BothDone()
      ensures r.Unfinished? ==> !BothDone()
      ensures r.Finished? || r.Unfinished? ==>
        AtRest(old(up.Seen()), old(down.Seen()), up.Seen(), down.Seen(), upTimeout, downTimeout)
      ensures r.Finished? ==> r.up == |up.writer.given| && r.down == |down.writer.given|
      ensures r.FailedLeft? || r.FailedRight? ==>
        && TrackedFailing(r.FailedLeft?)
        && BrokenOff(old(up.Seen()), old(down.Seen()), up.Seen(), downTimeout, r.FailedLeft?)
      ensures Polled(up.reader, up.writer, r.FailedLeft? || r.FailedRight?, r.Unfinished?, false)
    {
      ghost var x, d := up.Seen(), down.Seen();
      var p, left;
      ghost var y, e;
      p, left, y, e := Turns(x, d);
      if p.Waits? {
        InOrder(up);
        InOrder(down);
      }
      if p.Fails? {
        r := if left then FailedLeft else FailedRight;
      } else if BothDone() {
        r := Finished(up.count, down.count);
      } else {
        r := Unfinished;
      }
    }
  }

  /** A whole run: the future is polled as often as the executor likes.  Bytes are never
      lost, repeated or reordered in either direction; on success the counts are the bytes
      written, each tracker of the pipe-backed copy was called once with its count, and at
      most one direction was cut short by its timer: the other gave on everything up to the
      end of its input, flushed; but with a buffer of size zero the end is never seen.

      A run that has not ended is held up: `upDone` and `downDone` count the polls that ended
      with a direction done.  Beside a direction that is done, the other one runs only while
      its timer does not fire, from the first of those polls on; and a shutdown that has begun
      and is not over was pending when it was asked first. */
  method CopyBoth(a: Stream, b: Stream, piped: bool, size: nat, upTimeout: seq<bool>, downTimeout: seq<bool>,
                  polls: nat)
    returns (r: Outcome, upTracked: seq<nat>, downTracked: seq<nat>, ghost upCut: bool, ghost downCut: bool,
             ghost upDone: nat, ghost downDone: nat)
    requires a != b && FreshPair(a, b) && FreshPair(b, a)
    modifies a, b
    ensures b.given <= a.taken && a.given <= b.taken
    ensures r.Finished? ==> r.up == |b.given| && r.down == |a.given| && a.closing && b.closing
    ensures r.Finished? ==>
      upTracked == (if piped then [r.up] else []) && downTracked == (if piped then [r.down] else [])
    ensures r.Finished? && !upCut ==> b.given == a.taken && (a.ended <==> piped || size > 0) && !b.unflushed
    ensures r.Finished? && !downCut ==> a.given == b.taken && (b.ended <==> piped || size > 0) && !a.unflushed
    ensures r.Finished? ==> !(upCut && downCut)
    ensures r.Unfinished? ==> (b.closed <==> upDone > 0) && (a.closed <==> downDone > 0) && !(a.closed && b.closed)
    ensures r.Unfinished? && upDone > 0 && !a.closing ==> NoneFired(downTimeout, upDone)
    ensures r.Unfinished? && downDone > 0 && !b.closing ==> NoneFired(upTimeout, downDone)
    ensures r.Unfinished? ==>
      && (a.closing && !a.closed ==> WillWait(old(a.shutdownScript)))
      && (b.closing && !b.closed ==> WillWait(old(b.shutdownScript)))
    ensures r.FailedLeft? ==>
      && upTracked == (if piped && !b.closing then [|b.given|] else [])
      && downTracked == (if piped && a.closed then [|a.given|] else [])
    ensures r.FailedRight? ==>
      && downTracked == (if piped && !a.closing then [|a.given|] else [])
      && upTracked == (if piped && b.closed then [|b.given|] else [])
    ensures (piped || size > 0) && polls > 0 && old(EndsThenBreaks(a, b)) ==> r.FailedLeft? && upTracked == []
    ensures (piped || size > 0) && polls > 0 && old(HalfClosed(a, b)) && Fires(Some(downTimeout)) ==> r.Finished?
    ensures Polled(a, b, r.FailedLeft? || r.FailedRight?, false, false)
  {
    var up, down := NewPair(a, b, piped, size);
    var c := new CopyBidirectional(up, down, upTimeout, downTimeout);
    r, upDone, downDone := RunPair(c, polls);
    upTracked, downTracked, upCut, downCut := up.tracked, down.tracked, up.cut, down.cut;
  }

  // A direction that was done when the copy finished.
  ghost predicate FinishedOk(t: Transfer)
    reads t, t.reader, t.writer
  {
    && t.writer.closing && t.tracked == (if t.piped then [|t.writer.given|] else [])
    && (!t.cut ==> t.writer.given == t.reader.taken && (t.reader.ended <==> !t.blind) && !t.writer.unflushed)
  }

  // A direction beside one that has been done at the end of m polls.
  ghost predicate HeldUp(t: Transfer, m: nat, timeout: seq<bool>, closes: seq<PollEvent>)
    reads t.reader, t.writer
  {
    && (m > 0 && !t.writer.closing ==> NoneFired(timeout, m))
    && (t.writer.closing && !t.writer.closed ==> WillWait(closes))
  }

  // A run, told by what the streams and trackers show.
  method RunPair(c: CopyBidirectional, polls: nat) returns (r: Outcome, ghost upDone: nat, ghost downDone: nat)
    requires Opposite(c.up, c.down) && c.up.state.Running? && c.down.state.Running?
    modifies c.up.Own(), c.down.Own(), c.up.reader, c.up.writer
    ensures c.up.writer.given <= c.up.reader.taken && c.down.writer.given <= c.down.reader.taken
    ensures r.Finished? ==> FinishedOk(c.up) && FinishedOk(c.down) && !(c.up.cut && c.down.cut)
    ensures r.Finished? ==> r.up == |c.up.writer.given| && r.down == |c.down.writer.given|
    ensures r.FailedLeft? || r.FailedRight? ==> c.TrackedFailing(r.FailedLeft?)
    ensures r.Unfinished? ==>
      && (c.up.writer.closed <==> upDone > 0) && (c.down.writer.closed <==> downDone > 0)
      && !(c.up.writer.closed && c.down.writer.closed)
      && HeldUp(c.up, downDone, c.upTimeout, old(c.up.writer.shutdownScript))
      && HeldUp(c.down, upDone, c.downTimeout, old(c.down.writer.shutdownScript))
    ensures polls > 0 && Doomed(old(c.up.Seen())) ==> r.FailedLeft? && c.up.writer.closing
    ensures polls > 0 && Ending(old(c.up.Seen()), old(c.down.Seen()), c.downTimeout) ==> r.Finished?
    ensures Polled(c.up.reader, c.up.writer, r.FailedLeft? || r.FailedRight?, false, false)
  {
    r, upDone, downDone := PollUpTo(c, polls);
    if r.Finished? || r.Unfinished? {
      StagesShow(c.up);
      StagesShow(c.down);
    }
  }

  // The executor's side: polls until there is a result, or no more.
  method PollUpTo(c: CopyBidirectional, polls: nat) returns (r: Outcome, ghost upDone: nat, ghost downDone: nat)
    requires Opposite(c.up, c.down) && c.up.state.Running? && c.down.state.Running?
    modifies c.up.Own(), c.down.Own(), c.up.reader, c.up.writer
    ensures c.up.writer.given <= c.up.reader.taken && c.down.writer.given <= c.down.reader.taken
    ensures r.Finished? || r.Unfinished? ==> Opposite(c.up, c.down)
    ensures (r.Finished? ==> c.BothDone()) && (r.Unfinished? ==> !c.BothDone())
    ensures r.Finished? ==> r.up == |c.up.writer.given| && r.down == |c.down.writer.given|
    ensures r.FailedLeft? || r.FailedRight? ==> c.TrackedFailing(r.FailedLeft?)
    ensures r.Unfinished? ==>
      && Waited(old(c.up.Seen()), c.up.Seen(), c.down.Seen(), downDone, c.upTimeout)
      && Waited(old(c.down.Seen()), c.down.Seen(), c.up.Seen(), upDone, c.downTimeout)
    ensures polls > 0 && Doomed(old(c.up.Seen())) ==> r.FailedLeft? && c.up.writer.closing
    ensures polls > 0 && Ending(old(c.up.Seen()), old(c.down.Seen()), c.downTimeout) ==> r.Finished?
    ensures Polled(c.up.reader, c.up.writer, r.FailedLeft? || r.FailedRight?, false, false)
  {
    InOrder(c.up);
    InOrder(c.down);
    r, upDone, downDone := Unfinished, 0, 0;
    var n := 0;
    while n < polls && r.Unfinished?
      invariant r.Finished? || r.Unfinished? ==> Opposite(c.up, c.down)
      invariant c.up.Own() <= old(c.up.Own()) && c.down.Own() <= old(c.down.Own())
      invariant c.up.writer.given <= c.up.reader.taken && c.down.writer.given <= c.down.reader.taken
      invariant (r.Finished? ==> c.BothDone()) && (r.Unfinished? ==> !c.BothDone())
      invariant r.Finished? ==> r.up == |c.up.writer.given| && r.down == |c.down.writer.given|
      invariant r.FailedLeft? || r.FailedRight? ==> c.TrackedFailing(r.FailedLeft?)
      invariant (n == 0 ==> r.Unfinished?) && n <= polls
      invariant r.Unfinished? ==>
        && Waited(old(c.up.Seen()), c.up.Seen(), c.down.Seen(), downDone, c.upTimeout)
        && Waited(old(c.down.Seen()), c.down.Seen(), c.up.Seen(), upDone, c.downTimeout)
      invariant n == 0 ==> c.up.Seen() == old(c.up.Seen()) && c.down.Seen() == old(c.down.Seen())
      invariant n > 0 && Doomed(old(c.up.Seen())) ==> r.FailedLeft? && c.up.writer.closing
      invariant n > 0 && Ending(old(c.up.Seen()), old(c.down.Seen()), c.downTimeout) ==> r.Finished?
      invariant Polled(c.up.reader, c.up.writer, r.FailedLeft? || r.FailedRight?, false, false)
      decreases polls - n
    {
      ghost var x, d := c.up.Seen(), c.down.Seen();
      r := c.Poll();
      if r.Unfinished? {
        WaitedMore(old(c.up.Seen()), x, d, downDone, c.up.Seen(), c.down.Seen(), c.upTimeout);
        WaitedMore(old(c.down.Seen()), d, x, upDone, c.down.Seen(), c.up.Seen(), c.downTimeout);
        upDone := if c.up.state.Done? then upDone + 1 else 0;
        downDone := if c.down.state.Done? then downDone + 1 else 0;
      }
      n := n + 1;
    }
  }

  method NewPair(a: Stream, b: Stream, piped: bool, size: nat) returns (up: Transfer, down: Transfer)
    requires a != b && FreshPair(a, b) && FreshPair(b, a)
    ensures fresh(up) && fresh(down) && fresh(up.Own()) && fresh(down.Own())
    ensures up.reader == a && up.writer == b && up.piped == piped && Opposite(up, down)
    ensures up.state.Running? && down.state.Running?
    ensures (up.blind <==> !piped && size == 0) && (down.blind <==> !piped && size == 0)
    ensures (piped || size > 0) && AtEnd(a.readScript) && WillComplete(b.flushScript) ==> up.EndsNow()
    ensures (piped || size > 0) && Silent(b.readScript) ==> down.Quiet()
  {
    up := NewTransfer(a, b, piped, size);
    down := NewTransfer(b, a, piped, size);
    StartsOpposite(up, down);
  }

  method NewTransfer(reader: Stream, writer: Stream, piped: bool, size: nat) returns (t: Transfer)
    requires reader != writer && FreshPair(reader, writer)
    ensures fresh(t) && fresh(t.Own()) && t.reader == reader && t.writer == writer && t.piped == piped
    ensures t.Valid() && t.state.Running? && t.delay == None && (t.blind <==> !piped && size == 0)
    ensures (piped || size > 0) && AtEnd(reader.readScript) && WillComplete(writer.flushScript) ==> t.EndsNow()
    ensures (piped || size > 0) && Silent(reader.readScript) ==> t.Quiet()
  {
    if piped {
      t := new Transfer.ThroughPipe(reader, writer);
    } else {
      t := new Transfer.Buffered(reader, writer, size);
    }
  }

  lemma StartsOpposite(t: Transfer, o: Transfer)
    requires Linked(t, o) && t.Valid() && o.Valid() && t.state.Running? && o.state.Running?
    requires t.delay == None && o.delay == None
    ensures Opposite(t, o)
  {
    StagesShow(t);
    StagesShow(o);
  }

  /** A piped copy that has nothing to move: when the shutdown after it breaks, the copy fails
      and the tracker of that direction has been given nothing. */
  method FailedShutdownUntracked() returns (r: Outcome, upTracked: seq<nat>)
    ensures r.FailedLeft? && upTracked == []
  {
    var a := new Stream([Data([])], [], [], []);
    var b := new Stream([], [], [Completes], [Breaks]);
    var downTracked;
    ghost var upCut, downCut, upDone, downDone;
    r, upTracked, downTracked, upCut, downCut, upDone, downDone := CopyBoth(a, b, true, 0, [], [], 1);
  }

  /** One side is at its end and the other never says anything: the copy finishes as soon as
      the timer fires. */
  method SilentSideIsCut() returns (r: Outcome)
    ensures r.Finished?
  {
    var a := new Stream([Data([])], [], [], [Completes]);
    var b := new Stream([], [], [Completes], [Completes]);
    var upTracked, downTracked;
    ghost var upCut, downCut, upDone, downDone;
    r, upTracked, downTracked, upCut, downCut, upDone, downDone := CopyBoth(a, b, false, 1, [true], [true], 1);
  }
}
