/** The two threads of clash-netstack/src/ring_buffer.rs, interleaved step by step.

    Each side loads its own index, loads the other side's index, copies byte by byte, and
    publishes its own index.  A load of the other index may return an old value, but never
    one older than that side has seen before; buffer bytes behind a published index are
    visible to the side that loaded it (the acquire/release pairs of the source). */
module RingProtocol {
  import opened Basics
  import opened RingIndex

  datatype Producer =
    | PIdle
    | PCalled(data: seq<byte>)
    | PLoadedOwn(data: seq<byte>, write: nat)
    | PLoaded(data: seq<byte>, write: nat, read: nat)
    | PCopying(data: seq<byte>, write: nat, n: nat, k: nat)

  datatype Consumer =
    | CIdle
    | CCalled(size: nat)
    | CLoadedOwn(size: nat, read: nat)
    | CLoaded(size: nat, read: nat, write: nat)
    | CCopying(read: nat, n: nat, out: seq<byte>)

  /** `accepted` and `taken` record all bytes published by the two sides so far, and the
      `seen` counts what the last load of the other index stood for. */
  datatype State = State(
    ring: seq<byte>,
    writePos: nat,
    readPos: nat,
    prod: Producer,
    cons: Consumer,
    accepted: seq<byte>,
    taken: seq<byte>,
    seenRead: nat,
    seenWrite: nat)

  datatype Step =
    | PCall(data: seq<byte>)
    | PLoadOwn
    | PLoadRead(count: nat)
    | PDecide
    | PCopyByte
    | PPublish
    | PCheckFull(count: nat)
    | CCall(size: nat)
    | CLoadOwn
    | CLoadWrite(count: nat)
    | CDecide
    | CCopyByte
    | CPublish
    | CCheckEmpty(count: nat)

  // ---------------------------------------------------------------- the steps

  ghost predicate Init(s: State) {
    && |s.ring| > 0 && s.writePos == 0 && s.readPos == 0 && s.prod == PIdle && s.cons == CIdle
    && s.accepted == [] && s.taken == [] && s.seenRead == 0 && s.seenWrite == 0
  }

  // `available` in `enqueue_slice` and in `dequeue_slice`
  function Free(cap: nat, write: nat, read: nat): int {
    if read <= write then cap - write + read - 1 else read - write - 1
  }

  function Filled(cap: nat, write: nat, read: nat): int {
    if write >= read then write - read else cap - read + write
  }

  // The slot of byte k of a copy of n bytes that starts at a position.
  function Index(cap: nat, at: nat, n: nat, k: nat): int {
    if at + n <= cap then at + k else if k < cap - at then at + k else k - (cap - at)
  }

  ghost predicate ProducerStep(s: State, step: Step, t: State) {
    var cap := |s.ring|;
    match (step, s.prod)
    case (PCall(data), PIdle) => t == s.(prod := PCalled(data))
    case (PLoadOwn, PCalled(data)) => t == s.(prod := PLoadedOwn(data, s.writePos))
    case (PLoadRead(count), PLoadedOwn(data, write)) =>
      && cap > 0 && s.seenRead <= count <= |s.taken|
      && t == s.(prod := PLoaded(data, write, Pos(count, cap)), seenRead := count)
    case (PDecide, PLoaded(data, write, read)) =>
      var available := Free(cap, write, read);
      && available >= 0
      && var n := Min(|data|, available);
      t == s.(prod := if n == 0 then PIdle else PCopying(data, write, n, 0))
    case (PCopyByte, PCopying(data, write, n, k)) =>
      && k < n <= |data|
      && var i := Index(cap, write, n, k);
      && 0 <= i < cap && t == s.(ring := s.ring[i := data[k]], prod := PCopying(data, write, n, k + 1))
    case (PPublish, PCopying(data, write, n, k)) =>
      && k == n <= |data| && write < cap && n <= cap
      && t == s.(writePos := Advance(write, n, cap), accepted := s.accepted + data[..n], prod := PIdle)
    case (PCheckFull(count), PIdle) =>
      s.seenRead <= count <= |s.taken| && t == s.(seenRead := count)
    case _ => false
  }

  ghost predicate ConsumerStep(s: State, step: Step, t: State) {
    var cap := |s.ring|;
    match (step, s.cons)
    case (CCall(size), CIdle) => t == s.(cons := CCalled(size))
    case (CLoadOwn, CCalled(size)) => t == s.(cons := CLoadedOwn(size, s.readPos))
    case (CLoadWrite(count), CLoadedOwn(size, read)) =>
      && cap > 0 && s.seenWrite <= count <= |s.accepted|
      && t == s.(cons := CLoaded(size, read, Pos(count, cap)), seenWrite := count)
    case (CDecide, CLoaded(size, read, write)) =>
      var available := Filled(cap, write, read);
      && available >= 0
      && var n := Min(size, available);
      t == s.(cons := if n == 0 then CIdle else CCopying(read, n, []))
    case (CCopyByte, CCopying(read, n, out)) =>
      && |out| < n
      && var i := Index(cap, read, n, |out|);
      && 0 <= i < cap && t == s.(cons := CCopying(read, n, out + [s.ring[i]]))
    case (CPublish, CCopying(read, n, out)) =>
      && |out| == n && read < cap && n <= cap
      && t == s.(readPos := Advance(read, n, cap), taken := s.taken + out, cons := CIdle)
    case (CCheckEmpty(count), CIdle) =>
      s.seenWrite <= count <= |s.accepted| && t == s.(seenWrite := count)
    case _ => false
  }

  ghost predicate Next(s: State, step: Step, t: State) {
    ProducerStep(s, step, t) || ConsumerStep(s, step, t)
  }

  // ---------------------------------------------------------------- the invariant

  ghost predicate RingOk(s: State) {
    && |s.ring| > 0
    && s.writePos == Pos(|s.accepted|, |s.ring|) && s.readPos == Pos(|s.taken|, |s.ring|)
    && s.seenRead <= |s.taken| <= s.seenWrite <= |s.accepted| < s.seenRead + |s.ring|
    && s.taken == s.accepted[..|s.taken|]
    && Holds(s.ring, s.accepted, |s.taken|)
  }

  ghost predicate ProducerOk(s: State)
    requires |s.ring| > 0
  {
    match s.prod
    case PIdle => true
    case PCalled(_) => true
    case PLoadedOwn(_, write) => write == s.writePos
    case PLoaded(_, write, read) => write == s.writePos && read == Pos(s.seenRead, |s.ring|)
    case PCopying(data, write, n, k) =>
      && write == s.writePos && 0 < n <= |data| && k <= n && |s.accepted| + n < s.seenRead + |s.ring|
      && Holds(s.ring, s.accepted + data[..k], |s.accepted|)
  }

  ghost predicate ConsumerOk(s: State)
    requires |s.ring| > 0
  {
    match s.cons
    case CIdle => true
    case CCalled(_) => true
    case CLoadedOwn(_, read) => read == s.readPos
    case CLoaded(_, read, write) => read == s.readPos && write == Pos(s.seenWrite, |s.ring|)
    case CCopying(read, n, out) =>
      && read == s.readPos && 0 < n && |out| <= n && |s.taken| + n <= s.seenWrite <= |s.accepted|
      && out == s.accepted[|s.taken|..|s.taken| + |out|]
  }

  ghost predicate Inv(s: State) {
    RingOk(s) && ProducerOk(s) && ConsumerOk(s)
  }

  lemma InitInv(s: State)
    requires Init(s)
    ensures Inv(s)
  {
  }

  // What the two sides compute from the loaded positions.
  lemma Measures(lo: nat, hi: nat, cap: nat)
    requires cap > 0 && lo <= hi < lo + cap
    ensures Free(cap, Pos(hi, cap), Pos(lo, cap)) == cap - 1 - (hi - lo)
    ensures Filled(cap, Pos(hi, cap), Pos(lo, cap)) == hi - lo
  {
    PosDistance(lo, hi, cap);
  }

  lemma IndexIsPos(cap: nat, from: nat, n: nat, k: nat)
    requires cap > 0 && k < n <= cap
    ensures Index(cap, Pos(from, cap), n, k) == Pos(from + k, cap)
  {
    PosAdd(from, k, cap);
  }

  // Writing the slot of a later count leaves the items held before it.
  lemma WriteKeeps(ring: seq<byte>, items: seq<byte>, lo: nat, at: nat, b: byte)
    requires |ring| > 0 && Holds(ring, items, lo) && |items| <= at < lo + |ring|
    ensures Holds(ring[Pos(at, |ring|) := b], items, lo)
  {
    forall k | lo <= k < |items| ensures ring[Pos(at, |ring|) := b][Pos(k, |ring|)] == items[k] {
      PosDiffer(k, at, |ring|);
    }
  }

  // Where the producer's next byte goes.
  lemma CopyByteWrites(s: State, t: State)
    requires Inv(s) && ProducerStep(s, PCopyByte, t)
    ensures |s.accepted| + s.prod.k + 1 < |s.taken| + |s.ring| && s.prod.k < |s.prod.data| && s.prod.k < |s.ring|
    ensures t.ring == s.ring[Pos(|s.accepted| + s.prod.k, |s.ring|) := s.prod.data[s.prod.k]]
  {
    IndexIsPos(|s.ring|, |s.accepted|, s.prod.n, s.prod.k);
  }

  lemma CopyByteKeeps(s: State, t: State)
    requires Inv(s) && ProducerStep(s, PCopyByte, t)
    ensures Inv(t)
  {
    CopyByteWrites(s, t);
    CopyKeepsRing(s, t);
    CopyKeepsProducer(s, t);
  }

  lemma CopyKeepsRing(s: State, t: State)
    requires RingOk(s) && s.prod.PCopying? && s.prod.k < |s.prod.data|
    requires |s.accepted| + s.prod.k < |s.taken| + |s.ring|
    requires t == s.(ring := s.ring[Pos(|s.accepted| + s.prod.k, |s.ring|) := s.prod.data[s.prod.k]], prod := t.prod)
    ensures RingOk(t)
  {
    WriteKeeps(s.ring, s.accepted, |s.taken|, |s.accepted| + s.prod.k, s.prod.data[s.prod.k]);
  }

  lemma CopyKeepsProducer(s: State, t: State)
    requires |s.ring| > 0 && ProducerOk(s) && s.prod.PCopying? && s.prod.k < s.prod.n && s.prod.k < |s.ring|
    requires t == s.(ring := s.ring[Pos(|s.accepted| + s.prod.k, |s.ring|) := s.prod.data[s.prod.k]],
                     prod := PCopying(s.prod.data, s.prod.write, s.prod.n, s.prod.k + 1))
    ensures ProducerOk(t)
  {
    WriteNext(s.ring, s.accepted, s.prod.data, s.prod.k);
  }

  lemma WriteNext(ring: seq<byte>, items: seq<byte>, data: seq<byte>, k: nat)
    requires k < |data| && k < |ring| && Holds(ring, items + data[..k], |items|)
    ensures Holds(ring[Pos(|items| + k, |ring|) := data[k]], items + data[..k + 1], |items|)
  {
    OneMoreByte(items, data, k);
    HoldsOneMore(ring, items + data[..k], |items|, |items| + k, data[k], items + data[..k + 1]);
  }

  lemma OneMoreByte(items: seq<byte>, data: seq<byte>, k: nat)
    requires k < |data|
    ensures items + data[..k + 1] == items + data[..k] + [data[k]]
  {
    assert data[..k + 1] == data[..k] + [data[k]];
  }

  lemma HoldsOneMore(ring: seq<byte>, held: seq<byte>, lo: nat, at: nat, b: byte, all: seq<byte>)
    requires |ring| > 0 && Holds(ring, held, lo) && lo <= |held| == at < lo + |ring| && all == held + [b]
    ensures Holds(ring[Pos(at, |ring|) := b], all, lo)
  {
    WriteKeeps(ring, held, lo, at, b);
  }

  lemma HoldsJoin(ring: seq<byte>, items: seq<byte>, lo: nat, run: seq<byte>)
    requires |ring| > 0 && Holds(ring, items, lo) && Holds(ring, items + run, |items|)
    ensures Holds(ring, items + run, lo)
  {
    forall k | lo <= k < |items + run| ensures ring[Pos(k, |ring|)] == (items + run)[k] {
      if k < |items| { assert items[k] == (items + run)[k]; }
    }
  }

  lemma PublishKeeps(s: State, t: State)
    requires Inv(s) && ProducerStep(s, PPublish, t)
    ensures Inv(t)
  {
    PosAdd(|s.accepted|, s.prod.n, |s.ring|);
    HoldsJoin(s.ring, s.accepted, |s.taken|, s.prod.data[..s.prod.n]);
    assert t.taken == t.accepted[..|t.taken|];
  }

  lemma ProducerKeeps(s: State, step: Step, t: State)
    requires Inv(s) && ProducerStep(s, step, t)
    ensures Inv(t)
  {
    match step {
      case PDecide => Measures(s.seenRead, |s.accepted|, |s.ring|);
      case PCopyByte => CopyByteKeeps(s, t);
      case PPublish => PublishKeeps(s, t);
      case _ =>
    }
  }

  lemma TakeByteKeeps(s: State, t: State)
    requires Inv(s) && ConsumerStep(s, CCopyByte, t)
    ensures Inv(t)
  {
    var r, k := |s.taken|, |s.cons.out|;
    IndexIsPos(|s.ring|, r, s.cons.n, k);
    assert s.ring[Pos(r + k, |s.ring|)] == s.accepted[r + k];
    assert t.cons.out == s.accepted[r..r + k + 1];
  }

  lemma ConsumerPublishKeeps(s: State, t: State)
    requires Inv(s) && ConsumerStep(s, CPublish, t)
    ensures Inv(t)
  {
    PosAdd(|s.taken|, s.cons.n, |s.ring|);
    assert t.taken == s.accepted[..|s.taken|] + s.accepted[|s.taken|..|s.taken| + s.cons.n] == t.accepted[..|t.taken|];
  }

  lemma ConsumerKeeps(s: State, step: Step, t: State)
    requires Inv(s) && ConsumerStep(s, step, t)
    ensures Inv(t)
  {
    match step {
      case CDecide => Measures(|s.taken|, s.seenWrite, |s.ring|);
      case CCopyByte => TakeByteKeeps(s, t);
      case CPublish => ConsumerPublishKeeps(s, t);
      case _ =>
    }
  }

  // ---------------------------------------------------------------- whole runs

  ghost predicate Run(run: seq<State>, steps: seq<Step>) {
    && |run| == |steps| + 1 && Init(run[0])
    && forall i {:trigger steps[i]} :: 0 <= i < |steps| ==> Next(run[i], steps[i], run[i + 1])
  }

  lemma {:induction false} RunInv(run: seq<State>, steps: seq<Step>, i: nat)
    requires Run(run, steps) && i < |run|
    ensures Inv(run[i]) && |run[i].ring| == |run[0].ring|
  {
    if i == 0 {
      InitInv(run[0]);
    } else {
      RunInv(run, steps, i - 1);
      var s, step, t := run[i - 1], steps[i - 1], run[i];
      assert Next(s, step, t);
      if ProducerStep(s, step, t) { ProducerKeeps(s, step, t); } else { ConsumerKeeps(s, step, t); }
    }
  }

  // What is in the ring, oldest byte first.
  function Queue(s: State): seq<byte>
    requires |s.taken| <= |s.accepted|
  {
    s.accepted[|s.taken|..]
  }

  /** In every interleaving the bytes handed out are the first of the bytes accepted, and
      the ring never holds more than its capacity less one. */
  lemma FifoInEveryRun(run: seq<State>, steps: seq<Step>, i: nat)
    requires Run(run, steps) && i < |run|
    ensures run[i].taken <= run[i].accepted
    ensures |Queue(run[i])| <= |run[0].ring| - 1
  {
    RunInv(run, steps, i);
  }

  /** Every step of either side is a step of a queue, or leaves the queue as it is. */
  lemma RefinesQueue(s: State, step: Step, t: State)
    requires Inv(s) && Next(s, step, t)
    ensures |t.taken| <= |t.accepted|
    ensures step.PPublish? ==> s.prod.PCopying? && Queue(t) == Queue(s) + s.prod.data[..s.prod.n]
    ensures step.CPublish? ==> s.cons.CCopying? && Queue(s) == s.cons.out + Queue(t)
    ensures !step.PPublish? && !step.CPublish? ==> Queue(t) == Queue(s)
  {
    match step {
      case PPublish => PublishAppends(s, t);
      case CPublish => PublishRemoves(s, t);
      case _ =>
    }
  }

  lemma PublishAppends(s: State, t: State)
    requires Inv(s) && ProducerStep(s, PPublish, t)
    ensures |t.taken| <= |t.accepted| && Queue(t) == Queue(s) + s.prod.data[..s.prod.n]
  {
    AppendAfter(s.accepted, |s.taken|, s.prod.data[..s.prod.n]);
  }

  lemma AppendAfter(a: seq<byte>, n: nat, b: seq<byte>)
    requires n <= |a|
    ensures (a + b)[n..] == a[n..] + b
  {
  }

  lemma PublishRemoves(s: State, t: State)
    requires Inv(s) && ConsumerStep(s, CPublish, t)
    ensures |t.taken| <= |t.accepted| && Queue(s) == s.cons.out + Queue(t)
  {
    var n := |s.taken| + s.cons.n;
    assert s.accepted[|s.taken|..] == s.accepted[|s.taken|..n] + s.accepted[n..];
  }

  /** The slots being written and the slots being read have nothing in common. */
  lemma NoOverlap(s: State, j: nat, k: nat)
    requires Inv(s) && s.prod.PCopying? && s.cons.CCopying? && j < s.prod.n && k < s.cons.n
    ensures Index(|s.ring|, s.prod.write, s.prod.n, j) != Index(|s.ring|, s.cons.read, s.cons.n, k)
  {
    var cap := |s.ring|;
    IndexIsPos(cap, |s.accepted|, s.prod.n, j);
    IndexIsPos(cap, |s.taken|, s.cons.n, k);
    PosDiffer(|s.taken| + k, |s.accepted| + j, cap);
  }

  /** No subtraction of the source goes below zero and no index leaves the buffer: a side
      that is inside a call can always go on. */
  lemma NeverStuck(s: State)
    requires Inv(s)
    ensures s.prod.PLoaded? ==> Free(|s.ring|, s.prod.write, s.prod.read) >= 0
    ensures s.cons.CLoaded? ==> Filled(|s.ring|, s.cons.write, s.cons.read) >= 0
    ensures s.prod.PCopying? ==> s.prod.write < |s.ring| && s.prod.n < |s.ring|
    ensures s.cons.CCopying? ==> s.cons.read < |s.ring| && s.cons.n < |s.ring|
    ensures s.prod.PCopying? && s.prod.k < s.prod.n ==>
      0 <= Index(|s.ring|, s.prod.write, s.prod.n, s.prod.k) < |s.ring|
    ensures s.cons.CCopying? && |s.cons.out| < s.cons.n ==>
      0 <= Index(|s.ring|, s.cons.read, s.cons.n, |s.cons.out|) < |s.ring|
  {
    if s.prod.PLoaded? { Measures(s.seenRead, |s.accepted|, |s.ring|); }
    if s.cons.CLoaded? { Measures(|s.taken|, s.seenWrite, |s.ring|); }
  }

  // ---------------------------------------------------------------- progress

  // What a check of `is_full` or `is_empty` that came out false has shown its own side.
  ghost predicate SeenRoom(s: State) {
    |s.accepted| + 1 < s.seenRead + |s.ring|
  }

  ghost predicate SeenBytes(s: State) {
    |s.taken| < s.seenWrite
  }

  lemma CheckFullMeans(s: State, count: nat)
    requires Inv(s) && s.seenRead <= count <= |s.taken|
    ensures Advance(s.writePos, 1, |s.ring|) == Pos(count, |s.ring|) <==> !SeenRoom(s.(seenRead := count))
  {
    var cap := |s.ring|;
    PosAdd(|s.accepted|, 1, cap);
    PosAdd(count, cap, cap);
    if |s.accepted| + 1 < count + cap { PosDiffer(count, |s.accepted| + 1, cap); }
  }

  lemma CheckEmptyMeans(s: State, count: nat)
    requires Inv(s) && s.seenWrite <= count <= |s.accepted|
    ensures s.readPos == Pos(count, |s.ring|) <==> !SeenBytes(s.(seenWrite := count))
  {
    PosDistance(|s.taken|, count, |s.ring|);
  }

  /** A check that showed room stays true until the producer publishes, and one that
      showed bytes until the consumer publishes, whatever the other side does. */
  lemma ChecksStayTrue(s: State, step: Step, t: State)
    requires Inv(s) && Next(s, step, t)
    ensures SeenRoom(s) && !step.PPublish? ==> SeenRoom(t)
    ensures SeenBytes(s) && !step.CPublish? ==> SeenBytes(t)
  {
  }

  /** How much a call moves: all of its argument, or as much as the loaded index shows.
      After a check that came out false that is at least one byte. */
  lemma CallMoves(s: State, t: State)
    requires Inv(s)
    ensures s.prod.PLoaded? && ProducerStep(s, PDecide, t) ==>
      var n := Min(|s.prod.data|, |s.ring| - 1 - (|s.accepted| - s.seenRead));
      && t.prod == (if n == 0 then PIdle else PCopying(s.prod.data, s.writePos, n, 0))
      && (SeenRoom(s) && s.prod.data != [] ==> n > 0)
    ensures s.cons.CLoaded? && ConsumerStep(s, CDecide, t) ==>
      var n := Min(s.cons.size, s.seenWrite - |s.taken|);
      && t.cons == (if n == 0 then CIdle else CCopying(s.readPos, n, []))
      && (SeenBytes(s) && s.cons.size > 0 ==> n > 0)
  {
    if s.prod.PLoaded? { Measures(s.seenRead, |s.accepted|, |s.ring|); }
    if s.cons.CLoaded? { Measures(|s.taken|, s.seenWrite, |s.ring|); }
  }
}
