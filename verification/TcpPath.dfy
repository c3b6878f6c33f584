/** The users of the ring buffers: the application side in clash-netstack/src/tcp_stream.rs
    and the pump loops of `poll_sockets` in clash-netstack/src/tcp_listener.rs. */
module TcpPath {
  import opened Basics
  import opened RingIndex
  import opened RingBuffer

  /** `poll_read`: pending exactly when the first load shows an empty ring; otherwise a
      non-empty caller buffer gets at least one byte. */
  method PollRead(ring: LockFreeRingBuffer, buf: array<byte>, first: nat, second: nat, ghost c1: nat, ghost c2: nat)
    returns (ready: bool, n: nat)
    requires ring.MayLoadWrite(first, c1) && c1 <= c2 && ring.MayLoadWrite(second, c2) && buf != ring.buffer
    modifies ring, buf
    ensures ring.Valid() && ring.accepted == old(ring.accepted) && ring.taken == old(ring.taken) + n <= |ring.accepted|
    ensures ready <==> c1 > old(ring.taken)
    ensures !ready ==> n == 0
    ensures ready ==> n == Min(buf.Length, c2 - old(ring.taken)) && (buf.Length > 0 ==> n > 0)
    ensures forall i :: n <= i < buf.Length ==> buf[i] == old(buf[i])
    ensures n <= buf.Length && buf[..n] == ring.accepted[old(ring.taken)..ring.taken]
  {
    n := 0;
    var empty := ring.IsEmpty(first, c1);
    ready := !empty;
    if ready {
      n := ring.DequeueSlice(buf, second, c2);
    }
  }

  /** `poll_write`: pending exactly when the first load shows a full ring; otherwise at
      least one byte of a non-empty slice is accepted. */
  method PollWrite(ring: LockFreeRingBuffer, data: seq<byte>, first: nat, second: nat, ghost c1: nat, ghost c2: nat)
    returns (ready: bool, n: nat)
    requires ring.MayLoadRead(first, c1) && c1 <= c2 && ring.MayLoadRead(second, c2)
    modifies ring, ring.buffer
    ensures ring.Valid() && ring.taken == old(ring.taken) && n <= |data| &&
      ring.accepted == old(ring.accepted) + data[..n]
    ensures ready <==> |old(ring.accepted)| - c1 < ring.capacity - 1
    ensures !ready ==> n == 0
    ensures ready ==> n == Min(|data|, ring.capacity - 1 - (|old(ring.accepted)| - c2)) && (data != [] ==> n > 0)
  {
    n := 0;
    var full := ring.IsFull(first, c1);
    ready := !full;
    if ready {
      n := ring.EnqueueSlice(data, second, c2);
    }
  }

  // ---------------------------------------------------------------- the pumps

  // While a pump runs, the other side goes on.  It publishes one position after the other,
  // and each load returns any of them that is not older than what was loaded before.
  ghost predicate Ascending(counts: seq<nat>) {
    forall i, j :: 0 <= i < j < |counts| ==> counts[i] <= counts[j]
  }

  ghost predicate ReadWindow(ring: LockFreeRingBuffer, positions: seq<nat>, counts: seq<nat>)
    reads ring, ring.buffer
  {
    && |positions| == |counts| > 0 && Ascending(counts) && counts[|counts| - 1] == ring.taken
    && forall i :: 0 <= i < |counts| ==> ring.MayLoadRead(positions[i], counts[i])
  }

  ghost predicate WriteWindow(ring: LockFreeRingBuffer, positions: seq<nat>, counts: seq<nat>)
    reads ring, ring.buffer
  {
    && |positions| == |counts| > 0 && Ascending(counts) && counts[|counts| - 1] == |ring.accepted|
    && forall i :: 0 <= i < |counts| ==> ring.MayLoadWrite(positions[i], counts[i])
  }

  // A load: this one of the positions, and the ones that may still be loaded after it.
  method Load(positions0: seq<nat>, ghost counts0: seq<nat>, pick: nat)
    returns (positions: seq<nat>, ghost counts: seq<nat>)
    requires |positions0| == |counts0| > 0
    ensures exists k :: 0 <= k < |positions0| && positions == positions0[k..] && counts == counts0[k..]
  {
    var k := if pick < |positions0| then pick else |positions0| - 1;
    positions, counts := positions0[k..], counts0[k..];
  }

  // The application takes bytes, in calls of these sizes.
  method OtherTakes(ring: LockFreeRingBuffer, sizes: seq<nat>, positions0: seq<nat>, ghost counts0: seq<nat>)
    returns (positions: seq<nat>, ghost counts: seq<nat>)
    requires ReadWindow(ring, positions0, counts0)
    modifies ring`readPos, ring`taken, ring`seenWrite
    ensures ReadWindow(ring, positions, counts) && counts[0] == counts0[0]
  {
    positions, counts := positions0, counts0;
    for i := 0 to |sizes|
      invariant ReadWindow(ring, positions, counts) && counts[0] == counts0[0]
    {
      var scratch := new byte[sizes[i]](_ => 0);
      var n := ring.DequeueSlice(scratch, ring.writePos, |ring.accepted|);
      positions, counts := positions + [ring.readPos], counts + [ring.taken];
    }
  }

  // The application offers these pieces.
  method OtherPuts(ring: LockFreeRingBuffer, pieces: seq<seq<byte>>, positions0: seq<nat>, ghost counts0: seq<nat>)
    returns (positions: seq<nat>, ghost counts: seq<nat>)
    requires WriteWindow(ring, positions0, counts0)
    modifies ring`writePos, ring`accepted, ring`seenRead, ring.buffer
    ensures WriteWindow(ring, positions, counts) && counts[0] == counts0[0] && old(ring.accepted) <= ring.accepted
  {
    positions, counts := positions0, counts0;
    for i := 0 to |pieces|
      invariant WriteWindow(ring, positions, counts) && counts[0] == counts0[0] && old(ring.accepted) <= ring.accepted
    {
      var n := ring.EnqueueSlice(pieces[i], ring.readPos, ring.taken);
      positions, counts := positions + [ring.writePos], counts + [|ring.accepted|];
    }
  }

  // The length of the contiguous part that the socket offers: at least one byte.
  function Contiguous(hint: nat, all: nat): nat
    requires all > 0
  {
    if hint == 0 then 1 else Min(hint, all)
  }

  // What happens around one turn of a pump: what the other side does before each of the two
  // loads, and which position each load returns.
  datatype Meanwhile<X> = Meanwhile(before: X, first: nat, between: X, second: nat)

  // `!buf.is_full()`, with a load that may be old.
  method StillRoom(ring: LockFreeRingBuffer, takes: seq<nat>, pick: nat, positions0: seq<nat>, ghost counts0: seq<nat>)
    returns (room: bool, positions: seq<nat>, ghost counts: seq<nat>)
    requires ReadWindow(ring, positions0, counts0)
    modifies ring`readPos, ring`taken, ring`seenWrite, ring`seenRead
    ensures ReadWindow(ring, positions, counts) && ring.seenRead == counts[0]
    ensures room <==> |ring.accepted| - ring.seenRead < ring.capacity - 1
  {
    positions, counts := OtherTakes(ring, takes, positions0, counts0);
    positions, counts := Load(positions, counts, pick);
    var full := ring.IsFull(positions[0], counts[0]);
    room := !full;
  }

  method ReceiveOnce(ring: LockFreeRingBuffer, slice: seq<byte>, takes: seq<nat>, pick: nat, positions0: seq<nat>,
                     ghost counts0: seq<nat>)
    returns (n: nat, positions: seq<nat>, ghost counts: seq<nat>)
    requires ReadWindow(ring, positions0, counts0) && slice != [] && |ring.accepted| - counts0[0] < ring.capacity - 1
    modifies ring, ring.buffer
    ensures ReadWindow(ring, positions, counts) && 0 < n <= |slice| && ring.accepted == old(ring.accepted) + slice[..n]
  {
    positions, counts := OtherTakes(ring, takes, positions0, counts0);
    positions, counts := Load(positions, counts, pick);
    n := ring.EnqueueSlice(slice, positions[0], counts[0]);
  }

  method AnythingThere(ring: LockFreeRingBuffer, puts: seq<seq<byte>>, pick: nat, positions0: seq<nat>,
                       ghost counts0: seq<nat>)
    returns (some: bool, positions: seq<nat>, ghost counts: seq<nat>)
    requires WriteWindow(ring, positions0, counts0)
    modifies ring`writePos, ring`accepted, ring`seenRead, ring`seenWrite, ring.buffer
    ensures WriteWindow(ring, positions, counts) && ring.seenWrite == counts[0] && old(ring.accepted) <= ring.accepted
    ensures some <==> ring.seenWrite > ring.taken
  {
    positions, counts := OtherPuts(ring, puts, positions0, counts0);
    positions, counts := Load(positions, counts, pick);
    var empty := ring.IsEmpty(positions[0], counts[0]);
    some := !empty;
  }

  method SendOnce(ring: LockFreeRingBuffer, size: nat, puts: seq<seq<byte>>, pick: nat, positions0: seq<nat>,
                  ghost counts0: seq<nat>)
    returns (out: seq<byte>, positions: seq<nat>, ghost counts: seq<nat>)
    requires WriteWindow(ring, positions0, counts0) && size > 0 && counts0[0] > ring.taken
    modifies ring, ring.buffer
    ensures WriteWindow(ring, positions, counts) && old(ring.accepted) <= ring.accepted
    ensures 0 < |out| <= size && ring.taken == old(ring.taken) + |out| <= |ring.accepted|
    ensures out == ring.accepted[old(ring.taken)..ring.taken]
  {
    positions, counts := OtherPuts(ring, puts, positions0, counts0);
    positions, counts := Load(positions, counts, pick);
    var buf := new byte[size](_ => 0);
    var n := ring.DequeueSlice(buf, positions[0], counts[0]);
    out := buf[..n];
  }

  lemma TakenSoFar(before: seq<byte>, after: seq<byte>, a: nat, b: nat, c: nat)
    requires before <= after && a <= b <= |before| && b <= c <= |after|
    ensures before[a..b] + after[b..c] == after[a..c]
  {
    assert before[a..b] == after[a..b];
  }

  /** The receive pump: moves bytes from the socket's queue to the ring, in order, while the
      application takes from the ring at any point and loads return old positions.  It ends,
      with the queue empty or the ring full as the last load shows it. */
  method PumpReceive(ring: LockFreeRingBuffer, queue: seq<byte>, chunk: nat -> nat, others: nat -> Meanwhile<seq<nat>>,
                     positions0: seq<nat>, ghost counts0: seq<nat>)
    returns (moved: nat, notify: bool)
    requires ReadWindow(ring, positions0, counts0)
    modifies ring, ring.buffer
    ensures ring.Valid() && moved <= |queue|
    ensures ring.accepted == old(ring.accepted) + queue[..moved]
    ensures notify <==> moved > 0
    ensures moved == |queue| || |ring.accepted| - ring.seenRead == ring.capacity - 1
  {
    moved, notify := 0, false;
    var i := 0;
    var positions := positions0;
    ghost var counts := counts0;
    while moved < |queue|
      invariant ReadWindow(ring, positions, counts) && moved <= |queue|
      invariant ring.accepted == old(ring.accepted) + queue[..moved]
      invariant notify <==> moved > 0
      decreases |queue| - moved
    {
      var other := others(i);
      var room;
      room, positions, counts := StillRoom(ring, other.before, other.first, positions, counts);
      if !room { break; }
      var slice := queue[moved..moved + Contiguous(chunk(i), |queue| - moved)];
      var n;
      n, positions, counts := ReceiveOnce(ring, slice, other.between, other.second, positions, counts);
      assert queue[..moved] + slice[..n] == queue[..moved + n];
      moved, notify := moved + n, true;
      i := i + 1;
    }
  }

  /** The send pump: moves bytes from the ring to the socket, in order, while the application
      puts more into the ring at any point and loads return old positions.  It ends, with the
      socket full or the ring empty as the last load shows it. */
  method PumpSend(ring: LockFreeRingBuffer, space: nat, slot: nat -> nat, others: nat -> Meanwhile<seq<seq<byte>>>,
                  positions0: seq<nat>, ghost counts0: seq<nat>)
    returns (sent: seq<byte>, notify: bool)
    requires WriteWindow(ring, positions0, counts0)
    modifies ring, ring.buffer
    ensures ring.Valid() && old(ring.accepted) <= ring.accepted
    ensures ring.taken == old(ring.taken) + |sent| <= |ring.accepted| &&
      sent == ring.accepted[old(ring.taken)..ring.taken]
    ensures |sent| <= space && (notify <==> sent != [])
    ensures |sent| == space || ring.seenWrite == ring.taken
  {
    sent, notify := [], false;
    var i := 0;
    var positions := positions0;
    ghost var counts := counts0;
    while |sent| < space
      invariant WriteWindow(ring, positions, counts) && old(ring.accepted) <= ring.accepted
      invariant |sent| <= space && (notify <==> sent != [])
      invariant ring.taken == old(ring.taken) + |sent| && sent == ring.accepted[old(ring.taken)..ring.taken]
      decreases space - |sent|
    {
      var other := others(i);
      ghost var before, from := ring.accepted, ring.taken;
      var some;
      some, positions, counts := AnythingThere(ring, other.before, other.first, positions, counts);
      TakenSoFar(before, ring.accepted, old(ring.taken), from, from);
      if !some { break; }
      ghost var middle := ring.accepted;
      var out;
      var size := Contiguous(slot(i), space - |sent|);
      out, positions, counts := SendOnce(ring, size, other.between, other.second, positions, counts);
      TakenSoFar(middle, ring.accepted, old(ring.taken), from, ring.taken);
      sent := sent + out;
      notify := true;
      i := i + 1;
    }
  }
}
