/** The ring buffer of clash-netstack/src/ring_buffer.rs as one object.

    Each operation runs on its own here; the other side is present in the value loaded for
    its index, which may be an old one.  RingProtocol interleaves the single steps. */
module RingBuffer {
  import opened Basics
  import opened RingIndex

  class LockFreeRingBuffer {
    const capacity: nat
    const buffer: array<byte>
    var writePos: nat
    var readPos: nat
    // all bytes ever accepted, how many were taken, and the counts behind the index
    // values that each side has loaded last
    ghost var accepted: seq<byte>
    ghost var taken: nat
    ghost var seenRead: nat
    ghost var seenWrite: nat

    ghost predicate Valid()
      reads this, buffer
    {
      && capacity > 0 && buffer.Length == capacity
      && writePos == Pos(|accepted|, capacity) && readPos == Pos(taken, capacity)
      && seenRead <= taken <= seenWrite <= |accepted| < seenRead + capacity
      && Holds(buffer[..], accepted, taken)
    }

    // What is in the ring.
    ghost function Queue(): (q: seq<byte>)
      reads this, buffer
      requires Valid()
      ensures |q| < capacity
    {
      accepted[taken..]
    }

    constructor (capacity: nat)
      requires capacity > 0
      ensures Valid() && this.capacity == capacity && fresh(buffer)
      ensures accepted == [] && taken == 0 && seenRead == 0 && seenWrite == 0
    {
      this.capacity := capacity;
      buffer := new byte[capacity](_ => 0);
      writePos, readPos := 0, 0;
      accepted, taken, seenRead, seenWrite := [], 0, 0, 0;
    }

    // A value that the producer may load for the read position: the position of some count
    // not older than the one it loaded before.
    ghost predicate MayLoadRead(value: nat, count: nat)
      reads this, buffer
    {
      Valid() && seenRead <= count <= taken && value == Pos(count, capacity)
    }

    ghost predicate MayLoadWrite(value: nat, count: nat)
      reads this, buffer
    {
      Valid() && seenWrite <= count <= |accepted| && value == Pos(count, capacity)
    }

    /** `enqueue_slice`: accepts as many bytes as the loaded read position shows to be free,
        one slot being kept empty. */
    method EnqueueSlice(data: seq<byte>, loaded: nat, ghost count: nat) returns (n: nat)
      requires MayLoadRead(loaded, count)
      modifies this`writePos, this`accepted, this`seenRead, buffer
      ensures Valid() && seenRead == count
      ensures n == Min(|data|, capacity - 1 - (|old(accepted)| - count))
      ensures accepted == old(accepted) + data[..n]
    {
      seenRead := count;
      PosDistance(count, |accepted|, capacity);
      var available := if loaded <= writePos then capacity - writePos + loaded - 1 else loaded - writePos - 1;
      n := Min(|data|, available);
      if n > 0 { PutIn(data[..n]); }
    }

    // Copies in and publishes the new write position.
    method PutIn(data: seq<byte>)
      requires Valid() && |data| > 0 && |accepted| + |data| < seenRead + capacity
      modifies this`writePos, this`accepted, buffer
      ensures Valid() && accepted == old(accepted) + data
    {
      WrittenHolds(buffer[..], accepted, taken, data);
      PosAdd(|accepted|, |data|, capacity);
      CopyIn(data);
      writePos := Advance(writePos, |data|, capacity);
      accepted := accepted + data;
    }

    // The two `copy_from_slice` branches of `enqueue_slice`.
    method CopyIn(data: seq<byte>)
      requires capacity > 0 && buffer.Length == capacity && writePos < capacity && |data| <= capacity
      modifies buffer
      ensures buffer[..] == Written(old(buffer[..]), writePos, data)
    {
      var n := |data|;
      if writePos + n <= capacity {
        forall k | writePos <= k < writePos + n { buffer[k] := data[k - writePos]; }
      } else {
        var first := capacity - writePos;
        forall k | writePos <= k < capacity { buffer[k] := data[k - writePos]; }
        forall k | 0 <= k < n - first { buffer[k] := data[first + k]; }
      }
    }

    /** `dequeue_slice`: hands out, in order, as many bytes as the loaded write position
        shows to be there. */
    method DequeueSlice(buf: array<byte>, loaded: nat, ghost count: nat) returns (n: nat)
      requires MayLoadWrite(loaded, count) && buf != buffer
      modifies this`readPos, this`taken, this`seenWrite, buf
      ensures Valid() && seenWrite == count
      ensures n == Min(buf.Length, count - old(taken))
      ensures taken == old(taken) + n <= |accepted| && buf[..n] == accepted[old(taken)..taken]
      ensures forall i :: n <= i < buf.Length ==> buf[i] == old(buf[i])
    {
      seenWrite := count;
      PosDistance(taken, count, capacity);
      var available := if loaded >= readPos then loaded - readPos else capacity - readPos + loaded;
      n := Min(buf.Length, available);
      if n > 0 { TakeOut(buf, n); }
    }

    // Copies out and publishes the new read position.
    method TakeOut(buf: array<byte>, n: nat)
      requires Valid() && buf != buffer && 0 < n <= buf.Length && taken + n <= seenWrite
      modifies this`readPos, this`taken, buf
      ensures Valid() && taken == old(taken) + n
      ensures buf[..n] == accepted[old(taken)..old(taken) + n]
      ensures forall i :: n <= i < buf.Length ==> buf[i] == old(buf[i])
    {
      ghost var ring := buffer[..];
      ReadOutIs(ring, accepted, taken, n);
      PosAdd(taken, n, capacity);
      CopyOut(buf, n);
      readPos := Advance(readPos, n, capacity);
      taken := taken + n;
      assert buffer[..] == ring;
    }

    method CopyOut(buf: array<byte>, n: nat)
      requires capacity > 0 && buffer.Length == capacity && readPos < capacity && n <= capacity
      requires buf != buffer && n <= buf.Length
      modifies buf
      ensures buf[..n] == ReadOut(buffer[..], readPos, n)
      ensures forall i :: n <= i < buf.Length ==> buf[i] == old(buf[i])
    {
      if readPos + n <= capacity {
        forall k | 0 <= k < n { buf[k] := buffer[readPos + k]; }
      } else {
        var first := capacity - readPos;
        forall k | 0 <= k < first { buf[k] := buffer[readPos + k]; }
        forall k | first <= k < n { buf[k] := buffer[k - first]; }
      }
    }

    /** `is_empty`, asked by the consumer: true exactly when the loaded write position
        shows no byte. */
    method IsEmpty(loaded: nat, ghost count: nat) returns (r: bool)
      requires MayLoadWrite(loaded, count)
      modifies this`seenWrite
      ensures Valid() && seenWrite == count && (r <==> count == taken)
    {
      seenWrite := count;
      PosDistance(taken, count, capacity);
      r := readPos == loaded;
    }

    /** `is_full`, asked by the producer. */
    method IsFull(loaded: nat, ghost count: nat) returns (r: bool)
      requires MayLoadRead(loaded, count)
      modifies this`seenRead
      ensures Valid() && seenRead == count && (r <==> |accepted| - count == capacity - 1)
    {
      seenRead := count;
      PosAdd(|accepted|, 1, capacity);
      if |accepted| + 1 < count + capacity { PosDiffer(count, |accepted| + 1, capacity); }
      PosAdd(count, capacity, capacity);
      r := Advance(writePos, 1, capacity) == loaded;
    }
  }
}
