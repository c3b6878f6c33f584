/** `Fragments` of clash-lib/src/proxy/hysteria2/codec.rs and `send_packet` of mod.rs. */
module UdpFragments {
  import opened Basics
  import opened UdpWire

  // ---------------------------------------------------------------- cutting a payload

  // The payload in pieces of m bytes, the last one perhaps shorter; none when it is empty.
  function Chunks(payload: seq<byte>, m: nat): (cs: seq<seq<byte>>)
    requires m > 0
    decreases |payload|
  {
    if payload == [] then []
    else if |payload| <= m then [payload]
    else [payload[..m]] + Chunks(payload[m..], m)
  }

  function Concat(cs: seq<seq<byte>>): seq<byte> {
    if cs == [] then [] else cs[0] + Concat(cs[1..])
  }

  lemma {:induction false} ChunksConcat(payload: seq<byte>, m: nat)
    requires m > 0
    ensures Concat(Chunks(payload, m)) == payload
    decreases |payload|
  {
    if |payload| > m {
      ChunksConcat(payload[m..], m);
      var cs := Chunks(payload, m);
      assert cs[1..] == Chunks(payload[m..], m);
      assert payload == payload[..m] + payload[m..];
    } else if payload != [] {
      assert Chunks(payload, m)[1..] == [];
    }
  }

  lemma {:induction false} ChunkSizes(payload: seq<byte>, m: nat, k: nat)
    requires m > 0 && k < |Chunks(payload, m)|
    ensures 0 < |Chunks(payload, m)[k]| <= m
    decreases |payload|
  {
    if |payload| > m && k > 0 {
      ChunkSizes(payload[m..], m, k - 1);
    }
  }

  // `len.div_ceil(m)`
  function DivCeil(n: nat, m: nat): nat
    requires m > 0
  {
    if n == 0 then 0 else if n <= m then 1 else 1 + DivCeil(n - m, m)
  }

  // It is the least number of pieces of m that cover n.
  lemma {:induction false} DivCeilIsLeast(n: nat, m: nat)
    requires m > 0
    ensures n <= DivCeil(n, m) * m
    ensures n > 0 ==> (DivCeil(n, m) - 1) * m < n
  {
    if n > m {
      DivCeilIsLeast(n - m, m);
      var k := DivCeil(n - m, m);
      assert (1 + k) * m == m + k * m;
      assert (k - 1) * m == k * m - m;
    }
  }

  /** `div_ceil` counts the pieces, and no smaller number of them would do. */
  lemma {:induction false} ChunkCount(payload: seq<byte>, m: nat)
    requires m > 0
    ensures |Chunks(payload, m)| == DivCeil(|payload|, m)
    ensures |payload| <= |Chunks(payload, m)| * m
    ensures payload != [] ==> (|Chunks(payload, m)| - 1) * m < |payload|
    decreases |payload|
  {
    DivCeilIsLeast(|payload|, m);
    if |payload| > m { ChunkCount(payload[m..], m); }
  }

  // ---------------------------------------------------------------- sending

  /** A packet to send: everything `Fragments::new` is given.  `maxSize` exceeds the fixed
      part of a datagram, or the source cannot cut the payload. */
  datatype Message = Message(sessionId: u32, pktId: u16, addr: seq<byte>, maxSize: nat, payload: seq<byte>)

  predicate Sendable(msg: Message) {
    |msg.addr| < 0x1_0000_0000 && msg.maxSize > FixedSize(msg)
  }

  function FixedSize(msg: Message): nat
    requires |msg.addr| < 0x1_0000_0000
  {
    8 + |msg.addr| + VarSize(|msg.addr|)
  }

  function Pieces(msg: Message): seq<seq<byte>>
    requires Sendable(msg)
  {
    Chunks(msg.payload, msg.maxSize - FixedSize(msg))
  }

  // `frag_total`: the number of pieces, truncated to one byte
  function Total(msg: Message): (n: u8)
    requires Sendable(msg)
    ensures n <= |Pieces(msg)| && (n == |Pieces(msg)| <==> |Pieces(msg)| <= 255)
  {
    |Pieces(msg)| % 256
  }

  function FragmentAt(msg: Message, k: nat): Packet
    requires Sendable(msg) && k < Total(msg)
  {
    Packet(msg.sessionId, msg.pktId, k, Total(msg), msg.addr, Pieces(msg)[k])
  }

  /** The packet as a receiver should see it. */
  function Whole(msg: Message): Packet {
    Packet(msg.sessionId, msg.pktId, 0, 1, msg.addr, msg.payload)
  }

  function Least(a: nat, b: nat): nat {
    if a <= b then a else b
  }

  /** The iterator over the datagrams of one packet. */
  class Fragments {
    const sessionId: u32
    const pktId: u16
    const addr: seq<byte>
    const fragTotal: u8
    var nextFragId: u8
    var nextFragStart: nat
    const payload: seq<byte>
    const maxPktSize: nat
    const fixedSize: nat

    ghost function Msg(): Message {
      Message(sessionId, pktId, addr, maxPktSize, payload)
    }

    ghost predicate Valid()
      reads this
    {
      && Sendable(Msg()) && fixedSize == FixedSize(Msg()) && fragTotal == Total(Msg())
      && nextFragId <= fragTotal && nextFragStart <= |payload|
      && Pieces(Msg())[nextFragId..] == Chunks(payload[nextFragStart..], maxPktSize - fixedSize)
    }

    constructor (msg: Message)
      requires Sendable(msg)
      ensures Valid() && Msg() == msg && nextFragId == 0
    {
      sessionId, pktId, addr, payload, maxPktSize := msg.sessionId, msg.pktId, msg.addr, msg.payload, msg.maxSize;
      var fixed := 4 + 2 + 1 + 1 + |msg.addr| + VarSize(|msg.addr|);
      fixedSize := fixed;
      ChunkCount(msg.payload, msg.maxSize - fixed);
      fragTotal := DivCeil(|msg.payload|, msg.maxSize - fixed) % 256;
      nextFragId, nextFragStart := 0, 0;
    }

    /** `next`: the datagrams in order, each within the size limit, then nothing.  Byte by
        byte, a datagram is the header, the shortest form of the address length, the address,
        and as much of the payload as fits, from where the last one ended. */
    method Next() returns (r: Option<seq<byte>>)
      requires Valid()
      modifies this
      ensures Valid()
      ensures old(nextFragId) < fragTotal ==>
        && r == Some(Encode(FragmentAt(Msg(), old(nextFragId)))) && |r.value| <= maxPktSize
        && nextFragId == old(nextFragId) + 1
      ensures old(nextFragId) < fragTotal ==>
        && nextFragStart == Least(old(nextFragStart) + maxPktSize - fixedSize, |payload|) >= old(nextFragStart)
        && Layout(r.value, Packet(sessionId, pktId, old(nextFragId), fragTotal, addr,
                                  payload[old(nextFragStart)..nextFragStart]))
        && 8 + LengthSize(r.value[8]) + |addr| == fixedSize && fixedSize == 8 + |addr| + ShortestSize(|addr|)
      ensures old(nextFragId) >= fragTotal ==> r == None && nextFragId == old(nextFragId)
    {
      if nextFragId >= fragTotal { return None; }
      var m := maxPktSize - fixedSize;
      var end := if nextFragStart + m <= |payload| then nextFragStart + m else |payload|;
      var part := payload[nextFragStart..end];
      NextChunk(payload, nextFragStart, m);
      var pieces := Chunks(payload[nextFragStart..], m);
      assert Pieces(Msg())[nextFragId] == pieces[0] == part;
      assert Pieces(Msg())[nextFragId + 1..] == pieces[1..];
      var frag := Packet(sessionId, pktId, nextFragId, fragTotal, addr, part);
      EncodeLength(frag);
      EncodeLayout(frag);
      r := Some(Encode(frag));
      nextFragId, nextFragStart := nextFragId + 1, end;
    }
  }

  // The first piece of what is left, and the pieces after it.
  lemma NextChunk(payload: seq<byte>, start: nat, m: nat)
    requires m > 0 && start <= |payload| && Chunks(payload[start..], m) != []
    ensures var end := if start + m <= |payload| then start + m else |payload|;
      && Chunks(payload[start..], m)[0] == payload[start..end]
      && Chunks(payload[start..], m)[1..] == Chunks(payload[end..], m)
  {
    var rest := payload[start..];
    if |rest| > m {
      assert rest[m..] == payload[start + m..];
    } else {
      assert payload[start..|payload|] == rest && payload[|payload|..] == [];
      if |rest| == m { assert start + m == |payload|; }
    }
  }

  // The datagrams of one message.
  function Frames(msg: Message): (r: seq<seq<byte>>)
    requires Sendable(msg)
    ensures |r| == Total(msg) && forall k {:trigger r[k]} :: 0 <= k < |r| ==> r[k] == Encode(FragmentAt(msg, k))
  {
    seq(Total(msg), k requires 0 <= k < Total(msg) => Encode(FragmentAt(msg, k)))
  }

  // One number is another, and 256 some times.
  ghost predicate UpTo256s(all: nat, n: nat) {
    exists q: nat :: all == n + 256 * q
  }

  lemma TotalIsUpTo256s(msg: Message)
    requires Sendable(msg)
    ensures UpTo256s(|Pieces(msg)|, Total(msg))
  {
    assert |Pieces(msg)| == Total(msg) + 256 * (|Pieces(msg)| / 256);
  }

  lemma NextOfAll<T>(all: seq<T>, k: nat)
    requires k < |all|
    ensures all[..k + 1] == all[..k] + [all[k]]
  {
  }

  // The connection takes n datagrams from this one on.
  predicate AllTaken(accepts: nat -> bool, base: nat, n: nat) {
    forall k: nat :: base <= k < base + n ==> accepts(k)
  }

  /** The loop of `send_packet`: the datagrams of one packet in order, each within the size
      limit, until the connection refuses one.  `accepts` tells of each datagram, counted
      from the first of the connection, whether it is taken. */
  method SendPacket(msg: Message, accepts: nat -> bool, base: nat) returns (ok: bool, frames: seq<seq<byte>>)
    requires Sendable(msg)
    ensures frames <= Frames(msg) && (ok <==> frames == Frames(msg))
    ensures ok ==> |frames| < 256 && UpTo256s(|Pieces(msg)|, |frames|)
    ensures forall k :: 0 <= k < |frames| ==> |frames[k]| <= msg.maxSize
    ensures AllTaken(accepts, base, |frames|) && (!ok ==> !accepts(base + |frames|))
  {
    var it := new Fragments(msg);
    frames := [];
    while true
      invariant it.Valid() && it.Msg() == msg && |frames| == it.nextFragId
      invariant frames == Frames(msg)[..|frames|]
      invariant AllTaken(accepts, base, |frames|) && forall k :: 0 <= k < |frames| ==> |frames[k]| <= msg.maxSize
      decreases it.fragTotal - it.nextFragId
    {
      var frame := it.Next();
      if frame.None? {
        TotalIsUpTo256s(msg);
        return true, frames;
      }
      assert frame.value == Frames(msg)[|frames|];
      if !accepts(base + |frames|) { return false, frames; }
      NextOfAll(Frames(msg), |frames|);
      frames := frames + [frame.value];
    }
  }
}
