/** Whole sessions: packet ids as handed out by the send loop of
    clash-lib/src/proxy/hysteria2/datagram.rs, and the receiving end in mod.rs. */
module UdpSession {
  import opened Basics
  import opened UdpWire
  import opened UdpFragments
  import opened UdpDefrag

  // ---------------------------------------------------------------- one packet at a time

  // A message and the numbers of its fragments that arrive, in the order they arrive.
  datatype Batch = Batch(msg: Message, idx: seq<nat>)

  ghost predicate BatchOk(b: Batch) {
    && Complete(b.msg) && Distinct(b.idx) && |b.idx| <= Total(b.msg)
    && forall i :: 0 <= i < |b.idx| ==> b.idx[i] < Total(b.msg)
  }

  ghost predicate BatchesOk(bs: seq<Batch>) {
    && (forall i :: 0 <= i < |bs| ==> BatchOk(bs[i]))
    && (forall i, j :: 0 <= i < j < |bs| ==> bs[i].msg.pktId != bs[j].msg.pktId)
  }

  ghost function Arrivals(bs: seq<Batch>): seq<Packet>
    requires forall i :: 0 <= i < |bs| ==> BatchOk(bs[i])
  {
    if bs == [] then []
    else
      var b := bs[|bs| - 1];
      assert BatchOk(b);
      Arrivals(bs[..|bs| - 1]) + Fragmented(b.msg, b.idx)
  }

  // The messages of which every fragment arrived.
  ghost function Delivered(bs: seq<Batch>): seq<Packet>
    requires forall i :: 0 <= i < |bs| ==> BatchOk(bs[i])
  {
    if bs == [] then []
    else
      var b := bs[|bs| - 1];
      assert BatchOk(b);
      Delivered(bs[..|bs| - 1]) + if |b.idx| == Total(b.msg) then [Whole(b.msg)] else []
  }

  // Nothing is kept, or something of an earlier message.
  ghost predicate KeepsEarlier(s: Defrag, bs: seq<Batch>) {
    Collecting(s) && (s.frags == [] || exists i :: 0 <= i < |bs| && bs[i].msg.pktId == s.pktId)
  }

  lemma OneBatch(s: Defrag, b: Batch)
    requires BatchOk(b) && NewTo(s, b.msg)
    ensures Outputs(s, Fragmented(b.msg, b.idx)) == if |b.idx| == Total(b.msg) then [Whole(b.msg)] else []
    ensures var t := After(s, Fragmented(b.msg, b.idx)); t == s || t.frags == [] || t.pktId == b.msg.pktId
  {
    SeenIsWhole(b.msg);
    if Total(b.msg) >= 2 {
      AnyOrder(s, b.msg, b.idx);
    } else if b.idx != [] {
      assert Fragmented(b.msg, b.idx) == [FragmentAt(b.msg, 0)];
      OutputsOne(s, FragmentAt(b.msg, 0));
      SingleIsSeen(b.msg);
    } else {
      assert Fragmented(b.msg, b.idx) == [];
    }
  }

  /** Packets with distinct ids, one after the other, with any fragments lost and the rest
      in any order: exactly the packets of which nothing was lost come out, in order. */
  lemma {:induction false} DeliveredInOrder(bs: seq<Batch>)
    requires BatchesOk(bs)
    ensures Outputs(Fresh, Arrivals(bs)) == Delivered(bs)
    ensures KeepsEarlier(After(Fresh, Arrivals(bs)), bs)
    decreases |bs|
  {
    if bs != [] {
      var init, b := bs[..|bs| - 1], bs[|bs| - 1];
      DeliveredInOrder(init);
      var s := After(Fresh, Arrivals(init));
      OutputsConcat(Fresh, Arrivals(init), Fragmented(b.msg, b.idx));
      assert NewTo(s, b.msg);
      OneBatch(s, b);
      if s.frags != [] {
        var i :| 0 <= i < |init| && init[i].msg.pktId == s.pktId;
        assert bs[i].msg.pktId == s.pktId;
      }
    }
  }

  // ---------------------------------------------------------------- packet ids

  /** The id of packet number n: a wrapping 32-bit counter, reduced by `% u16::MAX`. */
  function PacketId(n: nat): u16 {
    n % 0x1_0000_0000 % 65535
  }

  /** The ids of a run are distinct exactly as long as it has at most 65535 packets. */
  lemma IdsDistinct(n: nat)
    ensures (forall i, j :: 0 <= i < j < n ==> PacketId(i) != PacketId(j)) <==> n <= 65535
  {
    if n > 65535 {
      assert PacketId(0) == PacketId(65535);
    }
  }

  lemma CounterWraps(i: nat)
    ensures (i % 0x1_0000_0000 + 1) % 0x1_0000_0000 == (i + 1) % 0x1_0000_0000
  {
  }

  // Packet number i of a session.
  function NthMessage(sessionId: u32, maxSize: nat, packets: seq<(seq<byte>, seq<byte>)>, i: nat): Message
    requires i < |packets|
  {
    Message(sessionId, PacketId(i), packets[i].0, maxSize, packets[i].1)
  }

  /** What a peer reads in datagram k of packet i: the session, the packet's number in the
      session up to multiples of 65535, and the fragment's number. */
  lemma FrameShows(sessionId: u32, maxSize: nat, packets: seq<(seq<byte>, seq<byte>)>, i: nat, k: nat)
    requires i < |packets| && Sendable(NthMessage(sessionId, maxSize, packets, i))
    requires k < |Frames(NthMessage(sessionId, maxSize, packets, i))|
    ensures var e := Frames(NthMessage(sessionId, maxSize, packets, i))[k];
      && |e| > 8 && Four(e, 0) == sessionId && e[6] == k
      && Two(e, 4) < 65535 && (i % 0x1_0000_0000 - Two(e, 4)) % 65535 == 0
  {
    EncodeLayout(FragmentAt(NthMessage(sessionId, maxSize, packets, i), k));
  }

  ghost predicate AllSendable(sessionId: u32, maxSize: nat, packets: seq<(seq<byte>, seq<byte>)>) {
    forall i {:trigger NthMessage(sessionId, maxSize, packets, i)} :: 0 <= i < |packets| ==>
      Sendable(NthMessage(sessionId, maxSize, packets, i))
  }

  /** The send loop of a session: each packet takes the next id and is cut.  A packet that
      cannot be sent, for want of a datagram size or because the connection refuses one of
      its datagrams, ends the loop. */
  method OutgoingLoop(sessionId: u32, maxSize: Option<nat>, packets: seq<(seq<byte>, seq<byte>)>, accepts: nat -> bool)
    returns (frames: seq<seq<byte>>)
    requires maxSize.Some? ==> AllSendable(sessionId, maxSize.value, packets)
    ensures maxSize.None? ==> frames == []
    ensures maxSize.Some? ==>
      var all := AllFrames(sessionId, maxSize.value, packets, |packets|);
      frames <= all && (frames == all || !accepts(|frames|))
    ensures AllTaken(accepts, 0, |frames|)
  {
    frames := [];
    var nextPktId: u32 := 0;
    for i := 0 to |packets|
      invariant nextPktId == i % 0x1_0000_0000
      invariant frames == FramesSoFar(sessionId, maxSize, packets, i) && (i > 0 ==> maxSize.Some?)
      invariant AllTaken(accepts, 0, |frames|)
    {
      var ok, more;
      ok, more, nextPktId := SendNext(sessionId, maxSize, packets, i, nextPktId, accepts, |frames|);
      frames := frames + more;
      if !ok {
        if maxSize.Some? { FramesGoOn(sessionId, maxSize.value, packets, i + 1, |packets|); }
        return;
      }
    }
  }

  ghost function FramesSoFar(sessionId: u32, maxSize: Option<nat>, packets: seq<(seq<byte>, seq<byte>)>,
                             n: nat): seq<seq<byte>>
    requires n <= |packets| && (maxSize.Some? ==> AllSendable(sessionId, maxSize.value, packets))
  {
    if maxSize.Some? then AllFrames(sessionId, maxSize.value, packets, n) else []
  }

  // One turn: the packet gets its id and is handed to `send_packet`.
  method SendNext(sessionId: u32, maxSize: Option<nat>, packets: seq<(seq<byte>, seq<byte>)>, i: nat, counter: u32,
                  accepts: nat -> bool, base: nat)
    returns (ok: bool, frames: seq<seq<byte>>, next: u32)
    requires maxSize.Some? ==> AllSendable(sessionId, maxSize.value, packets)
    requires i < |packets| && counter == i % 0x1_0000_0000
    ensures next == (i + 1) % 0x1_0000_0000
    ensures maxSize.None? ==> !ok && frames == []
    ensures maxSize.Some? ==>
      var all := Frames(NthMessage(sessionId, maxSize.value, packets, i));
      frames <= all && (ok <==> frames == all) && (!ok ==> !accepts(base + |frames|))
    ensures AllTaken(accepts, base, |frames|)
  {
    var pktId := counter % 65535;
    next := (counter + 1) % 0x1_0000_0000;
    CounterWraps(i);
    if maxSize.None? { return false, [], next; }
    var msg := Message(sessionId, pktId, packets[i].0, maxSize.value, packets[i].1);
    assert msg == NthMessage(sessionId, maxSize.value, packets, i);
    ok, frames := SendPacket(msg, accepts, base);
  }

  lemma {:induction false} FramesGoOn(sessionId: u32, maxSize: nat, packets: seq<(seq<byte>, seq<byte>)>, i: nat,
                                      n: nat)
    requires i <= n <= |packets| && AllSendable(sessionId, maxSize, packets)
    ensures AllFrames(sessionId, maxSize, packets, i) <= AllFrames(sessionId, maxSize, packets, n)
  {
    if i < n { FramesGoOn(sessionId, maxSize, packets, i, n - 1); }
  }

  // All datagrams of the first n packets.
  ghost function AllFrames(sessionId: u32, maxSize: nat, packets: seq<(seq<byte>, seq<byte>)>, n: nat): seq<seq<byte>>
    requires n <= |packets| && AllSendable(sessionId, maxSize, packets)
  {
    if n == 0 then []
    else AllFrames(sessionId, maxSize, packets, n - 1) + Frames(NthMessage(sessionId, maxSize, packets, n - 1))
  }

  // The messages of a session, numbered by the send loop.
  ghost predicate Numbered(bs: seq<Batch>) {
    forall i :: 0 <= i < |bs| ==> BatchOk(bs[i]) && bs[i].msg.pktId == PacketId(i)
  }

  /** A session of at most 65535 packets delivers exactly the packets that arrive whole. */
  lemma SessionDelivers(bs: seq<Batch>)
    requires Numbered(bs) && |bs| <= 65535
    ensures Outputs(Fresh, Arrivals(bs)) == Delivered(bs)
  {
    IdsDistinct(|bs|);
    DeliveredInOrder(bs);
  }

  /** What goes wrong when an id is used again while a fragment of the earlier packet is
      kept: the two are taken for one. */
  lemma ReusedIdMixes(a: Message, b: Message)
    requires Sendable(a) && Sendable(b) && a.pktId == b.pktId && Total(a) == Total(b) == 2
    ensures Outputs(Fresh, [FragmentAt(a, 0), FragmentAt(b, 1)]) ==
      [Packet(a.sessionId, a.pktId, 0, 1, a.addr, Pieces(a)[0] + Pieces(b)[1])]
  {
    var p, q := FragmentAt(a, 0), FragmentAt(b, 1);
    FeedFirst(Fresh, a, 0);
    var s := Feed(Fresh, p).0;
    assert s.frags[1].None? && s.frags[0] == Some(p);
    var frags := s.frags[1 := Some(q)];
    FilledPut(s.frags, 1, q);
    FilledAll(frags);
    assert frags == [Some(p), Some(q)];
    assert frags[1..] == [Some(q)] && frags[1..][1..] == [];
    assert AllData(frags[1..]) == q.data + AllData(frags[1..][1..]);
    assert AllData(frags) == p.data + q.data;
    assert Feed(s, q).1 == Some(Assemble(frags));
    assert [p, q] == [p] + [q];
    OutputsConcat(Fresh, [p], [q]);
    OutputsOne(Fresh, p);
    OutputsOne(s, q);
  }

  // ---------------------------------------------------------------- how many fragments

  function UpTo(n: nat): (s: seq<nat>)
    ensures |s| == n && forall i :: 0 <= i < n ==> s[i] == i
  {
    seq(n, i => i)
  }

  /** Sending all datagrams of a packet to a fresh receiver gives the packet back exactly
      when its payload takes at least one and at most 255 pieces. */
  lemma WholeComesOutIff(msg: Message)
    requires Sendable(msg)
    ensures Outputs(Fresh, Fragmented(msg, UpTo(Total(msg)))) == [Whole(msg)] <==> 1 <= |Pieces(msg)| <= 255
  {
    var n := Total(msg);
    SeenIsWhole(msg);
    if n >= 2 {
      AnyOrder(Fresh, msg, UpTo(n));
    } else if n == 1 {
      assert Fragmented(msg, UpTo(n)) == [FragmentAt(msg, 0)];
      OutputsOne(Fresh, FragmentAt(msg, 0));
      SingleIsSeen(msg);
    } else {
      assert Fragmented(msg, UpTo(n)) == [];
    }
  }

  // ---------------------------------------------------------------- both ends

  datatype RecvOutcome = HandedOut(packet: Packet) | Kept | NoSession | Panicked(cause: Decoded)

  /** The receiving half of a connection: one defragger for each session. */
  class Connection {
    var sessions: map<u32, Defrag>

    constructor ()
      ensures sessions == map[]
    {
      sessions := map[];
    }

    ghost predicate Valid()
      reads this
    {
      forall id :: id in sessions ==> Collecting(sessions[id])
    }

    /** A datagram outbound registers its session with a fresh defragger. */
    method Open(id: u32)
      requires Valid()
      modifies this
      ensures Valid() && sessions == old(sessions)[id := Fresh]
    {
      sessions := sessions[id := Fresh];
    }

    /** `recv_packet`: decodes and feeds the session that the datagram names; other sessions
        are untouched and unknown ones ignored.  The source unwraps what it decodes, so a
        malformed datagram or an address that does not parse panics, with nothing changed. */
    method RecvPacket(datagram: seq<byte>, parses: seq<byte> -> bool) returns (r: RecvOutcome)
      requires Valid()
      modifies this
      ensures Valid() && sessions.Keys == old(sessions).Keys
      ensures r.Panicked? <==> !Decode(datagram, parses).Ok?
      ensures r.Panicked? ==> r.cause == Decode(datagram, parses) && sessions == old(sessions)
      ensures !r.Panicked? ==> var pkt := Decode(datagram, parses).packet;
        && (forall id :: id in sessions && id != pkt.sessionId ==> sessions[id] == old(sessions)[id])
        && (r.NoSession? <==> pkt.sessionId !in old(sessions))
        && (!r.NoSession? ==>
              var out := if r.HandedOut? then Some(r.packet) else None;
              (sessions[pkt.sessionId], out) == Feed(old(sessions)[pkt.sessionId], pkt))
    {
      match Decode(datagram, parses) {
        case Ok(pkt) =>
          if pkt.sessionId !in sessions { return NoSession; }
          var (next, out) := Feed(sessions[pkt.sessionId], pkt);
          sessions := sessions[pkt.sessionId := next];
          r := if out.Some? then HandedOut(out.value) else Kept;
        case bad => r := Panicked(bad);
      }
    }
  }

  /** End to end over a channel that keeps order: opening a session, sending a packet and
      receiving its datagrams gives it back, for every payload of 1 to 255 pieces. */
  method SendAndReceive(c: Connection, msg: Message, parses: seq<byte> -> bool) returns (received: seq<Packet>)
    requires Complete(msg) && c.Valid() && parses(msg.addr)
    modifies c
    ensures received == [Whole(msg)]
  {
    var ok, frames := SendPacket(msg, _ => true, 0);
    var id := msg.sessionId;
    c.Open(id);
    received := [];
    for k := 0 to |frames|
      invariant c.Valid() && id in c.sessions
      invariant c.sessions[id] == After(Fresh, Fragmented(msg, UpTo(k)))
      invariant received == Outputs(Fresh, Fragmented(msg, UpTo(k)))
    {
      received := ReceiveNext(c, msg, k, frames[k], received, parses);
    }
    WholeComesOutIff(msg);
  }

  // One more datagram of a packet, in order.
  method ReceiveNext(c: Connection, msg: Message, k: nat, frame: seq<byte>, received0: seq<Packet>,
                     parses: seq<byte> -> bool) returns (received: seq<Packet>)
    requires Sendable(msg) && k < Total(msg) && frame == Encode(FragmentAt(msg, k)) && parses(msg.addr)
    requires c.Valid() && msg.sessionId in c.sessions
    requires c.sessions[msg.sessionId] == After(Fresh, Fragmented(msg, UpTo(k)))
    requires received0 == Outputs(Fresh, Fragmented(msg, UpTo(k)))
    modifies c
    ensures c.Valid() && msg.sessionId in c.sessions
    ensures c.sessions[msg.sessionId] == After(Fresh, Fragmented(msg, UpTo(k + 1)))
    ensures received == Outputs(Fresh, Fragmented(msg, UpTo(k + 1)))
  {
    PacketRoundTrip(FragmentAt(msg, k), parses);
    var r := c.RecvPacket(frame, parses);
    FeedOneMore(Fresh, msg, UpTo(k), k);
    assert UpTo(k + 1) == UpTo(k) + [k];
    received := if r.HandedOut? then received0 + [r.packet] else received0;
  }

  /** Nine zeros but for the fragment count, an address of no text: the receiver panics,
      unless empty text were an address. */
  method EmptyAddressPanics(c: Connection, parses: seq<byte> -> bool) returns (r: RecvOutcome)
    requires c.Valid() && !parses([])
    modifies c
    ensures r == Panicked(BadAddress) && c.sessions == old(c.sessions)
  {
    ghost var p := Packet(0, 0, 0, 1, [], []);
    PacketRoundTrip(p, parses);
    NineBytes();
    r := c.RecvPacket([0, 0, 0, 0, 0, 0, 0, 1, 0], parses);
  }

  lemma NineBytes()
    ensures Encode(Packet(0, 0, 0, 1, [], [])) == [0, 0, 0, 0, 0, 0, 0, 1, 0]
  {
    assert BigEndian(0, 1) == [0];
    assert BigEndian(0, 2) == [0, 0];
    assert BigEndian(0, 3) == [0, 0, 0];
    assert BigEndian(0, 4) == [0, 0, 0, 0];
    assert EncodeVarint(0) == [0];
  }
}
