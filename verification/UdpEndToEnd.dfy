/** Several sessions over one connection, through the bytes: the send loops of
    clash-lib/src/proxy/hysteria2/datagram.rs, a channel that loses, repeats, reorders and
    interleaves datagrams, and `recv_packet` of mod.rs. */
module UdpEndToEnd {
  import opened Basics
  import opened UdpWire
  import opened UdpFragments
  import opened UdpDefrag
  import opened UdpSession

  // ---------------------------------------------------------------- receiving

  // The packets for one session among some datagrams.
  ghost function PacketsFor(id: u32, datagrams: seq<seq<byte>>, parses: seq<byte> -> bool): seq<Packet> {
    if datagrams == [] then []
    else
      PacketsFor(id, datagrams[..|datagrams| - 1], parses) + PacketFor(id, datagrams[|datagrams| - 1], parses)
  }

  function PacketFor(id: u32, datagram: seq<byte>, parses: seq<byte> -> bool): seq<Packet> {
    match Decode(datagram, parses)
    case Ok(pkt) => if pkt.sessionId == id then [pkt] else []
    case _ => []
  }

  // The session has been fed these datagrams, and has handed out what came of it.
  ghost predicate FedWith(c: Connection, id: u32, datagrams: seq<seq<byte>>, parses: seq<byte> -> bool,
                          out: seq<Packet>)
    reads c
  {
    && id in c.sessions && c.sessions[id] == After(Fresh, PacketsFor(id, datagrams, parses))
    && out == Outputs(Fresh, PacketsFor(id, datagrams, parses))
  }

  lemma FedOneMore(id: u32, datagrams: seq<seq<byte>>, next: seq<byte>, parses: seq<byte> -> bool)
    ensures PacketsFor(id, datagrams + [next], parses) ==
      PacketsFor(id, datagrams, parses) + PacketFor(id, next, parses)
    ensures var s, more := After(Fresh, PacketsFor(id, datagrams, parses)), PacketFor(id, next, parses);
      && After(Fresh, PacketsFor(id, datagrams + [next], parses)) == After(s, more)
      && Outputs(Fresh, PacketsFor(id, datagrams + [next], parses)) ==
         Outputs(Fresh, PacketsFor(id, datagrams, parses)) + Outputs(s, more)
  {
    assert (datagrams + [next])[..|datagrams|] == datagrams;
    OutputsConcat(Fresh, PacketsFor(id, datagrams, parses), PacketFor(id, next, parses));
  }

  /** One datagram: every session is fed exactly what is meant for it. */
  method ReceiveOne(c: Connection, datagram: seq<byte>, parses: seq<byte> -> bool, inbox0: map<u32, seq<Packet>>,
                    ghost before: seq<seq<byte>>)
    returns (inbox: map<u32, seq<Packet>>)
    requires c.Valid() && inbox0.Keys == c.sessions.Keys
    requires forall id :: id in inbox0 ==> FedWith(c, id, before, parses, inbox0[id])
    modifies c
    ensures c.Valid() && inbox.Keys == inbox0.Keys == c.sessions.Keys
    ensures forall id :: id in inbox ==> FedWith(c, id, before + [datagram], parses, inbox[id])
  {
    inbox := inbox0;
    ghost var was := c.sessions;
    var r := c.RecvPacket(datagram, parses);
    if r.HandedOut? {
      var id := Decode(datagram, parses).packet.sessionId;
      inbox := inbox[id := inbox[id] + [r.packet]];
    }
    forall id | id in inbox ensures FedWith(c, id, before + [datagram], parses, inbox[id]) {
      FedOneMore(id, before, datagram, parses);
      var more := PacketFor(id, datagram, parses);
      if more != [] {
        OutputsOne(was[id], more[0]);
        assert more == [more[0]];
      }
    }
  }

  /** Any datagrams: each session hands out what its own defragger makes of the packets that
      are meant for it, in the order they arrive. */
  method ReceiveAll(c: Connection, ids: seq<u32>, datagrams: seq<seq<byte>>, parses: seq<byte> -> bool)
    returns (inbox: map<u32, seq<Packet>>)
    requires c.sessions == map[]
    modifies c
    ensures forall i :: 0 <= i < |ids| ==> ids[i] in inbox
    ensures forall id :: id in inbox ==> inbox[id] == Outputs(Fresh, PacketsFor(id, datagrams, parses))
  {
    inbox := map[];
    for i := 0 to |ids|
      invariant c.Valid() && inbox.Keys == c.sessions.Keys && forall j :: 0 <= j < i ==> ids[j] in inbox
      invariant forall id :: id in inbox ==> FedWith(c, id, [], parses, inbox[id])
    {
      c.Open(ids[i]);
      inbox := inbox[ids[i] := []];
    }
    for k := 0 to |datagrams|
      invariant c.Valid() && inbox.Keys == c.sessions.Keys && forall j :: 0 <= j < |ids| ==> ids[j] in inbox
      invariant forall id :: id in inbox ==> FedWith(c, id, datagrams[..k], parses, inbox[id])
    {
      inbox := ReceiveOne(c, datagrams[k], parses, inbox, datagrams[..k]);
      assert datagrams[..k + 1] == datagrams[..k] + [datagrams[k]];
    }
    assert datagrams[..|datagrams|] == datagrams;
  }

  // ---------------------------------------------------------------- sending

  datatype Session = Session(id: u32, maxSize: nat, packets: seq<(seq<byte>, seq<byte>)>)

  function Nth(x: Session, i: nat): Message
    requires i < |x.packets|
  {
    NthMessage(x.id, x.maxSize, x.packets, i)
  }

  function Sent(x: Session): (r: seq<Message>)
    ensures |r| == |x.packets| && forall i :: 0 <= i < |r| ==> r[i] == Nth(x, i)
  {
    seq(|x.packets|, i requires 0 <= i < |x.packets| => Nth(x, i))
  }

  // Few enough packets for distinct ids, each with a payload that can be cut and put together
  // again, and an address that parses.
  ghost predicate SessionOk(x: Session, parses: seq<byte> -> bool) {
    && |x.packets| <= 65535
    && forall i {:trigger Nth(x, i)} :: 0 <= i < |x.packets| ==> Complete(Nth(x, i)) && parses(Nth(x, i).addr)
  }

  lemma OkIsSendable(x: Session, parses: seq<byte> -> bool)
    requires SessionOk(x, parses)
    ensures AllSendable(x.id, x.maxSize, x.packets)
  {
    forall i | 0 <= i < |x.packets| ensures Sendable(NthMessage(x.id, x.maxSize, x.packets, i)) {
      assert Complete(Nth(x, i));
    }
  }

  // The fragments of the first n packets.
  ghost function Frags(x: Session, n: nat): seq<Packet>
    requires n <= |x.packets| && AllSendable(x.id, x.maxSize, x.packets)
  {
    if n == 0 then []
    else
      var msg := NthMessage(x.id, x.maxSize, x.packets, n - 1);
      Frags(x, n - 1) + Fragmented(msg, UpTo(Total(msg)))
  }

  lemma {:induction false} FramesAre(x: Session, n: nat)
    requires n <= |x.packets| && AllSendable(x.id, x.maxSize, x.packets)
    ensures |AllFrames(x.id, x.maxSize, x.packets, n)| == |Frags(x, n)|
    ensures forall k :: 0 <= k < |Frags(x, n)| ==>
      && |Frags(x, n)[k].addr| < 0x1_0000_0000
      && AllFrames(x.id, x.maxSize, x.packets, n)[k] == Encode(Frags(x, n)[k])
  {
    if n > 0 { FramesAre(x, n - 1); }
  }

  lemma {:induction false} FragOf(x: Session, n: nat, k: nat) returns (i: nat)
    requires n <= |x.packets| && AllSendable(x.id, x.maxSize, x.packets) && k < |Frags(x, n)|
    ensures i < n && IsFragmentOf(Frags(x, n)[k], Nth(x, i))
  {
    if k < |Frags(x, n - 1)| {
      i := FragOf(x, n - 1, k);
    } else {
      i := n - 1;
    }
  }

  // ---------------------------------------------------------------- the channel

  // What arrives, one after the other: which frame of which session.
  type Order = seq<(nat, nat)>

  ghost predicate OrderOk(xs: seq<Session>, order: Order) {
    && (forall j :: 0 <= j < |xs| ==> AllSendable(xs[j].id, xs[j].maxSize, xs[j].packets))
    && forall m :: 0 <= m < |order| ==>
         order[m].0 < |xs| && order[m].1 < |Frags(xs[order[m].0], |xs[order[m].0].packets|)|
  }

  ghost function FragAt(xs: seq<Session>, at: (nat, nat)): Packet
    requires at.0 < |xs| && AllSendable(xs[at.0].id, xs[at.0].maxSize, xs[at.0].packets)
    requires at.1 < |Frags(xs[at.0], |xs[at.0].packets|)|
  {
    Frags(xs[at.0], |xs[at.0].packets|)[at.1]
  }

  // The fragments of session j that arrive, in the order they do.
  ghost function Arrived(xs: seq<Session>, order: Order, j: nat): seq<Packet>
    requires OrderOk(xs, order)
  {
    if order == [] then []
    else
      var last := order[|order| - 1];
      Arrived(xs, order[..|order| - 1], j) + if last.0 == j then [FragAt(xs, last)] else []
  }

  ghost predicate OnTheWire(xs: seq<Session>, order: Order, datagrams: seq<seq<byte>>) {
    && OrderOk(xs, order) && |datagrams| == |order|
    && forall m :: 0 <= m < |order| ==>
         |FragAt(xs, order[m]).addr| < 0x1_0000_0000 && datagrams[m] == Encode(FragAt(xs, order[m]))
  }

  ghost predicate SessionsOk(xs: seq<Session>, parses: seq<byte> -> bool) {
    && (forall j :: 0 <= j < |xs| ==> SessionOk(xs[j], parses))
    && forall i, j :: 0 <= i < j < |xs| ==> xs[i].id != xs[j].id
  }

  // A datagram of one session is for that session and no other.
  lemma ForItsSession(xs: seq<Session>, at: (nat, nat), j: nat, parses: seq<byte> -> bool)
    requires SessionsOk(xs, parses) && j < |xs| && OrderOk(xs, [at])
    ensures [at][0] == at && |FragAt(xs, at).addr| < 0x1_0000_0000
    ensures PacketFor(xs[j].id, Encode(FragAt(xs, at)), parses) == if at.0 == j then [FragAt(xs, at)] else []
  {
    assert [at][0] == at;
    var x := xs[at.0];
    var i := FragOf(x, |x.packets|, at.1);
    assert parses(Nth(x, i).addr);
    PacketRoundTrip(FragAt(xs, at), parses);
  }

  /** What is meant for a session among all that arrives is what arrives of it. */
  lemma {:induction false} OwnPackets(xs: seq<Session>, order: Order, datagrams: seq<seq<byte>>, j: nat,
                                      parses: seq<byte> -> bool)
    requires SessionsOk(xs, parses) && OnTheWire(xs, order, datagrams) && j < |xs|
    ensures PacketsFor(xs[j].id, datagrams, parses) == Arrived(xs, order, j)
    decreases |order|
  {
    if order != [] {
      var n := |order| - 1;
      OneLess(xs, order, datagrams, n);
      OwnPackets(xs, order[..n], datagrams[..n], j, parses);
      LastIsOwn(xs, order, datagrams, n, j, parses);
    }
  }

  lemma OneLess(xs: seq<Session>, order: Order, datagrams: seq<seq<byte>>, n: nat)
    requires OnTheWire(xs, order, datagrams) && n < |order|
    ensures OnTheWire(xs, order[..n], datagrams[..n]) && OrderOk(xs, [order[n]])
  {
  }

  lemma LastIsOwn(xs: seq<Session>, order: Order, datagrams: seq<seq<byte>>, n: nat, j: nat,
                  parses: seq<byte> -> bool)
    requires SessionsOk(xs, parses) && OnTheWire(xs, order, datagrams) && j < |xs| && n < |order|
    ensures PacketFor(xs[j].id, datagrams[n], parses) == if order[n].0 == j then [FragAt(xs, order[n])] else []
  {
    OneLess(xs, order, datagrams, n);
    ForItsSession(xs, order[n], j, parses);
  }

  lemma {:induction false} ArrivedFromSent(xs: seq<Session>, order: Order, j: nat)
    requires OrderOk(xs, order) && j < |xs|
    ensures FromSent(Arrived(xs, order, j), Sent(xs[j]))
    decreases |order|
  {
    if order != [] {
      var n := |order| - 1;
      ArrivedFromSent(xs, order[..n], j);
      if order[n].0 == j {
        var i := FragOf(xs[j], |xs[j].packets|, order[n].1);
        assert Sent(xs[j])[i] == Nth(xs[j], i);
      }
    }
  }

  lemma SentIsDistinct(x: Session, parses: seq<byte> -> bool)
    requires SessionOk(x, parses)
    ensures DistinctIds(Sent(x)) && forall i :: 0 <= i < |Sent(x)| ==> Complete(Sent(x)[i])
  {
    IdsDistinct(|x.packets|);
  }

  // ---------------------------------------------------------------- end to end

  // All datagrams of a session.
  ghost predicate FramesOf(x: Session, frames: seq<seq<byte>>) {
    && AllSendable(x.id, x.maxSize, x.packets)
    && frames == AllFrames(x.id, x.maxSize, x.packets, |x.packets|)
  }

  method SendAll(xs: seq<Session>, ghost parses: seq<byte> -> bool) returns (frames: seq<seq<seq<byte>>>)
    requires SessionsOk(xs, parses)
    ensures |frames| == |xs| && forall j :: 0 <= j < |xs| ==> FramesOf(xs[j], frames[j])
  {
    frames := [];
    for i := 0 to |xs|
      invariant |frames| == i && forall j :: 0 <= j < i ==> FramesOf(xs[j], frames[j])
    {
      OkIsSendable(xs[i], parses);
      var more := OutgoingLoop(xs[i].id, Some(xs[i].maxSize), xs[i].packets, _ => true);
      frames := frames + [more];
    }
  }

  method Deliver(ghost xs: seq<Session>, frames: seq<seq<seq<byte>>>, order: Order) returns (datagrams: seq<seq<byte>>)
    requires OrderOk(xs, order) && |frames| == |xs| && forall j :: 0 <= j < |xs| ==> FramesOf(xs[j], frames[j])
    ensures OnTheWire(xs, order, datagrams)
  {
    forall j | 0 <= j < |xs| ensures |frames[j]| == |Frags(xs[j], |xs[j].packets|)| {
      FramesAre(xs[j], |xs[j].packets|);
    }
    datagrams := [];
    for m := 0 to |order|
      invariant |datagrams| == m
      invariant forall l :: 0 <= l < m ==>
        |FragAt(xs, order[l]).addr| < 0x1_0000_0000 && datagrams[l] == Encode(FragAt(xs, order[l]))
    {
      FramesAre(xs[order[m].0], |xs[order[m].0].packets|);
      datagrams := datagrams + [frames[order[m].0][order[m].1]];
    }
  }

  /** Sessions of at most 65535 packets each, over any channel.  Each session hands out what
      its defragger makes of its own fragments; that is nothing but packets sent in it; and if
      the packets arrive one after the other, it is exactly those that arrive whole. */
  method EndToEnd(xs: seq<Session>, order: Order, parses: seq<byte> -> bool) returns (inbox: map<u32, seq<Packet>>)
    requires SessionsOk(xs, parses) && OrderOk(xs, order)
    ensures forall j :: 0 <= j < |xs| ==>
      xs[j].id in inbox && inbox[xs[j].id] == Outputs(Fresh, Arrived(xs, order, j))
    ensures forall j, k :: 0 <= j < |xs| && 0 <= k < |inbox[xs[j].id]| ==> IsSent(inbox[xs[j].id][k], Sent(xs[j]))
    ensures forall j, bs :: 0 <= j < |xs| && Numbered(bs) && |bs| <= 65535 && Arrived(xs, order, j) == Arrivals(bs) ==>
      inbox[xs[j].id] == Delivered(bs)
  {
    var frames := SendAll(xs, parses);
    var datagrams := Deliver(xs, frames, order);
    var c := new Connection();
    var ids := seq(|xs|, i requires 0 <= i < |xs| => xs[i].id);
    inbox := ReceiveAll(c, ids, datagrams, parses);
    forall j | 0 <= j < |xs| ensures xs[j].id in inbox && inbox[xs[j].id] == Outputs(Fresh, Arrived(xs, order, j)) {
      assert ids[j] in inbox;
      OwnPackets(xs, order, datagrams, j, parses);
    }
    forall j, k | 0 <= j < |xs| && 0 <= k < |inbox[xs[j].id]| ensures IsSent(inbox[xs[j].id][k], Sent(xs[j])) {
      ArrivedFromSent(xs, order, j);
      SentIsDistinct(xs[j], parses);
      OnlySentComesOut(Sent(xs[j]), Arrived(xs, order, j));
    }
    forall j, bs | 0 <= j < |xs| && Numbered(bs) && |bs| <= 65535 && Arrived(xs, order, j) == Arrivals(bs)
      ensures inbox[xs[j].id] == Delivered(bs)
    {
      SessionDelivers(bs);
    }
  }
}
