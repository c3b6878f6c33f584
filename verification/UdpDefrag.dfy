/** `Defragger::feed` of clash-lib/src/proxy/hysteria2/codec.rs, and what a receiver gets
    over channels that lose, repeat and reorder fragments. */
module UdpDefrag {
  import opened Basics
  import opened UdpWire
  import opened UdpFragments

  datatype Defrag = Defrag(pktId: u16, frags: seq<Option<Packet>>, cnt: nat)

  const Fresh := Defrag(0, [], 0)

  function Filled(frags: seq<Option<Packet>>): nat {
    if frags == [] then 0 else (if frags[0].Some? then 1 else 0) + Filled(frags[1..])
  }

  /** No fragments are kept, or the count is that of the filled slots and some are empty. */
  ghost predicate Collecting(s: Defrag) {
    s.frags == [] || s.cnt == Filled(s.frags) < |s.frags|
  }

  predicate AllThere(frags: seq<Option<Packet>>) {
    forall k :: 0 <= k < |frags| ==> frags[k].Some?
  }

  lemma {:induction false} FilledAll(frags: seq<Option<Packet>>)
    ensures Filled(frags) <= |frags|
    ensures Filled(frags) == |frags| <==> AllThere(frags)
  {
    if frags != [] {
      FilledAll(frags[1..]);
      if AllThere(frags[1..]) && frags[0].Some? {
        forall k | 0 <= k < |frags| ensures frags[k].Some? {
          if k > 0 { assert frags[k] == frags[1..][k - 1]; }
        }
      }
    }
  }

  lemma {:induction false} FilledPut(frags: seq<Option<Packet>>, k: nat, p: Packet)
    requires k < |frags| && frags[k].None?
    ensures Filled(frags[k := Some(p)]) == Filled(frags) + 1
  {
    var more := frags[k := Some(p)];
    if k == 0 {
      assert more[1..] == frags[1..];
    } else {
      assert more[1..] == frags[1..][k - 1 := Some(p)];
      FilledPut(frags[1..], k - 1, p);
    }
  }

  function Empty(n: nat): (s: seq<Option<Packet>>)
    ensures |s| == n && forall k :: 0 <= k < n ==> s[k].None?
  {
    seq(n, _ => None)
  }

  lemma {:induction false} FilledNone(frags: seq<Option<Packet>>)
    requires forall k :: 0 <= k < |frags| ==> frags[k].None?
    ensures Filled(frags) == 0
  {
    if frags != [] { FilledNone(frags[1..]); }
  }

  function AllData(frags: seq<Option<Packet>>): seq<byte>
    requires AllThere(frags)
  {
    if frags == [] then [] else frags[0].value.data + AllData(frags[1..])
  }

  // The first fragment with the data of all.
  function Assemble(frags: seq<Option<Packet>>): Packet
    requires frags != [] && AllThere(frags)
  {
    frags[0].value.(fragCount := 1, fragId := 0, data := AllData(frags))
  }

  /** What one fragment does: the new state and the packet it completes, if any. */
  function Feed(s: Defrag, pkt: Packet): (r: (Defrag, Option<Packet>))
    requires Collecting(s)
    ensures Collecting(r.0)
  {
    if pkt.fragCount == 1 then (s, Some(pkt))
    else if pkt.fragCount <= pkt.fragId then (s, None)
    else if pkt.pktId != s.pktId || pkt.fragCount != |s.frags| then
      var frags := Empty(pkt.fragCount)[pkt.fragId := Some(pkt)];
      FilledNone(Empty(pkt.fragCount));
      FilledPut(Empty(pkt.fragCount), pkt.fragId, pkt);
      (Defrag(pkt.pktId, frags, 1), None)
    else if s.frags[pkt.fragId].None? then
      var frags := s.frags[pkt.fragId := Some(pkt)];
      FilledPut(s.frags, pkt.fragId, pkt);
      FilledAll(frags);
      if s.cnt + 1 == |frags| then (Defrag(s.pktId, [], s.cnt + 1), Some(Assemble(frags)))
      else (Defrag(s.pktId, frags, s.cnt + 1), None)
    else (s, None)
  }

  class Defragger {
    var pktId: u16
    var frags: seq<Option<Packet>>
    var cnt: nat

    ghost function State(): Defrag
      reads this
    {
      Defrag(pktId, frags, cnt)
    }

    constructor ()
      ensures State() == Fresh
    {
      pktId, frags, cnt := 0, [], 0;
    }

    /** `feed`.  No `unwrap` meets an empty slot. */
    method FeedPacket(pkt: Packet) returns (r: Option<Packet>)
      requires Collecting(State())
      modifies this
      ensures (State(), r) == Feed(old(State()), pkt) && Collecting(State())
    {
      if pkt.fragCount == 1 { return Some(pkt); }
      if pkt.fragCount <= pkt.fragId { return None; }
      r := None;
      if pkt.pktId != pktId || pkt.fragCount != |frags| {
        pktId := pkt.pktId;
        frags := Empty(pkt.fragCount);
        cnt := 0;
        frags := frags[pkt.fragId := Some(pkt)];
        cnt := cnt + 1;
      } else if frags[pkt.fragId].None? {
        FilledPut(frags, pkt.fragId, pkt);
        frags := frags[pkt.fragId := Some(pkt)];
        cnt := cnt + 1;
        if cnt == |frags| {
          FilledAll(frags);
          var whole := JoinFragments(frags);
          frags := [];
          return Some(whole);
        }
      }
    }
  }

  // Takes the first fragment and appends the data of the others.
  method JoinFragments(frags: seq<Option<Packet>>) returns (pkt0: Packet)
    requires frags != [] && AllThere(frags)
    ensures pkt0 == Assemble(frags)
  {
    pkt0 := frags[0].value.(fragCount := 1, fragId := 0);
    for k := 1 to |frags|
      invariant pkt0 == frags[0].value.(fragCount := 1, fragId := 0, data := pkt0.data)
      invariant pkt0.data + AllData(frags[k..]) == AllData(frags)
    {
      assert frags[k..][1..] == frags[k + 1..];
      pkt0 := pkt0.(data := pkt0.data + frags[k].value.data);
    }
    assert frags[|frags|..] == [];
  }

  // ---------------------------------------------------------------- any channel

  // The states and outputs of a run of arrivals.
  function Outputs(s: Defrag, arrivals: seq<Packet>): seq<Packet>
    requires Collecting(s)
    decreases |arrivals|
  {
    if arrivals == [] then []
    else
      var (t, out) := Feed(s, arrivals[0]);
      (if out.Some? then [out.value] else []) + Outputs(t, arrivals[1..])
  }

  function After(s: Defrag, arrivals: seq<Packet>): (t: Defrag)
    requires Collecting(s)
    ensures Collecting(t)
    decreases |arrivals|
  {
    if arrivals == [] then s else After(Feed(s, arrivals[0]).0, arrivals[1..])
  }

  predicate IsFragmentOf(pkt: Packet, msg: Message) {
    Sendable(msg) && pkt.fragId < Total(msg) && pkt == FragmentAt(msg, pkt.fragId)
  }

  ghost predicate DistinctIds(sent: seq<Message>) {
    forall i, j :: 0 <= i < j < |sent| ==> sent[i].pktId != sent[j].pktId
  }

  /** What the fragments of a message amount to: its first `Total` pieces. */
  function Seen(msg: Message): Packet
    requires Sendable(msg)
  {
    Packet(msg.sessionId, msg.pktId, 0, 1, msg.addr, Concat(Pieces(msg)[..Total(msg)]))
  }

  // The slots hold fragments of this message, each in its place.
  ghost predicate HoldsPartsOf(s: Defrag, msg: Message) {
    && Sendable(msg) && msg.pktId == s.pktId && |s.frags| == Total(msg)
    && forall k :: 0 <= k < |s.frags| && s.frags[k].Some? ==> s.frags[k].value == FragmentAt(msg, k)
  }

  ghost predicate Honest(s: Defrag, sent: seq<Message>) {
    Collecting(s) && (s.frags != [] ==> exists i :: 0 <= i < |sent| && HoldsPartsOf(s, sent[i]))
  }

  lemma AssembleSeen(msg: Message, frags: seq<Option<Packet>>)
    requires Sendable(msg) && |frags| == Total(msg) > 0 && AllThere(frags)
    requires forall k :: 0 <= k < |frags| ==> frags[k].value == FragmentAt(msg, k)
    ensures Assemble(frags) == Seen(msg)
  {
    AllDataIs(frags, Pieces(msg)[..Total(msg)]);
  }

  lemma {:induction false} AllDataIs(frags: seq<Option<Packet>>, pieces: seq<seq<byte>>)
    requires |frags| == |pieces| && AllThere(frags)
    requires forall k :: 0 <= k < |frags| ==> frags[k].value.data == pieces[k]
    ensures AllData(frags) == Concat(pieces)
  {
    if frags != [] { AllDataIs(frags[1..], pieces[1..]); }
  }

  // A single fragment is sent as it is.
  lemma SingleIsSeen(msg: Message)
    requires Sendable(msg) && Total(msg) == 1
    ensures FragmentAt(msg, 0) == Seen(msg)
  {
    var first := Pieces(msg)[..1];
    assert first[1..] == [] && Concat(first) == first[0] + Concat(first[1..]);
  }

  lemma FeedHonest(s: Defrag, sent: seq<Message>, i: nat, pkt: Packet)
    requires Honest(s, sent) && DistinctIds(sent) && i < |sent| && IsFragmentOf(pkt, sent[i])
    ensures var (t, out) := Feed(s, pkt);
      Honest(t, sent) && (out.Some? ==> out.value == Seen(sent[i]))
  {
    var msg := sent[i];
    var (t, out) := Feed(s, pkt);
    if pkt.fragCount == 1 {
      SingleIsSeen(msg);
    } else if pkt.pktId != s.pktId || pkt.fragCount != |s.frags| {
      assert HoldsPartsOf(t, msg);
    } else {
      var j :| 0 <= j < |sent| && HoldsPartsOf(s, sent[j]);
      assert j == i;
      if s.frags[pkt.fragId].None? {
        var frags := s.frags[pkt.fragId := Some(pkt)];
        if out.Some? {
          FilledPut(s.frags, pkt.fragId, pkt);
          FilledAll(frags);
          AssembleSeen(msg, frags);
        } else {
          assert HoldsPartsOf(t, msg);
        }
      }
    }
  }

  // Each arrival is a fragment of some message of the list.
  ghost predicate FromSent(arrivals: seq<Packet>, sent: seq<Message>) {
    forall k :: 0 <= k < |arrivals| ==> ComesFrom(arrivals[k], sent)
  }

  ghost predicate ComesFrom(pkt: Packet, sent: seq<Message>) {
    exists i :: 0 <= i < |sent| && IsFragmentOf(pkt, sent[i])
  }

  ghost predicate IsSeen(pkt: Packet, sent: seq<Message>) {
    exists i :: 0 <= i < |sent| && Sendable(sent[i]) && pkt == Seen(sent[i])
  }

  lemma {:induction false} OnlySeenComesOut(s: Defrag, sent: seq<Message>, arrivals: seq<Packet>)
    requires Honest(s, sent) && DistinctIds(sent) && FromSent(arrivals, sent)
    ensures forall k :: 0 <= k < |Outputs(s, arrivals)| ==> IsSeen(Outputs(s, arrivals)[k], sent)
    decreases |arrivals|
  {
    if arrivals != [] {
      assert ComesFrom(arrivals[0], sent);
      var i :| 0 <= i < |sent| && IsFragmentOf(arrivals[0], sent[i]);
      FeedHonest(s, sent, i, arrivals[0]);
      var t, out := Feed(s, arrivals[0]).0, Feed(s, arrivals[0]).1;
      var rest := Outputs(t, arrivals[1..]);
      OnlySeenComesOut(t, sent, arrivals[1..]);
      assert out.Some? ==> IsSeen(out.value, sent);
      assert Outputs(s, arrivals) == (if out.Some? then [out.value] else []) + rest;
    }
  }

  /** Every piece has its fragment: the payload is not empty and takes at most 255. */
  predicate Complete(msg: Message) {
    Sendable(msg) && 1 <= |Pieces(msg)| <= 255
  }

  lemma {:induction false} ConcatShorter(cs: seq<seq<byte>>, t: nat)
    requires t < |cs| && forall k :: 0 <= k < |cs| ==> |cs[k]| > 0
    ensures |Concat(cs[..t])| < |Concat(cs)|
  {
    if t > 0 {
      assert cs[..t][1..] == cs[1..][..t - 1];
      ConcatShorter(cs[1..], t - 1);
    }
  }

  /** The fragments amount to the whole packet exactly when there are at most 255 pieces. */
  lemma SeenIsWhole(msg: Message)
    requires Sendable(msg)
    ensures Seen(msg) == Whole(msg) <==> |Pieces(msg)| <= 255
  {
    var m, pieces := msg.maxSize - FixedSize(msg), Pieces(msg);
    ChunksConcat(msg.payload, m);
    if |pieces| <= 255 {
      assert pieces[..|pieces|] == pieces;
    } else {
      forall k | 0 <= k < |pieces| ensures |pieces[k]| > 0 { ChunkSizes(msg.payload, m, k); }
      ConcatShorter(pieces, Total(msg));
    }
  }

  ghost predicate IsSent(pkt: Packet, sent: seq<Message>) {
    exists i :: 0 <= i < |sent| && pkt == Whole(sent[i])
  }

  /** Over any channel that loses, repeats, reorders and interleaves fragments of packets
      with distinct ids, every packet that comes out is one that was sent. */
  lemma OnlySentComesOut(sent: seq<Message>, arrivals: seq<Packet>)
    requires DistinctIds(sent) && FromSent(arrivals, sent)
    requires forall i :: 0 <= i < |sent| ==> Complete(sent[i])
    ensures forall k :: 0 <= k < |Outputs(Fresh, arrivals)| ==> IsSent(Outputs(Fresh, arrivals)[k], sent)
  {
    OnlySeenComesOut(Fresh, sent, arrivals);
    forall k | 0 <= k < |Outputs(Fresh, arrivals)| ensures IsSent(Outputs(Fresh, arrivals)[k], sent) {
      assert IsSeen(Outputs(Fresh, arrivals)[k], sent);
      var i :| 0 <= i < |sent| && Sendable(sent[i]) && Outputs(Fresh, arrivals)[k] == Seen(sent[i]);
      SeenIsWhole(sent[i]);
    }
  }

  // ---------------------------------------------------------------- one packet, any order

  // The fragments with these numbers, in this order.
  function Fragmented(msg: Message, idx: seq<nat>): (r: seq<Packet>)
    requires Sendable(msg) && forall i :: 0 <= i < |idx| ==> idx[i] < Total(msg)
    ensures |r| == |idx| && forall i :: 0 <= i < |idx| ==> r[i] == FragmentAt(msg, idx[i])
  {
    seq(|idx|, i requires 0 <= i < |idx| => FragmentAt(msg, idx[i]))
  }

  // Nothing kept belongs to this message.
  ghost predicate NewTo(s: Defrag, msg: Message)
    requires Sendable(msg)
  {
    Collecting(s) && (s.pktId != msg.pktId || |s.frags| != Total(msg))
  }

  // Exactly the fragments with these numbers are kept.
  ghost predicate HasExactly(s: Defrag, msg: Message, idx: seq<nat>) {
    && Collecting(s) && HoldsPartsOf(s, msg) && s.cnt == |idx|
    && forall k :: 0 <= k < |s.frags| ==> (s.frags[k].Some? <==> k in idx)
  }

  lemma FeedFirst(s: Defrag, msg: Message, k: nat)
    requires Sendable(msg) && Total(msg) >= 2 && k < Total(msg) && NewTo(s, msg)
    ensures var (t, out) := Feed(s, FragmentAt(msg, k)); out.None? && HasExactly(t, msg, [k])
  {
  }

  lemma FeedAnother(s: Defrag, msg: Message, idx: seq<nat>, k: nat)
    requires Sendable(msg) && Total(msg) >= 2 && k < Total(msg) && HasExactly(s, msg, idx) && k !in idx
    ensures var (t, out) := Feed(s, FragmentAt(msg, k));
      if |idx| + 1 == Total(msg) then out == Some(Seen(msg)) && t.frags == [] && t.pktId == msg.pktId
      else out.None? && HasExactly(t, msg, idx + [k])
  {
    var pkt := FragmentAt(msg, k);
    var frags := s.frags[k := Some(pkt)];
    FilledPut(s.frags, k, pkt);
    FilledAll(frags);
    if |idx| + 1 == Total(msg) { AssembleSeen(msg, frags); }
  }

  lemma {:induction false} OutputsConcat(s: Defrag, a: seq<Packet>, b: seq<Packet>)
    requires Collecting(s)
    ensures Outputs(s, a + b) == Outputs(s, a) + Outputs(After(s, a), b)
    ensures After(s, a + b) == After(After(s, a), b)
    decreases |a|
  {
    if a == [] {
      assert a + b == b;
    } else {
      var t, out := Feed(s, a[0]).0, Feed(s, a[0]).1;
      var first := if out.Some? then [out.value] else [];
      assert (a + b)[0] == a[0] && (a + b)[1..] == a[1..] + b;
      OutputsConcat(t, a[1..], b);
      assert first + (Outputs(t, a[1..]) + Outputs(After(t, a[1..]), b)) == Outputs(s, a) + Outputs(After(s, a), b);
    }
  }

  lemma OutputsOne(s: Defrag, p: Packet)
    requires Collecting(s)
    ensures Outputs(s, [p]) == if Feed(s, p).1.Some? then [Feed(s, p).1.value] else []
    ensures After(s, [p]) == Feed(s, p).0
  {
    assert [p][1..] == [];
  }

  // One more fragment after some others.
  lemma FeedOneMore(s: Defrag, msg: Message, idx: seq<nat>, k: nat)
    requires Collecting(s) && Sendable(msg) && k < Total(msg) && forall i :: 0 <= i < |idx| ==> idx[i] < Total(msg)
    ensures var (t, out) := Feed(After(s, Fragmented(msg, idx)), FragmentAt(msg, k));
      && After(s, Fragmented(msg, idx + [k])) == t
      && Outputs(s, Fragmented(msg, idx + [k])) ==
         Outputs(s, Fragmented(msg, idx)) + if out.Some? then [out.value] else []
  {
    assert Fragmented(msg, idx + [k]) == Fragmented(msg, idx) + [FragmentAt(msg, k)];
    OutputsConcat(s, Fragmented(msg, idx), [FragmentAt(msg, k)]);
    OutputsOne(After(s, Fragmented(msg, idx)), FragmentAt(msg, k));
  }

  // Where a message of several fragments stands after some of them.
  ghost predicate Stands(s: Defrag, t: Defrag, msg: Message, idx: seq<nat>)
    requires Sendable(msg)
  {
    if idx == [] then t == s
    else if |idx| < Total(msg) then HasExactly(t, msg, idx)
    else Collecting(t) && t.frags == [] && t.pktId == msg.pktId
  }

  /** Feeding distinct fragments of one message, in any order, to a receiver that keeps
      nothing of it: nothing comes out until the last one, and then the message. */
  lemma {:induction false} AnyOrder(s: Defrag, msg: Message, idx: seq<nat>)
    requires Sendable(msg) && Total(msg) >= 2 && NewTo(s, msg)
    requires Distinct(idx) && |idx| <= Total(msg) && forall i :: 0 <= i < |idx| ==> idx[i] < Total(msg)
    ensures Outputs(s, Fragmented(msg, idx)) == if |idx| == Total(msg) then [Seen(msg)] else []
    ensures Stands(s, After(s, Fragmented(msg, idx)), msg, idx)
    decreases |idx|
  {
    if idx != [] {
      var init, k := idx[..|idx| - 1], idx[|idx| - 1];
      AnyOrder(s, msg, init);
      assert idx == init + [k] && k !in init;
      var t := After(s, Fragmented(msg, init));
      FeedOneMore(s, msg, init, k);
      if init == [] {
        FeedFirst(s, msg, k);
        assert idx == [k];
      } else {
        FeedAnother(t, msg, init, k);
      }
    }
  }
}
