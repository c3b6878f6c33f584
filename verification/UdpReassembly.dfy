/** What the `Defragger` of clash-lib/src/proxy/hysteria2/codec.rs hands out at each arrival of
    any sequence of fragments, told from the arrivals alone. */
module UdpReassembly {
  import opened Basics
  import opened UdpWire
  import opened UdpFragments
  import opened UdpDefrag

  // A fragment of a packet of several, with a number that can be.
  predicate Piece(p: Packet) {
    p.fragId < p.fragCount && p.fragCount != 1
  }

  predicate SamePacket(p: Packet, q: Packet) {
    p.pktId == q.pktId && p.fragCount == q.fragCount
  }

  // Fragment k is among the arrivals from lo up to hi.
  predicate Came(a: seq<Packet>, lo: nat, hi: nat, k: nat)
    requires hi <= |a|
  {
    exists i :: lo <= i < hi && Piece(a[i]) && a[i].fragId == k
  }

  // The packet of p starts anew at arrival w: a completion or another packet came before.
  ghost predicate StartsAnew(a: seq<Packet>, w: nat, p: Packet)
    requires w <= |a|
    decreases w, 0
  {
    w == 0 || Completes(a, w - 1) || (Piece(a[w - 1]) && !SamePacket(a[w - 1], p))
  }

  /** Arrival w starts the packet of arrival n anew; since then there was no other packet and
      no completion. */
  ghost predicate Since(a: seq<Packet>, w: nat, n: nat)
    requires w <= n < |a|
    decreases n, 1
  {
    && StartsAnew(a, w, a[n])
    && forall i :: w <= i < n ==> Undisturbed(a, i, n)
  }

  ghost predicate Undisturbed(a: seq<Packet>, i: nat, n: nat)
    requires i < n < |a|
    decreases i, 3
  {
    (Piece(a[i]) ==> SamePacket(a[i], a[n])) && !Completes(a, i)
  }

  predicate AllCame(a: seq<Packet>, lo: nat, hi: nat, count: nat)
    requires hi <= |a|
  {
    forall k :: 0 <= k < count ==> Came(a, lo, hi, k)
  }

  /** The last missing fragment of a packet arrives. */
  ghost predicate Completes(a: seq<Packet>, n: nat)
    requires n < |a|
    decreases n, 2
  {
    Piece(a[n]) && exists w :: 0 <= w <= n && Since(a, w, n) && AllCame(a, w, n + 1, a[n].fragCount)
  }

  // The first arrival of fragment k.
  function First(a: seq<Packet>, lo: nat, hi: nat, k: nat): (i: nat)
    requires hi <= |a| && Came(a, lo, hi, k)
    ensures lo <= i < hi && Piece(a[i]) && a[i].fragId == k && !Came(a, lo, i, k)
    decreases hi - lo
  {
    if Piece(a[lo]) && a[lo].fragId == k then lo else First(a, lo + 1, hi, k)
  }

  // The fragments that came first, put together.
  function Joined(a: seq<Packet>, w: nat, n: nat): Packet
    requires w <= n < |a| && Piece(a[n]) && AllCame(a, w, n + 1, a[n].fragCount)
  {
    var firsts := seq(a[n].fragCount, k requires 0 <= k < a[n].fragCount => a[First(a, w, n + 1, k)].data);
    a[First(a, w, n + 1, 0)].(fragId := 0, fragCount := 1, data := Concat(firsts))
  }

  // ---------------------------------------------------------------- windows

  ghost predicate NoPieces(a: seq<Packet>, lo: nat, hi: nat)
    requires hi <= |a|
  {
    forall i :: lo <= i < hi ==> !Piece(a[i])
  }

  lemma EndIsDisturbance(a: seq<Packet>, w: nat, n: nat)
    requires 0 < w <= n < |a| && Since(a, w, n)
    ensures !Undisturbed(a, w - 1, n)
  {
  }

  lemma SinceIsUnique(a: seq<Packet>, v: nat, w: nat, n: nat)
    requires v <= n < |a| && w <= n && Since(a, v, n) && Since(a, w, n)
    ensures v == w
  {
    if v > 0 { EndIsDisturbance(a, v, n); }
    if w > 0 { EndIsDisturbance(a, w, n); }
  }

  // With no fragment before it that counts, a fragment completes nothing.
  lemma FirstOfWindow(a: seq<Packet>, w: nat, n: nat)
    requires w <= n < |a| && Piece(a[n]) && StartsAnew(a, w, a[n]) && NoPieces(a, w, n)
    ensures Since(a, w, n) && !Completes(a, n)
  {
    forall i | w <= i < n ensures Undisturbed(a, i, n) {}
    forall v | 0 <= v <= n && Since(a, v, n) ensures !AllCame(a, v, n + 1, a[n].fragCount) {
      SinceIsUnique(a, v, w, n);
      var k := if a[n].fragId == 0 then 1 else 0;
      assert !Came(a, w, n + 1, k);
    }
  }

  lemma LastPiece(a: seq<Packet>, w: nat, n: nat) returns (j: nat)
    requires n <= |a| && !NoPieces(a, w, n)
    ensures w <= j < n && Piece(a[j]) && NoPieces(a, j + 1, n)
    decreases n
  {
    if Piece(a[n - 1]) {
      j := n - 1;
    } else {
      j := LastPiece(a, w, n - 1);
    }
  }

  // ---------------------------------------------------------------- what is kept

  predicate Belongs(p: Packet, s: Defrag) {
    p.pktId == s.pktId && p.fragCount == |s.frags|
  }

  // A slot holds the first arrival of its fragment, if there was one.
  predicate SlotOk(slot: Option<Packet>, a: seq<Packet>, w: nat, n: nat, k: nat)
    requires n <= |a|
  {
    if Came(a, w, n, k) then slot == Some(a[First(a, w, n, k)]) else slot == None
  }

  ghost predicate Slots(frags: seq<Option<Packet>>, a: seq<Packet>, w: nat, n: nat)
    requires n <= |a|
  {
    forall k :: 0 <= k < |frags| ==> SlotOk(frags[k], a, w, n, k)
  }

  // Since w, before arrival n, only fragments of the packet that is collected have come.
  ghost predicate Window(s: Defrag, a: seq<Packet>, w: nat, n: nat)
    requires w <= n <= |a|
  {
    && (w == 0 || Completes(a, w - 1) || (Piece(a[w - 1]) && !Belongs(a[w - 1], s)))
    && (forall i :: w <= i < n ==> !Completes(a, i) && (Piece(a[i]) ==> Belongs(a[i], s)))
    && !NoPieces(a, w, n)
  }

  // These fragments are kept.
  ghost predicate Keeps(s: Defrag, a: seq<Packet>, w: nat, n: nat)
    requires w <= n <= |a|
  {
    Window(s, a, w, n) && Slots(s.frags, a, w, n)
  }

  // Before arrival n, nothing is kept: a packet was completed last, or none was begun.
  ghost predicate KeepsNone(s: Defrag, a: seq<Packet>, n: nat)
    requires n <= |a|
  {
    s.frags == [] && exists w :: 0 <= w <= n && (w == 0 || Completes(a, w - 1)) && NoPieces(a, w, n)
  }

  ghost predicate Stored(s: Defrag, a: seq<Packet>, n: nat)
    requires n <= |a|
  {
    Collecting(s) && (KeepsNone(s, a, n) || exists w :: 0 <= w <= n && Keeps(s, a, w, n))
  }

  lemma CameOneMore(a: seq<Packet>, w: nat, n: nat, k: nat)
    requires w <= n < |a|
    ensures Came(a, w, n + 1, k) <==> Came(a, w, n, k) || (Piece(a[n]) && a[n].fragId == k)
    ensures Came(a, w, n, k) ==> First(a, w, n + 1, k) == First(a, w, n, k)
    ensures !Came(a, w, n, k) && Came(a, w, n + 1, k) ==> First(a, w, n + 1, k) == n
  {
    if Came(a, w, n, k) { FirstIsUnique(a, w, k, First(a, w, n, k), First(a, w, n + 1, k)); }
  }

  lemma FirstIsUnique(a: seq<Packet>, w: nat, k: nat, i: nat, j: nat)
    requires w <= i < |a| && Piece(a[i]) && a[i].fragId == k && !Came(a, w, i, k)
    requires w <= j < |a| && Piece(a[j]) && a[j].fragId == k && !Came(a, w, j, k)
    ensures i == j
  {
  }

  // One more arrival that does not complete the packet.
  lemma WindowGrows(s: Defrag, t: Defrag, a: seq<Packet>, w: nat, n: nat)
    requires w <= n < |a| && Window(s, a, w, n) && t.pktId == s.pktId && |t.frags| == |s.frags|
    requires (Piece(a[n]) ==> Belongs(a[n], s)) && !Completes(a, n)
    ensures Window(t, a, w, n + 1)
  {
    var i :| w <= i < n && Piece(a[i]);
    assert !NoPieces(a, w, n + 1);
  }

  // An arrival that is no fragment of several changes nothing.
  lemma PassesBy(s: Defrag, a: seq<Packet>, n: nat)
    requires n < |a| && Stored(s, a, n) && !Piece(a[n])
    ensures Stored(s, a, n + 1)
  {
    if KeepsNone(s, a, n) {
      var w :| 0 <= w <= n && (w == 0 || Completes(a, w - 1)) && NoPieces(a, w, n);
      assert NoPieces(a, w, n + 1);
    } else {
      var w :| 0 <= w <= n && Keeps(s, a, w, n);
      SlotsStay(s.frags, a, w, n);
      WindowGrows(s, s, a, w, n);
      assert Keeps(s, a, w, n + 1);
    }
  }

  // An arrival that adds no fragment leaves the slots right.
  lemma SlotsStay(frags: seq<Option<Packet>>, a: seq<Packet>, w: nat, n: nat)
    requires w <= n < |a| && Slots(frags, a, w, n)
    requires Piece(a[n]) ==> a[n].fragId < |frags| && frags[a[n].fragId].Some?
    ensures Slots(frags, a, w, n + 1)
  {
    forall k | 0 <= k < |frags| ensures SlotOk(frags[k], a, w, n + 1, k) {
      assert SlotOk(frags[k], a, w, n, k);
      CameOneMore(a, w, n, k);
    }
  }

  // The first fragment of a packet that is not being collected.
  lemma Begins(s: Defrag, a: seq<Packet>, w: nat, n: nat)
    requires w <= n < |a| && Collecting(s) && Piece(a[n]) && !Belongs(a[n], s)
    requires StartsAnew(a, w, a[n]) && NoPieces(a, w, n)
    ensures Stored(Feed(s, a[n]).0, a, n + 1) && Feed(s, a[n]).1 == None && !Completes(a, n)
  {
    FirstOfWindow(a, w, n);
    var t := Feed(s, a[n]).0;
    forall k | 0 <= k < |t.frags| ensures SlotOk(t.frags[k], a, w, n + 1, k) { CameOneMore(a, w, n, k); }
    assert !NoPieces(a, w, n + 1);
    assert Window(t, a, w, n + 1) && Slots(t.frags, a, w, n + 1);
    assert Keeps(t, a, w, n + 1);
  }

  lemma WindowOf(a: seq<Packet>, n: nat) returns (w: nat)
    requires n < |a| && Completes(a, n)
    ensures w <= n && Since(a, w, n) && AllCame(a, w, n + 1, a[n].fragCount)
  {
    w :| 0 <= w <= n && Since(a, w, n) && AllCame(a, w, n + 1, a[n].fragCount);
  }

  lemma CompletesIn(a: seq<Packet>, w: nat, n: nat)
    requires w <= n < |a| && Piece(a[n]) && Since(a, w, n) && AllCame(a, w, n + 1, a[n].fragCount)
    ensures Completes(a, n)
  {
  }

  // Of a packet that is being collected: where its window began.
  lemma SinceKept(s: Defrag, a: seq<Packet>, w: nat, n: nat)
    requires w <= n < |a| && Piece(a[n]) && Belongs(a[n], s) && Window(s, a, w, n)
    ensures Since(a, w, n) && (Completes(a, n) <==> AllCame(a, w, n + 1, a[n].fragCount))
  {
    forall i | w <= i < n ensures Undisturbed(a, i, n) {}
    if AllCame(a, w, n + 1, a[n].fragCount) { CompletesIn(a, w, n); }
    if Completes(a, n) {
      var v := WindowOf(a, n);
      SinceIsUnique(a, v, w, n);
    }
  }

  // A slot is filled exactly if its fragment came.
  lemma SlotsShow(frags: seq<Option<Packet>>, a: seq<Packet>, w: nat, n: nat)
    requires n <= |a| && Slots(frags, a, w, n)
    ensures AllThere(frags) <==> AllCame(a, w, n, |frags|)
  {
    forall k | 0 <= k < |frags| ensures frags[k].Some? <==> Came(a, w, n, k) {
      assert SlotOk(frags[k], a, w, n, k);
    }
  }

  // A fragment that is there already.
  lemma Repeats(s: Defrag, a: seq<Packet>, w: nat, n: nat)
    requires w <= n < |a| && Collecting(s) && Piece(a[n]) && Belongs(a[n], s) && Keeps(s, a, w, n)
    requires s.frags[a[n].fragId].Some?
    ensures Stored(s, a, n + 1) && !Completes(a, n)
  {
    SinceKept(s, a, w, n);
    SlotsStay(s.frags, a, w, n);
    SlotsShow(s.frags, a, w, n + 1);
    FilledAll(s.frags);
    WindowGrows(s, s, a, w, n);
    assert Keeps(s, a, w, n + 1);
  }

  // A fragment that was missing: the slots after it.
  lemma FillsSlot(s: Defrag, a: seq<Packet>, w: nat, n: nat, frags: seq<Option<Packet>>)
    requires w <= n < |a| && Piece(a[n]) && Belongs(a[n], s) && Slots(s.frags, a, w, n)
    requires s.frags[a[n].fragId].None? && frags == s.frags[a[n].fragId := Some(a[n])]
    ensures Slots(frags, a, w, n + 1)
  {
    forall k | 0 <= k < |frags| ensures SlotOk(frags[k], a, w, n + 1, k) {
      assert SlotOk(s.frags[k], a, w, n, k);
      CameOneMore(a, w, n, k);
    }
  }

  lemma AssembleJoined(a: seq<Packet>, w: nat, n: nat, frags: seq<Option<Packet>>)
    requires w <= n < |a| && Piece(a[n]) && |frags| == a[n].fragCount && AllThere(frags)
    requires AllCame(a, w, n + 1, a[n].fragCount)
    requires Slots(frags, a, w, n + 1)
    ensures Assemble(frags) == Joined(a, w, n)
  {
    var firsts := seq(a[n].fragCount, k requires 0 <= k < a[n].fragCount => a[First(a, w, n + 1, k)].data);
    forall k | 0 <= k < |frags| ensures frags[k].value.data == firsts[k] {
      assert SlotOk(frags[k], a, w, n + 1, k) && Came(a, w, n + 1, k);
    }
    AllDataIs(frags, firsts);
    assert SlotOk(frags[0], a, w, n + 1, 0);
  }

  // The packet that comes out when its last fragment arrives.
  ghost predicate IsJoined(pkt: Packet, a: seq<Packet>, n: nat)
    requires n < |a| && Piece(a[n])
  {
    exists w :: 0 <= w <= n && Since(a, w, n) && AllCame(a, w, n + 1, a[n].fragCount) && pkt == Joined(a, w, n)
  }

  // A fragment that was missing: it completes the packet, or is kept.
  lemma Fills(s: Defrag, a: seq<Packet>, w: nat, n: nat)
    requires w <= n < |a| && Collecting(s) && Piece(a[n]) && Belongs(a[n], s) && Keeps(s, a, w, n)
    requires s.frags[a[n].fragId].None?
    ensures Stored(Feed(s, a[n]).0, a, n + 1) && Tells(Feed(s, a[n]).1, a, n)
  {
    var frags := s.frags[a[n].fragId := Some(a[n])];
    SinceKept(s, a, w, n);
    FillsSlot(s, a, w, n, frags);
    SlotsShow(frags, a, w, n + 1);
    FilledPut(s.frags, a[n].fragId, a[n]);
    FilledAll(frags);
    if AllThere(frags) {
      AssembleJoined(a, w, n, frags);
      Completed(Feed(s, a[n]).0, a, n);
    } else {
      var t := Feed(s, a[n]).0;
      WindowGrows(s, t, a, w, n);
      assert Keeps(t, a, w, n + 1);
    }
  }

  lemma Completed(t: Defrag, a: seq<Packet>, n: nat)
    requires n < |a| && Completes(a, n) && t.frags == []
    ensures Stored(t, a, n + 1)
  {
    assert NoPieces(a, n + 1, n + 1);
    assert KeepsNone(t, a, n + 1);
  }

  // What comes out at an arrival.
  ghost predicate Tells(out: Option<Packet>, a: seq<Packet>, n: nat)
    requires n < |a|
  {
    if a[n].fragCount == 1 then out == Some(a[n])
    else if Completes(a, n) then out.Some? && IsJoined(out.value, a, n)
    else out == None
  }

  lemma StepKeeping(s: Defrag, a: seq<Packet>, w: nat, n: nat)
    requires w <= n < |a| && Collecting(s) && Piece(a[n]) && Keeps(s, a, w, n)
    ensures Stored(Feed(s, a[n]).0, a, n + 1) && Tells(Feed(s, a[n]).1, a, n)
  {
    if !Belongs(a[n], s) {
      var j := LastPiece(a, w, n);
      Begins(s, a, j + 1, n);
    } else if s.frags[a[n].fragId].None? {
      Fills(s, a, w, n);
    } else {
      Repeats(s, a, w, n);
    }
  }

  lemma Step(s: Defrag, a: seq<Packet>, n: nat)
    requires n < |a| && Stored(s, a, n)
    ensures Stored(Feed(s, a[n]).0, a, n + 1) && Tells(Feed(s, a[n]).1, a, n)
  {
    if !Piece(a[n]) {
      PassesBy(s, a, n);
    } else if KeepsNone(s, a, n) {
      var w :| 0 <= w <= n && (w == 0 || Completes(a, w - 1)) && NoPieces(a, w, n);
      Begins(s, a, w, n);
    } else {
      var w :| 0 <= w <= n && Keeps(s, a, w, n);
      StepKeeping(s, a, w, n);
    }
  }

  // ---------------------------------------------------------------- every arrival

  lemma {:induction false} StoredAfter(a: seq<Packet>, n: nat)
    requires n <= |a|
    ensures Stored(After(Fresh, a[..n]), a, n)
  {
    if n == 0 {
      assert a[..0] == [] && NoPieces(a, 0, 0);
      assert KeepsNone(Fresh, a, 0);
    } else {
      StoredAfter(a, n - 1);
      Step(After(Fresh, a[..n - 1]), a, n - 1);
      AfterOneMore(a, n - 1);
    }
  }

  lemma AfterOneMore(a: seq<Packet>, n: nat)
    requires n < |a|
    ensures var (t, out) := Feed(After(Fresh, a[..n]), a[n]);
      && After(Fresh, a[..n + 1]) == t
      && Outputs(Fresh, a[..n + 1]) == Outputs(Fresh, a[..n]) + if out.Some? then [out.value] else []
  {
    assert a[..n + 1] == a[..n] + [a[n]];
    OutputsConcat(Fresh, a[..n], [a[n]]);
    OutputsOne(After(Fresh, a[..n]), a[n]);
  }

  // What arrival n hands out.
  function OutAt(a: seq<Packet>, n: nat): Option<Packet>
    requires n < |a|
  {
    Feed(After(Fresh, a[..n]), a[n]).1
  }

  /** For any arrivals: a packet in one fragment comes out as it arrives.  Another one comes
      out at an arrival exactly if that is the last of its fragments to come, counted since
      the last fragment of another packet or its own last completion; it is then made of the
      first arrivals of its fragments.  Whole packets, numbers that cannot be and repetitions
      in between change nothing. */
  lemma ComesOut(a: seq<Packet>, n: nat)
    requires n < |a|
    ensures a[n].fragCount == 1 ==> OutAt(a, n) == Some(a[n])
    ensures a[n].fragCount != 1 ==> (OutAt(a, n).Some? <==> Completes(a, n))
    ensures a[n].fragCount != 1 && OutAt(a, n).Some? ==> IsJoined(OutAt(a, n).value, a, n)
    ensures Outputs(Fresh, a[..n + 1]) ==
      Outputs(Fresh, a[..n]) + if OutAt(a, n).Some? then [OutAt(a, n).value] else []
  {
    StoredAfter(a, n);
    Step(After(Fresh, a[..n]), a, n);
    AfterOneMore(a, n);
  }

  lemma {:induction false} HonestAfter(sent: seq<Message>, a: seq<Packet>, n: nat)
    requires DistinctIds(sent) && FromSent(a, sent) && n <= |a|
    ensures Honest(After(Fresh, a[..n]), sent)
  {
    if n == 0 {
      assert a[..0] == [];
    } else {
      HonestAfter(sent, a, n - 1);
      assert ComesFrom(a[n - 1], sent);
      var i :| 0 <= i < |sent| && IsFragmentOf(a[n - 1], sent[i]);
      FeedHonest(After(Fresh, a[..n - 1]), sent, i, a[n - 1]);
      AfterOneMore(a, n - 1);
    }
  }

  /** Over a channel that may lose, repeat, reorder and mix the fragments of packets with
      distinct ids: a packet comes out, whole, exactly at the arrivals that complete it. */
  lemma SentComesOut(sent: seq<Message>, a: seq<Packet>, n: nat, i: nat)
    requires DistinctIds(sent) && FromSent(a, sent) && n < |a|
    requires i < |sent| && Complete(sent[i]) && IsFragmentOf(a[n], sent[i])
    ensures OutAt(a, n) == if |Pieces(sent[i])| == 1 || Completes(a, n) then Some(Whole(sent[i])) else None
  {
    HonestAfter(sent, a, n);
    FeedHonest(After(Fresh, a[..n]), sent, i, a[n]);
    SeenIsWhole(sent[i]);
    ComesOut(a, n);
  }
}
