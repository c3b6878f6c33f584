/** What one direction of a copy is meant to do, with no buffers: the behaviour that both
    copiers of clash-lib/src/common/io refine. */
module AbstractCopier {
  import opened Basics

  datatype Act = Take(bytes: seq<byte>) | SeeEnd | Give(n: nat) | Flush | Finish

  /** The bytes taken from the reader, those given to the writer, whether the reader has
      ended, whether bytes were given since the last flush, and whether the copy is over. */
  datatype Copy = Copy(taken: seq<byte>, given: seq<byte>, ended: bool, dirty: bool, over: bool)

  const Start := Copy([], [], false, false, false)

  function InFlight(c: Copy): seq<byte> {
    if |c.given| <= |c.taken| then c.taken[|c.given|..] else []
  }

  /** When an action is allowed. */
  predicate Enabled(c: Copy, act: Act) {
    && !c.over
    && match act {
      case Take(bytes) => !c.ended && InFlight(c) == [] && bytes != []
      case SeeEnd => !c.ended && InFlight(c) == []
      case Give(n) => 0 < n <= |InFlight(c)|
      case Flush => true
      case Finish => c.ended && InFlight(c) == [] && !c.dirty
    }
  }

  function Apply(c: Copy, act: Act): Copy
    requires Enabled(c, act)
  {
    match act
    case Take(bytes) => c.(taken := c.taken + bytes)
    case SeeEnd => c.(ended := true)
    case Give(n) => c.(given := c.given + InFlight(c)[..n], dirty := true)
    case Flush => c.(dirty := false)
    case Finish => c.(over := true)
  }

  lemma GiveShortens(c: Copy, n: nat)
    requires Enabled(c, Give(n))
    ensures InFlight(Apply(c, Give(n))) == InFlight(c)[n..]
  {
  }

  lemma TakeFills(c: Copy, bytes: seq<byte>)
    requires Enabled(c, Take(bytes)) && c.given <= c.taken
    ensures InFlight(Apply(c, Take(bytes))) == bytes
  {
  }

  // The actions lead from one state to another.
  ghost predicate Leads(c: Copy, acts: seq<Act>, d: Copy)
    decreases |acts|
  {
    if acts == [] then c == d
    else Enabled(c, acts[0]) && Leads(Apply(c, acts[0]), acts[1..], d)
  }

  lemma {:induction false} LeadsMore(c: Copy, acts: seq<Act>, d: Copy, act: Act)
    requires Leads(c, acts, d) && Enabled(d, act)
    ensures Leads(c, acts + [act], Apply(d, act))
    decreases |acts|
  {
    if acts == [] {
      assert ([] + [act])[1..] == [];
    } else {
      assert (acts + [act])[1..] == acts[1..] + [act];
      LeadsMore(Apply(c, acts[0]), acts[1..], d, act);
    }
  }

  /** What holds after any actions: bytes come out in order, none twice and none invented;
      and a copy that is over has seen the end, given everything and flushed it. */
  ghost predicate Faithful(c: Copy) {
    && c.given <= c.taken
    && (c.over ==> c.ended && c.given == c.taken && !c.dirty)
  }

  lemma {:induction false} AlwaysFaithful(c: Copy, acts: seq<Act>, d: Copy)
    requires Leads(c, acts, d) && Faithful(c)
    ensures Faithful(d)
    decreases |acts|
  {
    if acts != [] {
      var e := Apply(c, acts[0]);
      assert e.given <= e.taken by {
        if acts[0].Give? {
          assert c.taken == c.given + InFlight(c);
        }
      }
      if acts[0].Finish? { assert c.taken == c.given + InFlight(c); }
      AlwaysFaithful(e, acts[1..], d);
    }
  }

  // One more action of a copy that began at the start.
  lemma OneMore(acts: seq<Act>, c: Copy, act: Act)
    requires Leads(Start, acts, c) && Enabled(c, act)
    ensures Leads(Start, acts + [act], Apply(c, act)) && Faithful(Apply(c, act))
  {
    LeadsMore(Start, acts, c, act);
    assert Faithful(Start);
    AlwaysFaithful(Start, acts + [act], Apply(c, act));
  }

  /** Nothing is taken once the end was seen, in any continuation. */
  lemma {:induction false} NothingAfterEnd(c: Copy, acts: seq<Act>, d: Copy)
    requires Leads(c, acts, d) && c.ended
    ensures d.ended && d.taken == c.taken
    ensures forall i :: 0 <= i < |acts| ==> !acts[i].Take? && !acts[i].SeeEnd?
    decreases |acts|
  {
    if acts != [] {
      NothingAfterEnd(Apply(c, acts[0]), acts[1..], d);
      forall i | 0 <= i < |acts| ensures !acts[i].Take? && !acts[i].SeeEnd? {
        if i > 0 { assert acts[i] == acts[1..][i - 1]; }
      }
    }
  }
}
