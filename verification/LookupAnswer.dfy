/** The rounds of `has` have one outcome: what the set answers is a function of the set and
    the query. */
module LookupAnswer {
  import opened Basics
  import opened Bitmap
  import opened Louds
  import opened SuccinctSet
  import opened SetLookup

  // The bitmap fixes the blocks, one after the other.
  lemma {:induction false} SameBlocks(bits: seq<bool>, a: seq<nat>, b: seq<nat>, n: nat)
    requires |a| == |b| && n <= |a| && Blocks(bits, a) && Blocks(bits, b)
    ensures a[..n] == b[..n]
  {
    if n > 0 {
      SameBlocks(bits, a, b, n - 1);
      assert n > 1 ==> a[..n - 1][n - 2] == a[n - 2] && b[..n - 1][n - 2] == b[n - 2];
      assert Start(a, n - 1) == Start(b, n - 1);
      assert Block(bits, a, n - 1) && Block(bits, b, n - 1);
      assert a[n - 1] == b[n - 1];
    }
  }

  lemma SameCum(ds: DomainSet, keysA: seq<string>, nodesA: seq<Node>, a: seq<nat>, keysB: seq<string>,
                nodesB: seq<Node>, b: seq<nat>)
    requires Encodes(ds, keysA, nodesA, a) && Encodes(ds, keysB, nodesB, b)
    ensures a == b && |a| == |nodesA| == |nodesB|
  {
    SameBlocks(Flat(ds.labelBitMap), a, b, |a|);
    assert a[..|a|] == a && b[..|b|] == b;
  }

  // A number of the node stands for the same leaf bit, whatever the keys.
  lemma SameLeaf(ds: DomainSet, keysA: seq<string>, nodesA: seq<Node>, keysB: seq<string>, nodesB: seq<Node>,
                 cum: seq<nat>, k: nat)
    requires Encodes(ds, keysA, nodesA, cum) && Encodes(ds, keysB, nodesB, cum) && k < |nodesA| == |nodesB|
    ensures nodesA[k].s < |keysA| && nodesB[k].s < |keysB|
    ensures IsLeaf(keysA, nodesA[k]) <==> IsLeaf(keysB, nodesB[k])
  {
    assert LeafOk(ds.leaves, keysA, nodesA[k], k) && LeafOk(ds.leaves, keysB, nodesB[k], k);
  }

  lemma DecidedIsNotPassed(ds: DomainSet, cum: seq<nat>, c: char, nodeId: nat, p: nat, outcome: Scan)
    requires cum != [] && Decided(ds, cum, c, nodeId, p, outcome)
    ensures !Passed(ds, c, nodeId, p)
  {
  }

  lemma SameScan(ds: DomainSet, cum: seq<nat>, key: string, s: Look, a: Scan, p: nat, b: Scan, q: nat)
    requires cum != [] && s.i < |key| && Scanned(ds, cum, key, s, a, p) && Scanned(ds, cum, key, s, b, q)
    ensures a == b && p == q
  {
    DecidedIsNotPassed(ds, cum, key[s.i], s.nodeId, p, a);
    DecidedIsNotPassed(ds, cum, key[s.i], s.nodeId, q, b);
  }

  lemma SameChild(ds: DomainSet, keys: seq<string>, nodes: seq<Node>, cum: seq<nat>, p: nat, a: nat, b: nat)
    requires Encodes(ds, keys, nodes, cum) && LeadsTo(cum, p, a) && LeadsTo(cum, p, b)
    ensures a == b
  {
    var k: nat :| InBlock(cum, k, p) && p < k + cum[k] && a == p - k + 1;
    LeadsToOne(ds, keys, nodes, cum, k, p, b);
  }

  lemma SameBack(ds: DomainSet, keysA: seq<string>, nodesA: seq<Node>, keysB: seq<string>, nodesB: seq<Node>,
                 cum: seq<nat>, key: string, c: Cursor, a: Back, k: nat, p: nat, i: nat, b: Back, l: nat, q: nat,
                 j: nat)
    requires Encodes(ds, keysA, nodesA, cum) && Encodes(ds, keysB, nodesB, cum) && |cum| == |nodesA| == |nodesB|
    requires c.index <= |key|
    requires GoesBack(ds, keysA, nodesA, cum, key, c, a, k, p, i)
    requires GoesBack(ds, keysB, nodesB, cum, key, c, b, l, q, j)
    ensures a == b && k == l && i == j && (a.Jump? ==> p == q)
  {
    SameChild(ds, keysA, nodesA, cum, c.bmIdx, k, l);
    SameLeaf(ds, keysA, nodesA, keysB, nodesB, cum, k);
  }

  lemma SameRound(ds: DomainSet, keysA: seq<string>, nodesA: seq<Node>, keysB: seq<string>, nodesB: seq<Node>,
                  cum: seq<nat>, key: string, s: Look, scan: Scan, p: nat, a: Option<bool>, t: Look, b: Option<bool>,
                  u: Look)
    requires Encodes(ds, keysA, nodesA, cum) && Encodes(ds, keysB, nodesB, cum) && |cum| == |nodesA| == |nodesB|
    requires RoundIs(ds, keysA, nodesA, cum, key, s, scan, p, a, t)
    requires RoundIs(ds, keysB, nodesB, cum, key, s, scan, p, b, u)
    ensures a == b && (a.None? ==> t == u)
  {
    var stack := s.stack + Stars(ds, s.nodeId, s.i, s.bmIdx, p);
    if scan.Match? {
      SameChild(ds, keysA, nodesA, cum, p, t.nodeId, u.nodeId);
    } else if scan.BlockEnd? && stack != [] {
      var c, rest := stack[|stack| - 1], stack[..|stack| - 1];
      assert stack == rest + [c];
      var x, k, at, i := RoundGoesBack(ds, keysA, nodesA, cum, key, s, p, a, t, rest, c);
      var y, l, to, j := RoundGoesBack(ds, keysB, nodesB, cum, key, s, p, b, u, rest, c);
      SameBack(ds, keysA, nodesA, keysB, nodesB, cum, key, c, x, k, at, i, y, l, to, j);
    }
  }

  /** The rounds from one state, counted or encoded in any way, end with one answer. */
  lemma {:induction false} SameDecision(ds: DomainSet, keysA: seq<string>, nodesA: seq<Node>, keysB: seq<string>,
                                        nodesB: seq<Node>, cum: seq<nat>, key: string, s: Look, m: nat, a: bool,
                                        n: nat, b: bool)
    requires Encodes(ds, keysA, nodesA, cum) && Encodes(ds, keysB, nodesB, cum) && |cum| == |nodesA| == |nodesB|
    requires Decides(ds, keysA, nodesA, cum, key, s, m, a) && Decides(ds, keysB, nodesB, cum, key, s, n, b)
    ensures a == b
    decreases m
  {
    if s.i >= |key| {
      SameLeaf(ds, keysA, nodesA, keysB, nodesB, cum, s.nodeId);
    } else {
      var scan, p, x, t := FirstRound(ds, keysA, nodesA, cum, key, s, m, a);
      var other, q, y, u := FirstRound(ds, keysB, nodesB, cum, key, s, n, b);
      SameScan(ds, cum, key, s, scan, p, other, q);
      SameRound(ds, keysA, nodesA, keysB, nodesB, cum, key, s, scan, p, x, t, y, u);
      if x.None? { SameDecision(ds, keysA, nodesA, keysB, nodesB, cum, key, t, m - 1, a, n - 1, b); }
    }
  }

  lemma FirstRound(ds: DomainSet, keys: seq<string>, nodes: seq<Node>, cum: seq<nat>, key: string, s: Look, n: nat,
                   r: bool) returns (outcome: Scan, p: nat, verdict: Option<bool>, t: Look)
    requires cum != [] && |nodes| == |cum| && s.i < |key| && Decides(ds, keys, nodes, cum, key, s, n, r)
    ensures n > 0 && OneRound(ds, keys, nodes, cum, key, s, outcome, p, verdict, t)
    ensures if verdict.Some? then r == verdict.value else Decides(ds, keys, nodes, cum, key, t, n - 1, r)
  {
    outcome, p, verdict, t :| OneRound(ds, keys, nodes, cum, key, s, outcome, p, verdict, t) &&
      if verdict.Some? then r == verdict.value else Decides(ds, keys, nodes, cum, key, t, n - 1, r);
  }

  /** The set gives a query one answer, from whatever key list it may have been built. */
  lemma OneAnswer(ds: DomainSet, keysA: seq<string>, keysB: seq<string>, key: string, a: bool, b: bool)
    requires Answers(ds, keysA, key, a) && Answers(ds, keysB, key, b)
    ensures a == b
  {
    var root := Look(0, 0, 0, []);
    var nodesA, cumA, m: nat :| Encodes(ds, keysA, nodesA, cumA) && Decides(ds, keysA, nodesA, cumA, key, root, m, a);
    var nodesB, cumB, n: nat :| Encodes(ds, keysB, nodesB, cumB) && Decides(ds, keysB, nodesB, cumB, key, root, n, b);
    SameCum(ds, keysA, nodesA, cumA, keysB, nodesB, cumB);
    SameDecision(ds, keysA, nodesA, keysB, nodesB, cumA, key, root, m, a, n, b);
  }

  // ---------------------------------------------------------------- what a query is read as

  /** Two queries that differ in case only get the same answer, from every set. */
  method HasIgnoresCase(ds: DomainSet, a: string, b: string, ghost keys: seq<string>) returns (x: bool, y: bool)
    requires Represents(ds, keys) && SameButCase(a, b)
    ensures x == y
  {
    x := Has(ds, a, keys);
    y := Has(ds, b, keys);
    LowerIgnoresCase(a, b);
    OneAnswer(ds, keys, keys, Lower(Reverse(a)), x, y);
  }

  // Characters of which only the low byte is read: all but the capitals.
  predicate SameByte(c: char, d: char) {
    c as int % 256 == d as int % 256 && !('A' <= c <= 'Z') && !('A' <= d <= 'Z')
  }

  lemma SameRead(c: char, d: char)
    requires SameByte(c, d)
    ensures AsByte(LowerChar(c)) == AsByte(LowerChar(d))
  {
  }

  lemma SameBytes(a: string, b: string)
    requires |a| == |b| && forall i :: 0 <= i < |a| ==> SameByte(a[i], b[i])
    ensures Bytes(Lower(Reverse(a))) == Bytes(Lower(Reverse(b)))
  {
    var p, q := Lower(Reverse(a)), Lower(Reverse(b));
    forall i | 0 <= i < |p| ensures AsByte(p[i]) == AsByte(q[i]) {
      SameRead(a[|a| - 1 - i], b[|a| - 1 - i]);
    }
    assert Bytes(p) == Bytes(q);
  }

  /** Without `*` in the keys only the low byte of each character counts. */
  method HasReadsBytes(ds: DomainSet, a: string, b: string, ghost keys: seq<string>) returns (x: bool, y: bool)
    requires Represents(ds, keys) && StarFree(keys)
    requires |a| == |b| && forall i :: 0 <= i < |a| ==> SameByte(a[i], b[i])
    ensures x == y
  {
    x := Has(ds, a, keys);
    y := Has(ds, b, keys);
    SameBytes(a, b);
  }
}
