/** The succinct domain set of clash-lib/src/common/succinct_set.rs: the breadth-first
    construction from a sorted key list, and enumeration of the keys. */
module SuccinctSet {
  import opened Basics
  import opened Bitmap
  import opened SortedKeys
  import opened Louds

  datatype DomainSet = DomainSet(
    leaves: seq<Word>,
    labelBitMap: seq<Word>,
    labels: seq<char>,
    ranks: seq<Int32>,
    selects: seq<Int32>)

  datatype QElt = QElt(s: nat, e: nat, col: nat)

  /** `c as u8`: labels are single bytes. */
  function AsByte(c: char): char {
    (c as int % 256) as char
  }

  // `s.chars().nth(col)`
  function Nth(s: string, col: nat): Option<char> {
    if col < |s| then Some(s[col]) else None
  }

  // ---------------------------------------------------------------- what a set encodes

  ghost predicate LabelsOk(labels: seq<char>, nodes: seq<Node>) {
    && |labels| + 1 == |nodes|
    && forall j {:trigger nodes[j].prefix} :: 0 < j < |nodes| ==>
      nodes[j].prefix != "" && labels[j - 1] == Label(nodes[j])
  }

  // The leaf bit of a node says whether the node is a key.
  ghost predicate LeavesOk(leaves: seq<Word>, keys: seq<string>, nodes: seq<Node>, n: nat)
    requires n <= |nodes|
  {
    && (forall k :: n <= k < 64 * |leaves| ==> !Flat(leaves)[k])
    && (forall k {:trigger LeafOk(leaves, keys, nodes[k], k)} :: 0 <= k < n ==> LeafOk(leaves, keys, nodes[k], k))
  }

  ghost predicate LeafOk(leaves: seq<Word>, keys: seq<string>, v: Node, k: nat) {
    v.s < |keys| && (IsLeaf(keys, v) <==> k < 64 * |leaves| && Flat(leaves)[k])
  }

  ghost predicate Encodes(ds: DomainSet, keys: seq<string>, nodes: seq<Node>, cum: seq<nat>) {
    && StrictlySorted(keys) && Finished(keys, nodes, cum)
    && LabelsOk(ds.labels, nodes)
    && |nodes| <= 64 * |ds.leaves| && LeavesOk(ds.leaves, keys, nodes, |nodes|)
    && 64 * |ds.labelBitMap| < MaxBits && Blocks(Flat(ds.labelBitMap), cum)
    && RanksOk(ds.labelBitMap, ds.ranks) && SelectsOk(ds.labelBitMap, ds.selects)
  }

  /** The set was built from this key list. */
  ghost predicate Represents(ds: DomainSet, keys: seq<string>) {
    exists nodes, cum :: Encodes(ds, keys, nodes, cum)
  }

  /** The construction fits 32-bit tables: fewer than 2^31 bits in whole words. */
  ghost predicate Fits(keys: seq<string>) {
    2 * |Prefixes(keys)| - 1 <= MaxBits - 64
  }

  // ---------------------------------------------------------------- construction

  ghost predicate Packs(bm: seq<Word>, bits: seq<bool>) {
    && bits <= Flat(bm)
    && 64 * |bm| < |bits| + 64
    && forall p :: |bits| <= p < 64 * |bm| ==> !Flat(bm)[p]
  }

  method AppendBit(bm: seq<Word>, lIdx: nat, v: bool, ghost bits: seq<bool>) returns (r: seq<Word>)
    requires Packs(bm, bits) && lIdx == |bits|
    ensures Packs(r, bits + [v])
  {
    r := SetBit(bm, lIdx, v);
    forall p | 0 <= p < |bits| ensures Flat(r)[p] == bits[p] {
      assert Flat(bm)[p] == bits[p];
    }
  }

  // Where the keys from frm on stop having the same character in this column.
  function GroupEnd(keys: seq<string>, frm: nat, j: nat, e: nat, col: nat): (r: nat)
    requires frm < e <= |keys| && frm <= j <= e
    ensures j <= r <= e && forall i :: j <= i < r ==> Nth(keys[i], col) == Nth(keys[frm], col)
    ensures r < e ==> Nth(keys[r], col) != Nth(keys[frm], col)
    decreases e - j
  {
    if j < e && Nth(keys[j], col) == Nth(keys[frm], col) then GroupEnd(keys, frm, j + 1, e, col) else j
  }

  // The queue entries for the keys from frm on, one for each group.
  function Groups(keys: seq<string>, frm: nat, e: nat, col: nat): seq<QElt>
    requires frm <= e <= |keys|
    decreases e - frm
  {
    if frm == e then []
    else
      var j := GroupEnd(keys, frm, frm + 1, e, col);
      [QElt(frm, j, col + 1)] + Groups(keys, j, e, col)
  }

  // What one turn of the construction adds to the queue for an entry.
  function Pushed(keys: seq<string>, elt: QElt): seq<QElt>
    requires elt.s < elt.e <= |keys|
  {
    Groups(keys, if elt.col == |keys[elt.s]| then elt.s + 1 else elt.s, elt.e, elt.col)
  }

  ghost predicate StillToPush(keys: seq<string>, queue: seq<QElt>, j: nat, e: nat, col: nat, whole: seq<QElt>) {
    j <= e <= |keys| && queue + Groups(keys, j, e, col) == whole
  }

  lemma PushedOne(keys: seq<string>, queue: seq<QElt>, frm: nat, j: nat, e: nat, col: nat, whole: seq<QElt>)
    requires frm < e && StillToPush(keys, queue, frm, e, col, whole) && j == GroupEnd(keys, frm, frm + 1, e, col)
    ensures StillToPush(keys, queue + [QElt(frm, j, col + 1)], j, e, col, whole)
  {
    var elt := QElt(frm, j, col + 1);
    assert queue + [elt] + Groups(keys, j, e, col) == queue + ([elt] + Groups(keys, j, e, col));
  }

  // The queue has got the entries of entry i behind it.
  ghost predicate Grows(keys: seq<string>, queue: seq<QElt>, i: nat, queue': seq<QElt>) {
    && i < |queue| <= |queue'| && queue[i].s < queue[i].e <= |keys|
    && queue'[|queue|..] == Pushed(keys, queue[i])
  }

  lemma GrowsBy(keys: seq<string>, queue: seq<QElt>, marked: seq<QElt>, i: nat, v: Node)
    requires i < |queue| == |marked| && v.s < v.e <= |keys| && queue[i] == QElt(v.s, v.e, |v.prefix|)
    requires marked[i] == QElt(Inner(keys, v), v.e, |v.prefix|)
    ensures marked[i].s <= marked[i].e
    ensures Grows(keys, queue, i, marked + Groups(keys, marked[i].s, marked[i].e, marked[i].col))
  {
    var more := Groups(keys, marked[i].s, marked[i].e, marked[i].col);
    assert (marked + more)[|queue|..] == more;
    assert more == Pushed(keys, queue[i]);
  }

  method NextGroup(keys: seq<string>, frm: nat, e: nat, col: nat) returns (j: nat)
    requires frm < e <= |keys|
    ensures frm < j == GroupEnd(keys, frm, frm + 1, e, col)
    ensures forall i :: frm <= i < j ==> Nth(keys[i], col) == Nth(keys[frm], col)
  {
    j := frm;
    while j < e && Nth(keys[j], col) == Nth(keys[frm], col)
      invariant frm <= j <= e && GroupEnd(keys, frm, j, e, col) == GroupEnd(keys, frm, frm, e, col)
      invariant forall i :: frm <= i < j ==> Nth(keys[i], col) == Nth(keys[frm], col)
    {
      j := j + 1;
    }
  }

  // The queue holds the interval and depth of every node that is still to be expanded.
  ghost predicate QueueOk(queue: seq<QElt>, nodes: seq<Node>, i: nat) {
    && |queue| == |nodes|
    && forall k {:trigger queue[k]} :: i <= k < |nodes| ==> queue[k] == QElt(nodes[k].s, nodes[k].e, |nodes[k].prefix|)
  }

  // The bitmap up to the block that is being written, and that block's clear bits.
  ghost predicate OpenBlock(bits: seq<bool>, cum: seq<nat>, n: nat) {
    && Blocks(bits, cum)
    && |bits| == |cum| + n - 1
    && First(cum, |cum|) <= n
    && forall p :: Start(cum, |cum|) <= p < |bits| ==> !bits[p]
  }

  // No node of the column before key j starts in the middle of a group.
  ghost predicate AtBoundary(keys: seq<string>, v: Node, j: nat)
    requires v.s < v.e <= |keys|
  {
    Inner(keys, v) < j < v.e ==>
      var col := |v.prefix|;
      col < |keys[j]| && col < |keys[j - 1]| && keys[j - 1][col] != keys[j][col]
  }

  // One group becomes one child of the node being expanded.
  lemma NewChild(keys: seq<string>, nodes: seq<Node>, cum: seq<nat>, frm: nat, j: nat) returns (v: Node)
    requires StrictlySorted(keys) && Expanding(keys, nodes, cum, frm)
    requires frm < j <= nodes[|cum|].e <= |keys| && AtBoundary(keys, nodes[|cum|], frm)
    requires forall i :: frm <= i < j ==> Nth(keys[i], |nodes[|cum|].prefix|) == Nth(keys[frm], |nodes[|cum|].prefix|)
    requires j < nodes[|cum|].e ==> Nth(keys[j], |nodes[|cum|].prefix|) != Nth(keys[frm], |nodes[|cum|].prefix|)
    ensures |nodes[|cum|].prefix| < |keys[frm]|
    ensures v == Node(nodes[|cum|].prefix + [keys[frm][|nodes[|cum|].prefix|]], frm, j, |cum|)
    ensures Expanding(keys, nodes + [v], cum, j) && AtBoundary(keys, nodes[|cum|], j)
  {
    var parent := nodes[|cum|];
    assert NodeOk(keys, parent);
    forall i | frm <= i < parent.e ensures |parent.prefix| < |keys[i]| {
      InnerKeysLonger(keys, parent, i);
    }
    GroupIsNode(keys, parent, frm, j, |cum|);
    v := Node(parent.prefix + [keys[frm][|parent.prefix|]], frm, j, |cum|);
    AddChild(keys, nodes, cum, v);
  }

  /** The inner loop of the construction: one queue entry, one label and one clear bit
      for each distinct next character. */
  method ExpandNode(keys: seq<string>, queue: seq<QElt>, labels: seq<char>, bm: seq<Word>, lIdx: nat, i: nat,
                    ghost nodes: seq<Node>, ghost cum: seq<nat>, ghost bits: seq<bool>)
    returns (queue': seq<QElt>, labels': seq<char>, bm': seq<Word>, lIdx': nat, ghost nodes': seq<Node>,
             ghost bits': seq<bool>)
    requires StrictlySorted(keys) && AsciiKeys(keys)
    requires i == |cum| < |nodes| && NodesOk(keys, nodes) && nodes[i].s < nodes[i].e <= |keys|
    requires Expanding(keys, nodes, cum, Inner(keys, nodes[i]))
    requires |queue| == |nodes| && queue[i] == QElt(Inner(keys, nodes[i]), nodes[i].e, |nodes[i].prefix|)
    requires QueueOk(queue, nodes, i + 1) && LabelsOk(labels, nodes)
    requires Packs(bm, bits) && OpenBlock(bits, cum, |nodes|) && lIdx == |bits|
    ensures nodes <= nodes' && Expanding(keys, nodes', cum, nodes[i].e)
    ensures QueueOk(queue', nodes', i + 1) && LabelsOk(labels', nodes')
    ensures Packs(bm', bits') && OpenBlock(bits', cum, |nodes'|) && lIdx' == |bits'|
    ensures queue' == queue + Groups(keys, queue[i].s, queue[i].e, queue[i].col)
  {
    queue', labels', bm', lIdx', nodes', bits' := queue, labels, bm, lIdx, nodes, bits;
    var j, e, col := queue[i].s, queue[i].e, queue[i].col;
    ghost var whole := queue + Groups(keys, j, e, col);
    while j < e
      invariant Inner(keys, nodes[i]) <= j <= e
      invariant nodes <= nodes' && Expanding(keys, nodes', cum, j) && AtBoundary(keys, nodes[i], j)
      invariant QueueOk(queue', nodes', i + 1) && LabelsOk(labels', nodes')
      invariant Packs(bm', bits') && OpenBlock(bits', cum, |nodes'|) && lIdx' == |bits'|
      invariant StillToPush(keys, queue', j, e, col, whole)
    {
      var frm := j;
      j := NextGroup(keys, frm, e, col);
      ghost var v := NewChild(keys, nodes', cum, frm, j);
      PushedOne(keys, queue', frm, j, e, col, whole);
      queue' := queue' + [QElt(frm, j, col + 1)];
      labels', bm', lIdx' := EmitLabel(keys[frm], col, labels', bm', lIdx', nodes', v, cum, bits');
      nodes', bits' := nodes' + [v], bits' + [false];
    }
  }

  // The label and the clear bit of one child.
  method EmitLabel(key: string, col: nat, labels: seq<char>, bm: seq<Word>, lIdx: nat,
                   ghost nodes: seq<Node>, ghost v: Node, ghost cum: seq<nat>, ghost bits: seq<bool>)
    returns (labels': seq<char>, bm': seq<Word>, lIdx': nat)
    requires Ascii(key) && col < |key| && |v.prefix| == col + 1 && v.prefix[col] == key[col]
    requires LabelsOk(labels, nodes) && Packs(bm, bits) && OpenBlock(bits, cum, |nodes|) && lIdx == |bits|
    ensures LabelsOk(labels', nodes + [v])
    ensures Packs(bm', bits + [false]) && OpenBlock(bits + [false], cum, |nodes| + 1) && lIdx' == |bits| + 1
  {
    labels', bm', lIdx' := labels, bm, lIdx;
    match Nth(key, col) {
      case Some(c) =>
        labels' := labels' + [AsByte(c)];
        bm' := AppendBit(bm', lIdx', false, bits);
        lIdx' := lIdx' + 1;
      case None =>
    }
    BlocksExtend(bits, bits + [false], cum);
  }

  lemma RootOk(keys: seq<string>)
    requires keys != []
    ensures NodesOk(keys, [Node("", 0, |keys|, 0)]) && Expanded(keys, [Node("", 0, |keys|, 0)], [])
  {
    assert NodeOk(keys, Node("", 0, |keys|, 0));
  }

  lemma StartExpanding(keys: seq<string>, nodes: seq<Node>, cum: seq<nat>)
    requires NodesOk(keys, nodes) && Expanded(keys, nodes, cum) && |cum| < |nodes| == First(cum, |cum|)
    ensures nodes[|cum|].s < nodes[|cum|].e <= |keys| && Expanding(keys, nodes, cum, Inner(keys, nodes[|cum|]))
  {
    assert NodeOk(keys, nodes[|cum|]);
  }

  // What holds before node i is expanded.
  ghost predicate Building(keys: seq<string>, queue: seq<QElt>, labels: seq<char>, bm: seq<Word>, leaves: seq<Word>,
                           lIdx: nat, i: nat, nodes: seq<Node>, cum: seq<nat>, bits: seq<bool>) {
    && i == |cum| <= |nodes| == First(cum, |cum|)
    && NodesOk(keys, nodes) && Expanded(keys, nodes, cum)
    && QueueOk(queue, nodes, i) && LabelsOk(labels, nodes)
    && Packs(bm, bits) && OpenBlock(bits, cum, |nodes|) && lIdx == |bits|
    && LeavesOk(leaves, keys, nodes, i)
  }

  // The part of the loop body that marks a leaf: a key that ends here leaves the interval.
  method MarkLeaf(keys: seq<string>, queue: seq<QElt>, leaves: seq<Word>, i: nat, ghost nodes: seq<Node>)
    returns (queue': seq<QElt>, leaves': seq<Word>)
    requires NodesOk(keys, nodes) && i < |nodes| && nodes[i].s < |keys|
    requires QueueOk(queue, nodes, i) && LeavesOk(leaves, keys, nodes, i)
    ensures QueueOk(queue', nodes, i + 1)
    ensures queue'[i] == QElt(Inner(keys, nodes[i]), nodes[i].e, |nodes[i].prefix|)
    ensures LeavesOk(leaves', keys, nodes, i + 1)
  {
    queue', leaves' := queue, leaves;
    var elt := queue[i];
    if elt.col == |keys[elt.s]| {
      queue' := queue[i := elt.(s := elt.s + 1)];
      leaves' := SetBit(leaves, i, true);
    }
    LeavesStep(keys, nodes, i, leaves, leaves');
  }

  method MarkAndExpand(keys: seq<string>, queue: seq<QElt>, labels: seq<char>, bm: seq<Word>, leaves: seq<Word>,
                       lIdx: nat, i: nat, ghost nodes: seq<Node>, ghost cum: seq<nat>, ghost bits: seq<bool>)
    returns (queue': seq<QElt>, labels': seq<char>, bm': seq<Word>, leaves': seq<Word>, lIdx': nat,
             ghost nodes': seq<Node>, ghost bits': seq<bool>)
    requires StrictlySorted(keys) && AsciiKeys(keys)
    requires Building(keys, queue, labels, bm, leaves, lIdx, i, nodes, cum, bits) && i < |queue|
    ensures i < |nodes| && nodes <= nodes' && Expanding(keys, nodes', cum, nodes[i].e)
    ensures QueueOk(queue', nodes', i + 1) && LabelsOk(labels', nodes')
    ensures Packs(bm', bits') && OpenBlock(bits', cum, |nodes'|) && lIdx' == |bits'|
    ensures LeavesOk(leaves', keys, nodes, i + 1) && Grows(keys, queue, i, queue')
  {
    StartExpanding(keys, nodes, cum);
    var marked;
    marked, leaves' := MarkLeaf(keys, queue, leaves, i, nodes);
    GrowsBy(keys, queue, marked, i, nodes[i]);
    queue', labels', bm', lIdx', nodes', bits' := ExpandNode(keys, marked, labels, bm, lIdx, i, nodes, cum, bits);
  }

  method VisitNode(keys: seq<string>, queue: seq<QElt>, labels: seq<char>, bm: seq<Word>, leaves: seq<Word>, lIdx: nat,
                   i: nat, ghost nodes: seq<Node>, ghost cum: seq<nat>, ghost bits: seq<bool>)
    returns (queue': seq<QElt>, labels': seq<char>, bm': seq<Word>, leaves': seq<Word>, lIdx': nat,
             ghost nodes': seq<Node>, ghost cum': seq<nat>, ghost bits': seq<bool>)
    requires StrictlySorted(keys) && AsciiKeys(keys)
    requires Building(keys, queue, labels, bm, leaves, lIdx, i, nodes, cum, bits) && i < |queue|
    ensures Building(keys, queue', labels', bm', leaves', lIdx', i + 1, nodes', cum', bits')
    ensures Grows(keys, queue, i, queue')
  {
    queue', labels', bm', leaves', lIdx', nodes', bits' :=
      MarkAndExpand(keys, queue, labels, bm, leaves, lIdx, i, nodes, cum, bits);
    bm' := AppendBit(bm', lIdx', true, bits');
    lIdx' := lIdx' + 1;
    CloseBlock(bits', cum, |nodes'| - First(cum, |cum|));
    FinishNode(keys, nodes', cum);
    bits', cum' := bits' + [true], cum + [|nodes'| - 1];
    LeavesStay(keys, nodes, nodes', i + 1, leaves');
  }

  lemma LeavesStay(keys: seq<string>, nodes: seq<Node>, more: seq<Node>, n: nat, leaves: seq<Word>)
    requires NodesOk(keys, nodes) && NodesOk(keys, more) && nodes <= more && n <= |nodes|
    requires LeavesOk(leaves, keys, nodes, n)
    ensures LeavesOk(leaves, keys, more, n)
  {
    forall k | 0 <= k < n
      ensures LeafOk(leaves, keys, more[k], k)
    {
      assert LeafOk(leaves, keys, nodes[k], k);
    }
  }

  /** `From<StringTrie>`, after the keys have been sorted: the breadth-first construction.
      It ends with one node for each distinct beginning of a key. */
  method FromSorted(keys: seq<string>) returns (ds: DomainSet)
    requires keys != [] && StrictlySorted(keys) && AsciiKeys(keys) && Fits(keys)
    ensures Represents(ds, keys)
    ensures |ds.labels| == |Prefixes(keys)| - 1
    ensures Rank(Flat(ds.labelBitMap), 64 * |ds.labelBitMap|) == |Prefixes(keys)|
  {
    var leaves: seq<Word>, bm: seq<Word>, labels: seq<char> := [], [], [];
    var lIdx := 0;
    var queue := [QElt(0, |keys|, 0)];
    var i := 0;
    ghost var nodes: seq<Node>, cum: seq<nat>, bits: seq<bool> := [Node("", 0, |keys|, 0)], [], [];
    RootOk(keys);
    PrefixesWithin(keys, nodes);
    while i < |queue|
      invariant Building(keys, queue, labels, bm, leaves, lIdx, i, nodes, cum, bits)
      invariant |nodes| <= |Prefixes(keys)|
      decreases |Prefixes(keys)| - i
    {
      queue, labels, bm, leaves, lIdx, nodes, cum, bits :=
        VisitNode(keys, queue, labels, bm, leaves, lIdx, i, nodes, cum, bits);
      PrefixesWithin(keys, nodes);
      i := i + 1;
    }
    assert Finished(keys, nodes, cum);
    LastIsLeaf(keys, nodes, cum);
    assert LeafOk(leaves, keys, nodes[|nodes| - 1], |nodes| - 1);
    NodeCount(keys, nodes, cum);
    var ranks := RankTable(bm);
    var selects := SelectTable(bm);
    ds := DomainSet(leaves, bm, labels, ranks, selects);
    BlocksExtend(bits, Flat(bm), cum);
    ExactlyOnes(Flat(bm), |bits|, cum);
    assert Encodes(ds, keys, nodes, cum);
  }

  // A finished bitmap has one set bit for each node.
  lemma ExactlyOnes(s: seq<bool>, n: nat, cum: seq<nat>)
    requires cum != [] && Blocks(s, cum) && n == |cum| + cum[|cum| - 1] <= |s|
    requires forall p :: n <= p < |s| ==> !s[p]
    ensures Rank(s, |s|) == |cum|
  {
    BlockCloses(s, cum, |cum| - 1);
    RankOfZeros(s, n, |s|);
  }

  lemma LeavesStep(keys: seq<string>, nodes: seq<Node>, i: nat, was: seq<Word>, leaves: seq<Word>)
    requires i < |nodes| && NodesOk(keys, nodes) && LeavesOk(was, keys, nodes, i)
    requires nodes[i].s < |keys|
    requires !IsLeaf(keys, nodes[i]) ==> leaves == was
    requires IsLeaf(keys, nodes[i]) ==>
      && |was| <= |leaves| && i < 64 * |leaves|
      && (forall p :: 0 <= p < 64 * |leaves| ==> Flat(leaves)[p] == ((p < 64 * |was| && Flat(was)[p]) || p == i))
    ensures LeavesOk(leaves, keys, nodes, i + 1)
  {
    forall k | 0 <= k < i + 1
      ensures LeafOk(leaves, keys, nodes[k], k)
    {
      if k < i { assert LeafOk(was, keys, nodes[k], k); }
    }
  }

  // ---------------------------------------------------------------- navigation

  ghost predicate InBlock(cum: seq<nat>, k: nat, p: nat) {
    k < |cum| && Start(cum, k) <= p <= k + cum[k]
  }

  // The last position of the bitmap that is in use.
  ghost function LastBit(cum: seq<nat>): nat
    requires cum != []
  {
    |cum| - 1 + cum[|cum| - 1]
  }

  lemma {:induction false} BlockOf(cum: seq<nat>, n: nat, p: nat) returns (k: nat)
    requires n < |cum| && p <= n + cum[n]
    ensures InBlock(cum, k, p)
  {
    k := n;
    if p < Start(cum, n) {
      k := BlockOf(cum, n - 1, p);
    }
  }

  // What the bit at a position of block k says: a label below the end of the block.
  lemma BlockBits(ds: DomainSet, keys: seq<string>, nodes: seq<Node>, cum: seq<nat>, k: nat, p: nat)
    requires Encodes(ds, keys, nodes, cum) && InBlock(cum, k, p)
    ensures p < 64 * |ds.labelBitMap|
    ensures Flat(ds.labelBitMap)[p] <==> p == k + cum[k]
    ensures p <= LastBit(cum)
    ensures p < k + cum[k] ==> k <= p && First(cum, k) <= p - k + 1 <= cum[k] < |nodes| && p - k < |ds.labels|
  {
    assert Block(Flat(ds.labelBitMap), cum, k);
    assert Family(keys, nodes, cum, k);
    CumMonotone(keys, nodes, cum, k, |cum| - 1);
    LastIsLeaf(keys, nodes, cum);
  }

  /** From a clear bit to the child it stands for: `count_zeros` numbers the child, and
      `select_ith_one` of the number before finds where the child's block starts. */
  method GoDown(ds: DomainSet, p: nat, ghost keys: seq<string>, ghost nodes: seq<Node>, ghost cum: seq<nat>)
    returns (nodeId: nat, bmIdx: nat, ghost k: nat)
    requires Encodes(ds, keys, nodes, cum)
    requires p <= LastBit(cum) && p < 64 * |ds.labelBitMap| && !Flat(ds.labelBitMap)[p]
    ensures InBlock(cum, k, p) && p < k + cum[k]
    ensures First(cum, k) <= nodeId <= cum[k] && nodeId == p - k + 1 < |nodes|
    ensures bmIdx == Start(cum, nodeId) > p
  {
    k := BlockOf(cum, |cum| - 1, p);
    ChildNumber(ds, keys, nodes, cum, k, p);
    nodeId := CountZeros(ds.labelBitMap, ds.ranks, p + 1);
    bmIdx := BlockStart(ds, nodeId, cum);
    ChildIsLater(keys, nodes, cum, k, nodeId);
  }

  // A block starts after the set bit that closes the block before.
  method BlockStart(ds: DomainSet, nodeId: nat, ghost cum: seq<nat>) returns (bmIdx: nat)
    requires 64 * |ds.labelBitMap| < MaxBits && Blocks(Flat(ds.labelBitMap), cum)
    requires RanksOk(ds.labelBitMap, ds.ranks) && SelectsOk(ds.labelBitMap, ds.selects)
    requires 0 < nodeId <= |cum|
    ensures bmIdx == Start(cum, nodeId)
  {
    BlockCloses(Flat(ds.labelBitMap), cum, nodeId - 1);
    var one := SelectIthOne(ds.labelBitMap, ds.ranks, ds.selects, nodeId - 1);
    SelectedStart(Flat(ds.labelBitMap), cum, nodeId - 1, one);
    bmIdx := one + 1;
  }

  lemma SelectedStart(s: seq<bool>, cum: seq<nat>, k: nat, one: nat)
    requires Blocks(s, cum) && k < |cum| && one < |s| && s[one] && Rank(s, one) == k
    ensures one == k + cum[k]
  {
    BlockCloses(s, cum, k);
    SelectUnique(s, one, k + cum[k], k);
  }

  lemma ChildNumber(ds: DomainSet, keys: seq<string>, nodes: seq<Node>, cum: seq<nat>, k: nat, p: nat)
    requires Encodes(ds, keys, nodes, cum) && InBlock(cum, k, p)
    requires p < 64 * |ds.labelBitMap| && !Flat(ds.labelBitMap)[p]
    ensures p < k + cum[k] && p + 1 < 64 * |ds.labelBitMap|
    ensures Rank(Flat(ds.labelBitMap), p + 1) == k
    ensures First(cum, k) <= p - k + 1 <= cum[k] < |nodes|
  {
    BlockBits(ds, keys, nodes, cum, k, p);
    assert Block(Flat(ds.labelBitMap), cum, k);
    BlockRank(Flat(ds.labelBitMap), cum, k, p + 1);
  }

  // The bit that closes block k is set bit number k.
  lemma BlockCloses(s: seq<bool>, cum: seq<nat>, k: nat)
    requires Blocks(s, cum) && k < |cum|
    ensures k + cum[k] < |s| && s[k + cum[k]] && Rank(s, k + cum[k]) == k < Rank(s, |s|)
  {
    assert Block(s, cum, k);
    BlockRank(s, cum, k, k + cum[k]);
    BlocksOnes(s, cum);
  }

  lemma ChildIsLater(keys: seq<string>, nodes: seq<Node>, cum: seq<nat>, k: nat, j: nat)
    requires Finished(keys, nodes, cum) && k < |nodes| && First(cum, k) <= j <= cum[k] < |nodes|
    ensures k < j && k + j - 1 < Start(cum, j)
  {
    assert Family(keys, nodes, cum, k);
    CumMonotone(keys, nodes, cum, k, j - 1);
  }

  lemma {:induction false} CumMonotone(keys: seq<string>, nodes: seq<Node>, cum: seq<nat>, i: nat, j: nat)
    requires Finished(keys, nodes, cum) && i <= j < |cum|
    ensures cum[i] <= cum[j]
  {
    assert Family(keys, nodes, cum, j);
    if i < j { CumMonotone(keys, nodes, cum, i, j - 1); }
  }

  // `get_bit(&self.leaves, node_id)` is in range for every node.
  method AtLeaf(ds: DomainSet, nodeId: nat, ghost keys: seq<string>, ghost nodes: seq<Node>, ghost cum: seq<nat>)
    returns (r: bool)
    requires Encodes(ds, keys, nodes, cum) && nodeId < |nodes|
    ensures nodes[nodeId].s < |keys| && (r <==> IsLeaf(keys, nodes[nodeId]))
  {
    GetBitFlat(ds.leaves, nodeId);
    r := GetBit(ds.leaves, nodeId);
    assert LeafOk(ds.leaves, keys, nodes[nodeId], nodeId);
  }

  lemma MenuContinues(ds: DomainSet, keys: seq<string>, nodes: seq<Node>, cum: seq<nat>, k: nat, j: nat)
    requires Encodes(ds, keys, nodes, cum) && k < |nodes| && First(cum, k) <= j <= cum[k] < |nodes|
    ensures nodes[j].prefix == nodes[k].prefix + [ds.labels[j - 1]]
    ensures BeginsKey(keys, nodes[k].prefix + [ds.labels[j - 1]])
  {
    var v := nodes[j];
    assert Family(keys, nodes, cum, k) && NodeOk(keys, v);
    assert v.prefix == nodes[k].prefix + [Label(v)];
    assert v.prefix <= keys[v.s];
  }

  lemma SameBlock(ds: DomainSet, keys: seq<string>, nodes: seq<Node>, cum: seq<nat>, k: nat, j: nat, p: nat)
    requires Encodes(ds, keys, nodes, cum) && InBlock(cum, k, p) && InBlock(cum, j, p)
    ensures k == j
  {
    assert Block(Flat(ds.labelBitMap), cum, k) && Block(Flat(ds.labelBitMap), cum, j);
    BlockRank(Flat(ds.labelBitMap), cum, k, p);
    BlockRank(Flat(ds.labelBitMap), cum, j, p);
  }

  // ---------------------------------------------------------------- enumeration

  // The callback, a function of all it has been given, asked for more at each of these.
  ghost predicate WantsMore(keys: seq<string>, f: seq<string> -> bool, a: nat, b: nat) {
    forall m :: a < m <= b <= |keys| ==> f(keys[..m])
  }

  // The callback declined after key number m, and not before.
  ghost predicate StoppedAt(keys: seq<string>, f: seq<string> -> bool, a: nat, m: nat) {
    a < m <= |keys| && !f(keys[..m]) && WantsMore(keys, f, a, m - 1)
  }

  /** The inner function of `keys`: depth first from one node.  It emits the keys of the
      node's interval, in order, until the callback declines. */
  method Traverse(ds: DomainSet, key: string, nodeId: nat, start: nat, f: seq<string> -> bool, given: seq<string>,
                  ghost keys: seq<string>, ghost nodes: seq<Node>, ghost cum: seq<nat>)
    returns (go: bool, key': string, emitted: seq<string>)
    requires Encodes(ds, keys, nodes, cum) && nodeId < |nodes| && start == Start(cum, nodeId)
    requires nodes[nodeId].s < nodes[nodeId].e <= |keys|
    requires key == nodes[nodeId].prefix && given == keys[..nodes[nodeId].s]
    ensures go ==>
      key' == key && emitted == keys[..nodes[nodeId].e] && WantsMore(keys, f, nodes[nodeId].s, nodes[nodeId].e)
    ensures !go ==>
      |emitted| <= nodes[nodeId].e && emitted == keys[..|emitted|] && StoppedAt(keys, f, nodes[nodeId].s, |emitted|)
    decreases |nodes| - nodeId
  {
    key' := key;
    ghost var v := nodes[nodeId];
    go, emitted := EmitIfLeaf(ds, key, nodeId, f, given, keys, nodes, cum);
    if !go { return; }
    var bmIdx := start;
    while true
      invariant InBlock(cum, nodeId, bmIdx) && key' == key
      invariant |emitted| == Covered(keys, nodes, cum, nodeId, bmIdx) <= v.e && emitted == keys[..|emitted|]
      invariant WantsMore(keys, f, v.s, |emitted|)
      decreases 64 * |ds.labelBitMap| - bmIdx
    {
      var end := AtBlockEnd(ds, nodeId, bmIdx, keys, nodes, cum);
      if end { return true, key', emitted; }
      key' := key' + [ds.labels[bmIdx - nodeId]];
      var child, childBm := NextChild(ds, nodeId, bmIdx, keys, nodes, cum);
      go, key', emitted := Traverse(ds, key', child, childBm, f, emitted, keys, nodes, cum);
      if !go { return; }
      key' := key'[..|key'| - 1];
      bmIdx := bmIdx + 1;
    }
  }

  // How far the keys of node k are covered by the node itself and its children before
  // the one at this position.
  ghost function Covered(keys: seq<string>, nodes: seq<Node>, cum: seq<nat>, k: nat, p: nat): nat
    requires Finished(keys, nodes, cum) && InBlock(cum, k, p)
  {
    assert Family(keys, nodes, cum, k);
    EndBefore(keys, nodes, k, First(cum, k), p - k + 1)
  }

  method AtBlockEnd(ds: DomainSet, nodeId: nat, bmIdx: nat, ghost keys: seq<string>, ghost nodes: seq<Node>,
                    ghost cum: seq<nat>) returns (end: bool)
    requires Encodes(ds, keys, nodes, cum) && InBlock(cum, nodeId, bmIdx)
    ensures bmIdx < 64 * |ds.labelBitMap| && Flat(ds.labelBitMap)[bmIdx] == end
    ensures end <==> bmIdx == nodeId + cum[nodeId]
    ensures end ==> Covered(keys, nodes, cum, nodeId, bmIdx) == nodes[nodeId].e
    ensures !end ==> nodeId <= bmIdx && bmIdx - nodeId < |ds.labels|
  {
    BlockBits(ds, keys, nodes, cum, nodeId, bmIdx);
    GetBitFlat(ds.labelBitMap, bmIdx);
    assert Family(keys, nodes, cum, nodeId);
    end := GetBit(ds.labelBitMap, bmIdx);
  }

  method EmitIfLeaf(ds: DomainSet, key: string, nodeId: nat, f: seq<string> -> bool, given: seq<string>,
                    ghost keys: seq<string>, ghost nodes: seq<Node>, ghost cum: seq<nat>)
    returns (go: bool, emitted: seq<string>)
    requires Encodes(ds, keys, nodes, cum) && nodeId < |nodes|
    requires nodes[nodeId].s < nodes[nodeId].e <= |keys|
    requires key == nodes[nodeId].prefix && given == keys[..nodes[nodeId].s]
    ensures nodes[nodeId].s <= |emitted| <= nodes[nodeId].e && emitted == keys[..|emitted|]
    ensures InBlock(cum, nodeId, Start(cum, nodeId))
    ensures go ==>
      && |emitted| == Covered(keys, nodes, cum, nodeId, Start(cum, nodeId))
      && WantsMore(keys, f, nodes[nodeId].s, |emitted|)
    ensures !go ==> StoppedAt(keys, f, nodes[nodeId].s, |emitted|)
  {
    go, emitted := true, given;
    assert Family(keys, nodes, cum, nodeId);
    var leaf := AtLeaf(ds, nodeId, keys, nodes, cum);
    if leaf {
      LeafKey(keys, nodes, nodeId);
      emitted := emitted + [key];
      assert emitted == keys[..nodes[nodeId].s + 1];
      go := f(emitted);
    }
  }

  method NextChild(ds: DomainSet, nodeId: nat, bmIdx: nat, ghost keys: seq<string>, ghost nodes: seq<Node>,
                   ghost cum: seq<nat>)
    returns (child: nat, childBm: nat)
    requires Encodes(ds, keys, nodes, cum) && InBlock(cum, nodeId, bmIdx) && bmIdx < nodeId + cum[nodeId]
    requires bmIdx < 64 * |ds.labelBitMap| && !Flat(ds.labelBitMap)[bmIdx]
    ensures nodeId < child < |nodes| && childBm == Start(cum, child)
    ensures nodeId <= bmIdx && bmIdx - nodeId < |ds.labels| && InBlock(cum, nodeId, bmIdx + 1)
    ensures nodes[child].prefix == nodes[nodeId].prefix + [ds.labels[bmIdx - nodeId]]
    ensures nodes[nodeId].s <= nodes[child].s < nodes[child].e <= nodes[nodeId].e <= |keys|
    ensures nodes[child].s == Covered(keys, nodes, cum, nodeId, bmIdx)
    ensures nodes[child].e == Covered(keys, nodes, cum, nodeId, bmIdx + 1)
  {
    BlockBits(ds, keys, nodes, cum, nodeId, bmIdx);
    ghost var k;
    child, childBm, k := GoDown(ds, bmIdx, keys, nodes, cum);
    SameBlock(ds, keys, nodes, cum, k, nodeId, bmIdx);
    MenuContinues(ds, keys, nodes, cum, nodeId, child);
    ChildIsLater(keys, nodes, cum, nodeId, child);
    ChildCovers(keys, nodes, cum, nodeId, child);
  }

  lemma ChildCovers(keys: seq<string>, nodes: seq<Node>, cum: seq<nat>, k: nat, j: nat)
    requires Finished(keys, nodes, cum) && k < |nodes| && First(cum, k) <= j <= cum[k] < |nodes|
    ensures InBlock(cum, k, k + j - 1) && InBlock(cum, k, k + j)
    ensures nodes[k].s <= nodes[j].s < nodes[j].e <= nodes[k].e <= |keys|
    ensures nodes[j].s == Covered(keys, nodes, cum, k, k + j - 1)
    ensures nodes[j].e == Covered(keys, nodes, cum, k, k + j)
  {
    assert Family(keys, nodes, cum, k) && NodeOk(keys, nodes[k]);
    assert nodes[j].s == EndBefore(keys, nodes, k, First(cum, k), j);
  }

  lemma LeafKey(keys: seq<string>, nodes: seq<Node>, k: nat)
    requires NodesOk(keys, nodes) && k < |nodes| && nodes[k].s < |keys| && IsLeaf(keys, nodes[k])
    ensures keys[nodes[k].s] == nodes[k].prefix
  {
    assert NodeOk(keys, nodes[k]);
    assert nodes[k].prefix <= keys[nodes[k].s];
  }

  /** `keys`: the set gives back the key list it was built from, in order, up to the first
      key at which the callback declines. */
  method Keys(ds: DomainSet, f: seq<string> -> bool, ghost keys: seq<string>) returns (emitted: seq<string>)
    requires Represents(ds, keys)
    ensures |emitted| <= |keys| && emitted == keys[..|emitted|]
    ensures forall m :: 0 < m < |emitted| ==> f(keys[..m])
    ensures |emitted| < |keys| ==> emitted != [] && !f(emitted)
  {
    ghost var nodes, cum :| Encodes(ds, keys, nodes, cum);
    assert NodeOk(keys, nodes[0]);
    var go, key';
    go, key', emitted := Traverse(ds, "", 0, 0, f, [], keys, nodes, cum);
    if go {
      assert emitted == keys;
    }
  }

  /** Round trip: building a set and enumerating it returns the list. */
  method RoundTrip(keys: seq<string>) returns (emitted: seq<string>)
    requires keys != [] && StrictlySorted(keys) && AsciiKeys(keys) && Fits(keys)
    ensures emitted == keys
  {
    var ds := FromSorted(keys);
    emitted := Keys(ds, _ => true, keys);
  }
}
