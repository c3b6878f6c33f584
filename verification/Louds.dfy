/** The level-order encoding of the tree of key prefixes that the succinct set of
    clash-lib/src/common/succinct_set.rs stores.

    Node number k is a prefix of some key together with the interval of the sorted key
    list that it begins.  Nodes are numbered breadth first.  In the label bitmap node k
    owns one block: a clear bit for each child and then one set bit.  `cum[k]` is the
    number of clear bits in the blocks 0 to k, so block k occupies the positions from
    `Start(cum, k)` up to its set bit at `k + cum[k]`. */
module Louds {
  import opened Bitmap
  import opened SortedKeys

  datatype Node = Node(prefix: string, s: nat, e: nat, parent: nat)

  // ---------------------------------------------------------------- the tree

  // The interval holds exactly the keys that the prefix begins.
  ghost predicate NodeOk(keys: seq<string>, v: Node) {
    && v.s < v.e <= |keys|
    && forall k :: 0 <= k < |keys| ==> (v.s <= k < v.e <==> v.prefix <= keys[k])
  }

  predicate IsLeaf(keys: seq<string>, v: Node)
    requires v.s < |keys|
  {
    |keys[v.s]| == |v.prefix|
  }

  // The first key of the interval that goes on beyond the prefix.
  function Inner(keys: seq<string>, v: Node): nat
    requires v.s < |keys|
  {
    if IsLeaf(keys, v) then v.s + 1 else v.s
  }

  function Label(v: Node): char
    requires v.prefix != ""
  {
    v.prefix[|v.prefix| - 1]
  }

  ghost predicate ChildOf(v: Node, parent: Node, k: nat) {
    v.parent == k && |v.prefix| == |parent.prefix| + 1 && parent.prefix <= v.prefix
  }

  // Where the interval of child j of node k starts: after its elder sibling, if any.
  function EndBefore(keys: seq<string>, nodes: seq<Node>, k: nat, lo: nat, j: nat): nat
    requires k < |nodes| && nodes[k].s < |keys| && lo <= j <= |nodes| && 0 < j
  {
    if j == lo then Inner(keys, nodes[k]) else nodes[j - 1].e
  }

  // The nodes lo to hi - 1 are children of node k; their intervals follow one another
  // from the first inner key of k up to the key at `upTo`.
  ghost predicate Children(keys: seq<string>, nodes: seq<Node>, k: nat, lo: nat, hi: nat, upTo: nat)
    requires k < |nodes| && nodes[k].s < |keys|
  {
    && 0 < lo <= hi <= |nodes|
    && upTo == EndBefore(keys, nodes, k, lo, hi)
    && (forall j {:trigger nodes[j]} :: lo <= j < hi ==>
          ChildOf(nodes[j], nodes[k], k) && Inner(keys, nodes[k]) <= nodes[j].s < nodes[j].e <= upTo)
    && (forall j {:trigger EndBefore(keys, nodes, k, lo, j)} :: lo <= j < hi ==>
          nodes[j].s == EndBefore(keys, nodes, k, lo, j))
    && (forall i, j {:trigger nodes[i], nodes[j]} :: lo <= i < j < hi ==> nodes[i].e <= nodes[j].s)
  }

  function First(cum: seq<nat>, k: nat): nat
    requires k <= |cum|
  {
    if k == 0 then 1 else cum[k - 1] + 1
  }

  ghost predicate NodesOk(keys: seq<string>, nodes: seq<Node>) {
    && nodes != [] && nodes[0].prefix == "" && nodes[0].s == 0 && nodes[0].e == |keys|
    && (forall j {:trigger NodeOk(keys, nodes[j])} :: 0 <= j < |nodes| ==> NodeOk(keys, nodes[j]))
    && (forall i, j {:trigger nodes[i].prefix, nodes[j].prefix} :: 0 <= i < j < |nodes| ==>
          nodes[i].prefix != nodes[j].prefix)
  }

  // The children of node k are the nodes from First(cum, k) to cum[k].
  ghost predicate Family(keys: seq<string>, nodes: seq<Node>, cum: seq<nat>, k: nat) {
    && k < |cum| <= |nodes| && nodes[k].s < |keys|
    && k < First(cum, k) <= cum[k] + 1 <= |nodes|
    && Children(keys, nodes, k, First(cum, k), cum[k] + 1, nodes[k].e)
  }

  // Node j is a child of an expanded node, or of the one that is being expanded.
  ghost predicate HasParent(nodes: seq<Node>, cum: seq<nat>, j: nat) {
    && j < |nodes|
    && var k := nodes[j].parent;
    && k < |nodes| && k <= |cum| && ChildOf(nodes[j], nodes[k], k) && First(cum, k) <= j
  }

  // Nodes 0 to |cum| - 1 have been expanded.
  ghost predicate Expanded(keys: seq<string>, nodes: seq<Node>, cum: seq<nat>) {
    && |cum| <= |nodes|
    && (forall k {:trigger Family(keys, nodes, cum, k)} :: 0 <= k < |cum| ==> Family(keys, nodes, cum, k))
    && (forall j {:trigger HasParent(nodes, cum, j)} :: 0 < j < |nodes| ==> HasParent(nodes, cum, j))
  }

  // A node whose interval starts at an inner key of node k has a key longer than k's prefix.
  lemma InnerKeysLonger(keys: seq<string>, v: Node, i: nat)
    requires StrictlySorted(keys) && NodeOk(keys, v) && Inner(keys, v) <= i < v.e
    ensures v.prefix <= keys[i] && |keys[i]| > |v.prefix|
  {
    if i != v.s {
      LessAfterPrefix(keys[v.s], keys[i], |v.prefix|);
    }
  }

  lemma ColumnSorted(keys: seq<string>, v: Node, i: nat, j: nat)
    requires StrictlySorted(keys) && NodeOk(keys, v) && Inner(keys, v) <= i <= j < v.e
    ensures v.prefix <= keys[i] && v.prefix <= keys[j]
    ensures |v.prefix| < |keys[i]| && |v.prefix| < |keys[j]| && keys[i][|v.prefix|] <= keys[j][|v.prefix|]
  {
    InnerKeysLonger(keys, v, i);
    InnerKeysLonger(keys, v, j);
    if i < j { LessAfterPrefix(keys[i], keys[j], |v.prefix|); }
  }

  // The keys frm to j - 1 of node v share their next character and key j does not: they
  // are exactly the keys that the longer prefix begins.
  lemma GroupIsNode(keys: seq<string>, v: Node, frm: nat, j: nat, k: nat)
    requires StrictlySorted(keys) && NodeOk(keys, v) && Inner(keys, v) <= frm < j <= v.e
    requires |v.prefix| < |keys[frm]|
    requires frm > Inner(keys, v) ==> |v.prefix| < |keys[frm - 1]| && keys[frm - 1][|v.prefix|] != keys[frm][|v.prefix|]
    requires forall i :: frm <= i < j ==> |v.prefix| < |keys[i]| && keys[i][|v.prefix|] == keys[frm][|v.prefix|]
    requires j < v.e ==> |v.prefix| < |keys[j]| && keys[j][|v.prefix|] != keys[frm][|v.prefix|]
    ensures NodeOk(keys, Node(v.prefix + [keys[frm][|v.prefix|]], frm, j, k))
  {
    var col := |v.prefix|;
    var c := keys[frm][col];
    forall i | 0 <= i < |keys| ensures frm <= i < j <==> v.prefix + [c] <= keys[i] {
      LongerPrefix(v.prefix, c, keys[i]);
      if Inner(keys, v) <= i < frm {
        assert keys[i][col] < c by {
          ColumnSorted(keys, v, i, frm - 1);
          ColumnSorted(keys, v, frm - 1, frm);
        }
      } else if j <= i < v.e {
        assert keys[i][col] > c by {
          ColumnSorted(keys, v, frm, j);
          ColumnSorted(keys, v, j, i);
        }
      }
    }
  }

  lemma IntervalsDiffer(keys: seq<string>, u: Node, v: Node)
    requires NodeOk(keys, u) && NodeOk(keys, v) && u.e <= v.s
    ensures u.prefix != v.prefix
  {
    assert v.prefix <= keys[v.s];
  }

  lemma ParentsDiffer(u: Node, up: Node, v: Node, vp: Node)
    requires ChildOf(u, up, u.parent) && ChildOf(v, vp, v.parent) && up.prefix != vp.prefix
    ensures u.prefix != v.prefix
  {
    assert u.prefix[..|u.prefix| - 1] == up.prefix;
    assert v.prefix[..|v.prefix| - 1] == vp.prefix;
  }

  // The children of node |cum| found so far reach the key at `upTo`.
  ghost predicate Expanding(keys: seq<string>, nodes: seq<Node>, cum: seq<nat>, upTo: nat) {
    && NodesOk(keys, nodes) && Expanded(keys, nodes, cum) && |cum| < |nodes|
    && nodes[|cum|].s < |keys| && |cum| < First(cum, |cum|)
    && Children(keys, nodes, |cum|, First(cum, |cum|), |nodes|, upTo)
  }

  // A further child of node |cum| differs from every node found before.
  lemma ChildIsNew(keys: seq<string>, nodes: seq<Node>, cum: seq<nat>, v: Node, j: nat)
    requires Expanding(keys, nodes, cum, v.s) && j < |nodes|
    requires NodeOk(keys, v) && ChildOf(v, nodes[|cum|], |cum|)
    ensures nodes[j].prefix != v.prefix
  {
    if j > 0 {
      assert HasParent(nodes, cum, j);
      var k := nodes[j].parent;
      if k == |cum| {
        assert NodeOk(keys, nodes[j]);
        IntervalsDiffer(keys, nodes[j], v);
      } else {
        assert nodes[k].prefix != nodes[|cum|].prefix;
        ParentsDiffer(nodes[j], nodes[k], v, nodes[|cum|]);
      }
    }
  }

  lemma ChildrenStay(keys: seq<string>, nodes: seq<Node>, v: Node, k: nat, lo: nat, hi: nat, upTo: nat)
    requires k < |nodes| && nodes[k].s < |keys| && Children(keys, nodes, k, lo, hi, upTo)
    ensures Children(keys, nodes + [v], k, lo, hi, upTo)
  {
    var all := nodes + [v];
    forall j | lo <= j < hi ensures all[j].s == EndBefore(keys, all, k, lo, j) {
      assert nodes[j].s == EndBefore(keys, nodes, k, lo, j);
    }
  }

  lemma ChildrenGrow(keys: seq<string>, nodes: seq<Node>, v: Node, k: nat, lo: nat)
    requires k < |nodes| && nodes[k].s < |keys| && Children(keys, nodes, k, lo, |nodes|, v.s)
    requires v.s < v.e && ChildOf(v, nodes[k], k)
    ensures Children(keys, nodes + [v], k, lo, |nodes| + 1, v.e)
  {
    var all := nodes + [v];
    ChildrenStay(keys, nodes, v, k, lo, |nodes|, v.s);
    forall j | lo <= j < |all| ensures all[j].s == EndBefore(keys, all, k, lo, j) {
    }
  }

  lemma AddChild(keys: seq<string>, nodes: seq<Node>, cum: seq<nat>, v: Node)
    requires Expanding(keys, nodes, cum, v.s)
    requires NodeOk(keys, v) && ChildOf(v, nodes[|cum|], |cum|)
    ensures Expanding(keys, nodes + [v], cum, v.e)
  {
    var all := nodes + [v];
    assert NodesOk(keys, all) by {
      forall j | 0 <= j < |nodes| ensures nodes[j].prefix != v.prefix {
        ChildIsNew(keys, nodes, cum, v, j);
      }
      forall j | 0 <= j < |all| ensures NodeOk(keys, all[j]) {
        if j < |nodes| { assert NodeOk(keys, nodes[j]); }
      }
    }
    forall k | 0 <= k < |cum| ensures Family(keys, all, cum, k) {
      assert Family(keys, nodes, cum, k);
      ChildrenStay(keys, nodes, v, k, First(cum, k), cum[k] + 1, nodes[k].e);
    }
    forall j | 0 < j < |all| ensures HasParent(all, cum, j) {
      if j < |nodes| { assert HasParent(nodes, cum, j); }
    }
    ChildrenGrow(keys, nodes, v, |cum|, First(cum, |cum|));
  }

  lemma FinishNode(keys: seq<string>, nodes: seq<Node>, cum: seq<nat>)
    requires |cum| < |nodes|
    requires Expanding(keys, nodes, cum, nodes[|cum|].e)
    ensures Expanded(keys, nodes, cum + [|nodes| - 1])
  {
    var cum' := cum + [|nodes| - 1];
    forall k | 0 <= k < |cum'| ensures Family(keys, nodes, cum', k) {
      assert First(cum', k) == First(cum, k);
      if k < |cum| { assert Family(keys, nodes, cum, k); }
    }
    forall j | 0 < j < |nodes| ensures HasParent(nodes, cum', j) {
      assert HasParent(nodes, cum, j);
      assert First(cum', nodes[j].parent) == First(cum, nodes[j].parent);
    }
  }

  // ---------------------------------------------------------------- the finished tree

  ghost predicate Finished(keys: seq<string>, nodes: seq<Node>, cum: seq<nat>) {
    NodesOk(keys, nodes) && Expanded(keys, nodes, cum) && |cum| == |nodes|
  }

  lemma {:induction false} FindChild(keys: seq<string>, nodes: seq<Node>, k: nat, lo: nat, hi: nat, upTo: nat, x: nat)
    returns (j: nat)
    requires k < |nodes| && nodes[k].s < |keys| && Children(keys, nodes, k, lo, hi, upTo)
    requires Inner(keys, nodes[k]) <= x < upTo
    ensures lo <= j < hi && nodes[j].s <= x < nodes[j].e
    decreases hi
  {
    j := hi - 1;
    if x < nodes[j].s {
      assert nodes[j].s == EndBefore(keys, nodes, k, lo, j);
      j := FindChild(keys, nodes, k, lo, j, nodes[j].s, x);
    }
  }

  // A beginning of a key one longer than a node is one of that node's children.
  lemma ChildFor(keys: seq<string>, nodes: seq<Node>, cum: seq<nat>, k: nat, c: char) returns (j: nat)
    requires Finished(keys, nodes, cum) && k < |nodes|
    requires BeginsKey(keys, nodes[k].prefix + [c])
    ensures First(cum, k) <= j <= cum[k] < |nodes| && nodes[j].prefix == nodes[k].prefix + [c]
  {
    var v := nodes[k];
    var x :| 0 <= x < |keys| && v.prefix + [c] <= keys[x];
    assert NodeOk(keys, v) && Family(keys, nodes, cum, k);
    LongerPrefix(v.prefix, c, keys[x]);
    assert v.s <= x < v.e && Inner(keys, v) <= x;
    j := FindChild(keys, nodes, k, First(cum, k), cum[k] + 1, v.e, x);
    SameKeySameChild(keys, nodes[j], v, c, x);
  }

  lemma SameKeySameChild(keys: seq<string>, u: Node, v: Node, c: char, x: nat)
    requires x < |keys| && v.prefix + [c] <= keys[x]
    requires u.s <= x < u.e && NodeOk(keys, u) && ChildOf(u, v, u.parent)
    ensures u.prefix == v.prefix + [c]
  {
    assert u.prefix <= keys[x];
  }

  /** Every beginning of a key is a node. */
  lemma {:induction false} EveryPrefixIsNode(keys: seq<string>, nodes: seq<Node>, cum: seq<nat>, p: string)
    returns (j: nat)
    requires Finished(keys, nodes, cum) && BeginsKey(keys, p)
    ensures j < |nodes| && nodes[j].prefix == p
    decreases |p|
  {
    j := 0;
    if p != "" {
      var n := |p| - 1;
      BeginsShorter(keys, p, n);
      var k := EveryPrefixIsNode(keys, nodes, cum, p[..n]);
      assert p[..n] + [p[n]] == p;
      j := ChildFor(keys, nodes, cum, k, p[n]);
    }
  }

  ghost function NodePrefixes(nodes: seq<Node>): (xs: seq<string>)
    ensures |xs| == |nodes| && forall j :: 0 <= j < |nodes| ==> xs[j] == nodes[j].prefix
  {
    seq(|nodes|, j requires 0 <= j < |nodes| => nodes[j].prefix)
  }

  lemma PrefixesWithin(keys: seq<string>, nodes: seq<Node>)
    requires NodesOk(keys, nodes)
    ensures forall j :: 0 <= j < |nodes| ==> nodes[j].prefix in Prefixes(keys)
    ensures |nodes| <= |Prefixes(keys)|
  {
    forall j | 0 <= j < |nodes| ensures nodes[j].prefix in Prefixes(keys) {
      assert NodeOk(keys, nodes[j]);
      assert nodes[j].prefix <= keys[nodes[j].s];
      PrefixesAreBeginnings(keys, nodes[j].prefix);
    }
    DistinctFit(NodePrefixes(nodes), Prefixes(keys));
  }

  /** The nodes are the distinct beginnings of keys, each once. */
  lemma NodeCount(keys: seq<string>, nodes: seq<Node>, cum: seq<nat>)
    requires Finished(keys, nodes, cum)
    ensures |nodes| == |Prefixes(keys)|
  {
    var xs := NodePrefixes(nodes);
    PrefixesWithin(keys, nodes);
    forall x | x in Prefixes(keys) ensures x in xs {
      PrefixesAreBeginnings(keys, x);
      var j := EveryPrefixIsNode(keys, nodes, cum, x);
      assert xs[j] == x;
    }
    DistinctFit(xs, Prefixes(keys));
  }

  /** The last node in level order is a leaf, so the leaf bitmap reaches every node, and
      there is one label fewer than there are nodes. */
  lemma LastIsLeaf(keys: seq<string>, nodes: seq<Node>, cum: seq<nat>)
    requires Finished(keys, nodes, cum)
    ensures nodes[|nodes| - 1].s < |keys| && IsLeaf(keys, nodes[|nodes| - 1])
    ensures cum[|nodes| - 1] == |nodes| - 1
  {
    var k := |nodes| - 1;
    assert Family(keys, nodes, cum, k) && NodeOk(keys, nodes[k]);
  }

  lemma LeafIsKey(keys: seq<string>, v: Node)
    requires StrictlySorted(keys) && NodeOk(keys, v)
    ensures IsLeaf(keys, v) <==> v.prefix in keys
  {
    assert v.prefix <= keys[v.s];
    if IsLeaf(keys, v) {
      assert keys[v.s] == v.prefix;
    } else {
      forall i | 0 <= i < |keys| ensures keys[i] != v.prefix {
        if v.s <= i < v.e { InnerKeysLonger(keys, v, i); }
      }
    }
  }

  // Labels increase along a block.
  lemma LabelsIncrease(keys: seq<string>, nodes: seq<Node>, cum: seq<nat>, k: nat, i: nat, j: nat)
    requires StrictlySorted(keys) && Finished(keys, nodes, cum) && k < |nodes|
    requires First(cum, k) <= i < j <= cum[k] < |nodes|
    ensures nodes[i].prefix != "" && nodes[j].prefix != "" && Label(nodes[i]) < Label(nodes[j])
  {
    var u, v := nodes[i], nodes[j];
    assert Family(keys, nodes, cum, k);
    assert NodeOk(keys, nodes[k]) && NodeOk(keys, u) && NodeOk(keys, v);
    ChildKey(keys, u, nodes[k]);
    ChildKey(keys, v, nodes[k]);
    ColumnSorted(keys, nodes[k], u.s, v.s);
    assert u.prefix != v.prefix;
  }

  lemma ChildKey(keys: seq<string>, u: Node, v: Node)
    requires NodeOk(keys, u) && ChildOf(u, v, u.parent)
    ensures |v.prefix| < |keys[u.s]| && keys[u.s][|v.prefix|] == Label(u) && u.prefix == v.prefix + [Label(u)]
  {
    assert u.prefix <= keys[u.s];
  }

  // ---------------------------------------------------------------- the bitmap

  function Start(cum: seq<nat>, k: nat): nat
    requires k <= |cum|
  {
    k + First(cum, k) - 1
  }

  ghost predicate Block(bits: seq<bool>, cum: seq<nat>, k: nat)
    requires k < |cum|
  {
    && Start(cum, k) <= k + cum[k] < |bits|
    && bits[k + cum[k]]
    && (forall p :: Start(cum, k) <= p < k + cum[k] ==> !bits[p])
    && Rank(bits, Start(cum, k)) == k
  }

  ghost predicate Blocks(bits: seq<bool>, cum: seq<nat>) {
    forall k :: 0 <= k < |cum| ==> Block(bits, cum, k)
  }

  lemma BlockRank(bits: seq<bool>, cum: seq<nat>, k: nat, p: nat)
    requires k < |cum| && Block(bits, cum, k) && Start(cum, k) <= p <= k + cum[k]
    ensures Rank(bits, p) == k
  {
    RankOfZeros(bits, Start(cum, k), p);
  }

  lemma BlocksExtend(bits: seq<bool>, more: seq<bool>, cum: seq<nat>)
    requires Blocks(bits, cum) && bits <= more
    ensures Blocks(more, cum)
  {
    forall k | 0 <= k < |cum| ensures Block(more, cum, k) {
      assert Block(bits, cum, k);
      RankPrefix(bits, more, Start(cum, k));
    }
  }

  // The set bit that closes the block of node |cum|.
  lemma CloseBlock(bits: seq<bool>, cum: seq<nat>, zeros: nat)
    requires Blocks(bits, cum)
    requires |bits| == Start(cum, |cum|) + zeros
    requires forall p :: Start(cum, |cum|) <= p < |bits| ==> !bits[p]
    ensures Blocks(bits + [true], cum + [First(cum, |cum|) - 1 + zeros])
  {
    var n := |cum|;
    var cum' := cum + [First(cum, n) - 1 + zeros];
    var more := bits + [true];
    BlocksExtend(bits, more, cum);
    forall k | 0 <= k < |cum'| ensures Block(more, cum', k) {
      if k < n {
        assert Block(more, cum, k);
        assert cum'[k] == cum[k] && Start(cum', k) == Start(cum, k);
      } else {
        assert Start(cum', n) == Start(cum, n);
        if n > 0 {
          assert Block(more, cum, n - 1);
          BlockRank(more, cum, n - 1, n - 1 + cum[n - 1]);
        }
      }
    }
  }

  // The number of set bits is at least the number of blocks.
  lemma BlocksOnes(bits: seq<bool>, cum: seq<nat>)
    requires Blocks(bits, cum)
    ensures |cum| <= Rank(bits, |bits|)
  {
    if cum != [] {
      var k := |cum| - 1;
      assert Block(bits, cum, k);
      BlockRank(bits, cum, k, k + cum[k]);
      RankMonotone(bits, k + cum[k] + 1, |bits|);
    }
  }
}
