/** When the queue of `From<StringTrie>` in clash-lib/src/common/succinct_set.rs runs out: for
    a sorted list, exactly if no two keys are equal. */
module EqualKeys {
  import opened Basics
  import opened DomainNames
  import opened SortedKeys
  import opened SuccinctSet
  import opened DomainTrie
  import opened DomainTraversal
  import opened DomainIndex

  ghost predicate Entries(keys: seq<string>, queue: seq<QElt>) {
    forall k :: 0 <= k < |queue| ==> queue[k].s < queue[k].e <= |keys|
  }

  // The queue after n turns from entry i on, which is there.
  ghost predicate After(keys: seq<string>, queue: seq<QElt>, i: nat, n: nat, later: seq<QElt>)
    decreases n
  {
    if n == 0 then later == queue
    else i < |queue| && Entries(keys, queue) && After(keys, queue + Pushed(keys, queue[i]), i + 1, n - 1, later)
  }

  // The loop visits every entry of the queue and stops.
  ghost predicate Ends(keys: seq<string>) {
    exists n: nat, later :: After(keys, [QElt(0, |keys|, 0)], 0, n, later) && |later| == n
  }

  lemma {:induction false} AfterUnique(keys: seq<string>, queue: seq<QElt>, i: nat, n: nat, a: seq<QElt>, b: seq<QElt>)
    requires After(keys, queue, i, n, a) && After(keys, queue, i, n, b)
    ensures a == b
    decreases n
  {
    if n > 0 { AfterUnique(keys, queue + Pushed(keys, queue[i]), i + 1, n - 1, a, b); }
  }

  // ---------------------------------------------------------------- equal keys

  // The group of a key.
  lemma {:induction false} GroupOf(keys: seq<string>, frm: nat, e: nat, col: nat, t: nat) returns (m: nat)
    requires frm <= t < e <= |keys|
    ensures m < |Groups(keys, frm, e, col)|
    ensures var g := Groups(keys, frm, e, col)[m];
      && g.s <= t < g.e <= e && g.col == col + 1 && Nth(keys[g.s], col) == Nth(keys[t], col)
      && (t + 1 < e && Nth(keys[t + 1], col) == Nth(keys[t], col) ==> t + 1 < g.e)
    decreases e - frm
  {
    var j := GroupEnd(keys, frm, frm + 1, e, col);
    if t < j {
      m := 0;
    } else {
      var k := GroupOf(keys, j, e, col, t);
      m := k + 1;
    }
  }

  lemma {:induction false} GroupsAreEntries(keys: seq<string>, frm: nat, e: nat, col: nat)
    requires frm <= e <= |keys|
    ensures Entries(keys, Groups(keys, frm, e, col))
    decreases e - frm
  {
    if frm < e { GroupsAreEntries(keys, GroupEnd(keys, frm, frm + 1, e, col), e, col); }
  }

  // The entry still holds both keys of the pair, or it lies beyond the end of its first key.
  predicate Pending(keys: seq<string>, x: nat, elt: QElt) {
    && elt.s < elt.e <= |keys|
    && ((elt.s <= x && x + 1 < elt.e && elt.col <= |keys[x]|) || |keys[elt.s]| < elt.col)
  }

  /** A turn on such an entry adds another one. */
  lemma PendingAgain(keys: seq<string>, x: nat, elt: QElt) returns (m: nat)
    requires x + 1 < |keys| && keys[x] == keys[x + 1] && Pending(keys, x, elt)
    ensures m < |Pushed(keys, elt)| && Pending(keys, x, Pushed(keys, elt)[m])
  {
    var s := if elt.col == |keys[elt.s]| then elt.s + 1 else elt.s;
    var t := if |keys[elt.s]| < elt.col then elt.s else if s <= x then x else x + 1;
    m := GroupOf(keys, s, elt.e, elt.col, t);
  }

  // Some entry that is still to come is pending.
  ghost predicate Goes(keys: seq<string>, x: nat, queue: seq<QElt>, i: nat) {
    Entries(keys, queue) && exists k :: i <= k < |queue| && Pending(keys, x, queue[k])
  }

  lemma GoesOn(keys: seq<string>, x: nat, queue: seq<QElt>, i: nat)
    requires x + 1 < |keys| && keys[x] == keys[x + 1] && Goes(keys, x, queue, i)
    ensures i < |queue| && Goes(keys, x, queue + Pushed(keys, queue[i]), i + 1)
  {
    var k :| i <= k < |queue| && Pending(keys, x, queue[k]);
    var elt := queue[i];
    var more := queue + Pushed(keys, elt);
    GroupsAreEntries(keys, if elt.col == |keys[elt.s]| then elt.s + 1 else elt.s, elt.e, elt.col);
    if k == i {
      var m := PendingAgain(keys, x, elt);
      assert more[|queue| + m] == Pushed(keys, elt)[m];
    } else {
      assert more[k] == queue[k];
    }
  }

  /** With two equal keys next to each other, as sorting leaves them, there is an entry left
      to expand after any number of turns. */
  lemma {:induction false} NeverRunsOut(keys: seq<string>, x: nat, queue: seq<QElt>, i: nat, n: nat)
    returns (later: seq<QElt>)
    requires x + 1 < |keys| && keys[x] == keys[x + 1] && Goes(keys, x, queue, i)
    ensures After(keys, queue, i, n, later) && i + n < |later|
    decreases n
  {
    GoesOn(keys, x, queue, i);
    if n == 0 {
      later := queue;
    } else {
      later := NeverRunsOut(keys, x, queue + Pushed(keys, queue[i]), i + 1, n - 1);
    }
  }

  lemma EqualPairNeverEnds(keys: seq<string>, x: nat, n: nat) returns (later: seq<QElt>)
    requires x + 1 < |keys| && keys[x] == keys[x + 1]
    ensures After(keys, [QElt(0, |keys|, 0)], 0, n, later) && n < |later|
  {
    var queue := [QElt(0, |keys|, 0)];
    assert Pending(keys, x, queue[0]);
    later := NeverRunsOut(keys, x, queue, 0, n);
  }

  // ---------------------------------------------------------------- distinct keys

  // The keys of an entry agree up to its column.
  ghost predicate Shares(keys: seq<string>, elt: QElt) {
    && elt.s < elt.e <= |keys|
    && forall k :: elt.s <= k < elt.e ==> Agree(keys[elt.s], keys[k], elt.col)
  }

  predicate Agree(a: string, b: string, n: nat) {
    n <= |a| && n <= |b| && a[..n] == b[..n]
  }

  lemma AgreeFurther(a: string, b: string, n: nat)
    requires Agree(a, b, n) && n < |a| && n < |b| && a[n] == b[n]
    ensures Agree(a, b, n + 1)
  {
    assert a[..n + 1] == a[..n] + [a[n]] && b[..n + 1] == b[..n] + [b[n]];
  }

  // How many more columns the keys from s to e have, their ends included.
  function Left(keys: seq<string>, s: nat, e: nat, col: nat): nat
    requires s <= e <= |keys|
    decreases e - s
  {
    if s == e then 0
    else (if col <= |keys[s]| then |keys[s]| + 1 - col else 0) + Left(keys, s + 1, e, col)
  }

  lemma {:induction false} LeftSplits(keys: seq<string>, s: nat, j: nat, e: nat, col: nat)
    requires s <= j <= e <= |keys|
    ensures Left(keys, s, e, col) == Left(keys, s, j, col) + Left(keys, j, e, col)
    decreases e - s
  {
    if s < j { LeftSplits(keys, s + 1, j, e, col); }
  }

  lemma {:induction false} LeftShrinks(keys: seq<string>, s: nat, e: nat, col: nat)
    requires s <= e <= |keys| && forall k :: s <= k < e ==> col <= |keys[k]|
    ensures Left(keys, s, e, col) == Left(keys, s, e, col + 1) + (e - s)
    decreases e - s
  {
    if s < e { LeftShrinks(keys, s + 1, e, col); }
  }

  function Total(keys: seq<string>, queue: seq<QElt>): nat
    requires forall k :: 0 <= k < |queue| ==> queue[k].s < queue[k].e <= |keys|
  {
    if queue == [] then 0
    else Left(keys, queue[0].s, queue[0].e, queue[0].col) + Total(keys, queue[1..])
  }

  lemma {:induction false} TotalConcat(keys: seq<string>, a: seq<QElt>, b: seq<QElt>)
    requires Entries(keys, a) && Entries(keys, b)
    ensures Entries(keys, a + b) && Total(keys, a + b) == Total(keys, a) + Total(keys, b)
    decreases |a|
  {
    if a == [] {
      assert a + b == b;
    } else {
      assert (a + b)[1..] == a[1..] + b;
      TotalConcat(keys, a[1..], b);
    }
  }

  ghost predicate AllShare(keys: seq<string>, queue: seq<QElt>) {
    forall k :: 0 <= k < |queue| ==> Shares(keys, queue[k])
  }

  // Keys that go on beyond a column they agree up to are grouped by that column.
  lemma {:induction false} GroupsShare(keys: seq<string>, frm: nat, e: nat, col: nat, first: nat)
    requires frm <= e <= |keys| && first < |keys|
    requires forall k :: frm <= k < e ==> col < |keys[k]| && Agree(keys[first], keys[k], col)
    ensures AllShare(keys, Groups(keys, frm, e, col)) && Entries(keys, Groups(keys, frm, e, col))
    ensures Total(keys, Groups(keys, frm, e, col)) == Left(keys, frm, e, col + 1)
    decreases e - frm
  {
    GroupsAreEntries(keys, frm, e, col);
    if frm < e {
      var j := GroupEnd(keys, frm, frm + 1, e, col);
      GroupsShare(keys, j, e, col, first);
      LeftSplits(keys, frm, j, e, col + 1);
      forall k | frm <= k < j ensures Agree(keys[frm], keys[k], col + 1) {
        assert Nth(keys[k], col) == Nth(keys[frm], col);
        AgreeFurther(keys[frm], keys[k], col);
      }
      assert Groups(keys, frm, e, col)[1..] == Groups(keys, j, e, col);
    }
  }

  /** A turn on an entry of distinct keys leaves fewer columns to do. */
  lemma PushedShrinks(keys: seq<string>, elt: QElt)
    requires StrictlySorted(keys) && Shares(keys, elt)
    ensures AllShare(keys, Pushed(keys, elt)) && Entries(keys, Pushed(keys, elt))
    ensures Total(keys, Pushed(keys, elt)) < Left(keys, elt.s, elt.e, elt.col)
  {
    var s := if elt.col == |keys[elt.s]| then elt.s + 1 else elt.s;
    forall k | s <= k < elt.e ensures elt.col < |keys[k]| && Agree(keys[elt.s], keys[k], elt.col) {
      GoesBeyond(keys, elt, k);
    }
    GroupsShare(keys, s, elt.e, elt.col, elt.s);
    LeftDrops(keys, elt.s, s, elt.e, elt.col);
  }

  lemma LeftDrops(keys: seq<string>, frm: nat, s: nat, e: nat, col: nat)
    requires frm <= s <= e <= |keys| && frm < e && forall k :: frm <= k < e ==> col <= |keys[k]|
    ensures Left(keys, s, e, col + 1) < Left(keys, frm, e, col)
  {
    LeftShrinks(keys, frm, e, col);
    LeftSplits(keys, frm, s, e, col + 1);
  }

  // Of distinct keys that agree up to a column only the first can end there.
  lemma GoesBeyond(keys: seq<string>, elt: QElt, k: nat)
    requires StrictlySorted(keys) && Shares(keys, elt) && elt.s <= k < elt.e
    requires k > elt.s || elt.col != |keys[elt.s]|
    ensures elt.col < |keys[k]|
  {
    assert Agree(keys[elt.s], keys[k], elt.col);
    if k > elt.s { LessAfterPrefix(keys[elt.s], keys[k], elt.col); }
  }

  lemma OneTurn(keys: seq<string>, queue: seq<QElt>, i: nat, pushed: seq<QElt>)
    requires Entries(keys, queue) && i < |queue| && AllShare(keys, queue[i..])
    requires Entries(keys, pushed) && AllShare(keys, pushed)
    ensures Entries(keys, queue + pushed) && AllShare(keys, (queue + pushed)[i + 1..])
    ensures Total(keys, (queue + pushed)[i + 1..]) + Left(keys, queue[i].s, queue[i].e, queue[i].col) ==
      Total(keys, queue[i..]) + Total(keys, pushed)
  {
    var now, rest := queue[i..], queue[i + 1..];
    assert now[0] == queue[i] && now[1..] == rest && (queue + pushed)[i + 1..] == rest + pushed;
    forall k | 0 <= k < |rest| ensures Shares(keys, rest[k]) { assert rest[k] == now[k + 1]; }
    TotalConcat(keys, rest, pushed);
  }

  lemma TurnShrinks(keys: seq<string>, queue: seq<QElt>, i: nat)
    requires StrictlySorted(keys) && Entries(keys, queue) && i < |queue| && AllShare(keys, queue[i..])
    ensures var queue' := queue + Pushed(keys, queue[i]);
      && Entries(keys, queue') && AllShare(keys, queue'[i + 1..])
      && Total(keys, queue'[i + 1..]) < Total(keys, queue[i..])
  {
    assert queue[i..][0] == queue[i];
    PushedShrinks(keys, queue[i]);
    OneTurn(keys, queue, i, Pushed(keys, queue[i]));
  }

  lemma {:induction false} RunsOut(keys: seq<string>, queue: seq<QElt>, i: nat) returns (n: nat, later: seq<QElt>)
    requires StrictlySorted(keys) && Entries(keys, queue) && i <= |queue| && AllShare(keys, queue[i..])
    ensures After(keys, queue, i, n, later) && |later| == i + n
    decreases Total(keys, queue[i..])
  {
    if i == |queue| {
      n, later := 0, queue;
    } else {
      TurnShrinks(keys, queue, i);
      var m;
      m, later := RunsOut(keys, queue + Pushed(keys, queue[i]), i + 1);
      n := m + 1;
    }
  }

  // ---------------------------------------------------------------- exactly when

  // In a sorted list equal keys are next to each other.
  lemma EqualPair(keys: seq<string>) returns (x: nat)
    requires Sorted(keys) && !StrictlySorted(keys)
    ensures x + 1 < |keys| && keys[x] == keys[x + 1]
  {
    var i, j :| 0 <= i < j < |keys| && !Less(keys[i], keys[j]);
    assert InOrder(keys[i], keys[j]);
    if i + 1 < j { InOrderTransitive(keys[i], keys[i + 1], keys[j]); }
    x := i;
  }

  /** The construction from a sorted list ends exactly if no two keys are equal. */
  lemma EndsIff(keys: seq<string>)
    requires keys != [] && Sorted(keys)
    ensures Ends(keys) <==> StrictlySorted(keys)
  {
    var root := QElt(0, |keys|, 0);
    if StrictlySorted(keys) {
      assert Shares(keys, root) && [root][0..] == [root];
      var n, later := RunsOut(keys, [root], 0);
    } else {
      var x := EqualPair(keys);
      forall n: nat, later | After(keys, [root], 0, n, later) ensures |later| != n {
        var more := EqualPairNeverEnds(keys, x, n);
        AfterUnique(keys, [root], 0, n, later, more);
      }
    }
  }

  // Two paths that clash are reported as the same key.
  lemma ClashRepeats<T>(n: DomainTrie.Node<T>, history: seq<(string, T)>, out: seq<string>)
    requires Stores(n, history) && Reports(n, [], out, true) && !NoClash(n)
    ensures !Distinct(ReverseAll(out))
  {
    DistinctIff(n, history);
    var paths :| Lists(n, paths, true) && ReportedAs(out, [], paths);
    var p, r :| p != [] && r != [] && Lookup(n, p).Some? && Lookup(n, r).Some? && KeyOf(p) == KeyOf(r) && p != r;
    assert p in paths && r in paths;
    var i :| 0 <= i < |paths| && paths[i] == p;
    var j :| 0 <= j < |paths| && paths[j] == r;
    SameReport(out, paths, i, j);
  }

  lemma SameReport(out: seq<string>, paths: seq<seq<string>>, i: nat, j: nat)
    requires ReportedAs(out, [], paths) && i < |paths| && j < |paths| && i != j
    requires KeyOf(paths[i]) == KeyOf(paths[j])
    ensures !Distinct(ReverseAll(out))
  {
    assert [] + paths[i] == paths[i] && [] + paths[j] == paths[j];
    var rev := ReverseAll(out);
    assert rev[i] == rev[j];
  }

  /** For every trie that holds a key, the construction from what a traversal reports ends
      exactly if no path ends in `+` where another has a leading dot. */
  lemma TrieEndsIff<T>(n: DomainTrie.Node<T>, history: seq<(string, T)>, out: seq<string>)
    requires Stores(n, history) && Reports(n, [], out, true) && out != []
    ensures Ends(SortKeys(ReverseAll(out))) <==> NoClash(n)
  {
    var keys := SortKeys(ReverseAll(out));
    assert |multiset(keys)| == |multiset(ReverseAll(out))|;
    SortKeysSorted(ReverseAll(out));
    EndsIff(keys);
    if NoClash(n) {
      DistinctIff(n, history);
      TraversedKeys(n, out);
    } else {
      ClashRepeats(n, history, out);
      SortedDistinct(ReverseAll(out));
    }
  }
}
