/** `traverse` of clash-lib/src/common/trie.rs, for any callback and any order of the children. */
module DomainTraversal {
  import opened Basics
  import opened DomainNames
  import opened DomainTrie

  // ---------------------------------------------------------------- reports

  // The domain that a path is reported as.  A top-level label is reported as it is; below
  // it a leading dot becomes a leading `+`.
  function KeyOf(path: seq<string>): string
    requires path != []
  {
    if |path| == 1 then path[0] else Reported(Join(Reverse(path)))
  }

  function Reported(domain: string): string {
    if domain != "" && domain[0] == '.' then "+" + domain else domain
  }

  // The paths of the list are below the node and hold data, each once; a complete list has
  // them all.
  ghost predicate Lists<T>(n: Node<T>, paths: seq<seq<string>>, complete: bool) {
    && (forall r :: r in paths ==> r != [] && Lookup(n, r).Some?)
    && (complete ==> forall r :: r != [] && Lookup(n, r).Some? ==> r in paths)
    && (forall i, j :: 0 <= i < j < |paths| ==> paths[i] != paths[j])
  }

  ghost predicate ReportedAs(out: seq<string>, at: seq<string>, paths: seq<seq<string>>) {
    |out| == |paths| && forall i :: 0 <= i < |paths| ==> ReportFor(out[i], at, paths[i])
  }

  predicate ReportFor(report: string, at: seq<string>, path: seq<string>) {
    path != [] && report == KeyOf(at + path)
  }

  /** The list reports paths below the node that hold data, each at most once, in some order;
      a complete one reports them all. */
  ghost predicate Reports<T>(n: Node<T>, at: seq<string>, out: seq<string>, complete: bool) {
    exists paths :: Lists(n, paths, complete) && ReportedAs(out, at, paths)
  }

  // The same for the children in a set.
  ghost predicate ListsSome<T>(n: Node<T>, done: set<string>, paths: seq<seq<string>>, complete: bool) {
    && (forall r :: r in paths ==> r != [] && r[0] in done && Lookup(n, r).Some?)
    && (complete ==> forall r :: r != [] && r[0] in done && Lookup(n, r).Some? ==> r in paths)
    && (forall i, j :: 0 <= i < j < |paths| ==> paths[i] != paths[j])
  }

  function Under(l: string, paths: seq<seq<string>>): (r: seq<seq<string>>)
    ensures |r| == |paths| && forall i :: 0 <= i < |r| ==> r[i] == [l] + paths[i]
  {
    seq(|paths|, i requires 0 <= i < |paths| => [l] + paths[i])
  }

  // Adding one child: its own data and what is listed below it.
  lemma ListsOneMore<T>(n: Node<T>, done: set<string>, paths: seq<seq<string>>, l: string, below: seq<seq<string>>,
                        c: bool, d: bool)
    requires ListsSome(n, done, paths, c) && l !in done && l in n.children && Lists(n.children[l], below, d)
    ensures ListsSome(n, done + {l}, paths + (if n.children[l].data.Some? then [[l]] else []) + Under(l, below), c && d)
  {
    var own := if n.children[l].data.Some? then [[l]] else [];
    var all := paths + own + Under(l, below);
    forall r ensures r in all <==> r in paths || (r != [] && r[0] == l && (r in own || r[1..] in below)) {
      MemberUnder(l, below, r);
      assert r in all <==> r in paths || r in own || r in Under(l, below);
    }
    forall r | r != [] && r[0] == l
      ensures Lookup(n, r).Some? <==> r in own || (r[1..] != [] && Lookup(n.children[l], r[1..]).Some?)
    {
      StepDown(n, l, r[1..]);
      assert r == [l] + r[1..];
      assert [l] + [] == [l] && (r == [l] <==> r[1..] == []);
    }
    DistinctUnder(n, done, paths, l, below, own);
  }

  lemma MemberUnder(l: string, below: seq<seq<string>>, r: seq<string>)
    ensures r in Under(l, below) <==> r != [] && r[0] == l && r[1..] in below
  {
    if r != [] && r[0] == l && r[1..] in below {
      var i :| 0 <= i < |below| && below[i] == r[1..];
      assert Under(l, below)[i] == r;
    }
    if i :| 0 <= i < |below| && Under(l, below)[i] == r { assert below[i] == ([l] + below[i])[1..] == r[1..]; }
  }

  lemma DistinctUnder<T>(n: Node<T>, done: set<string>, paths: seq<seq<string>>, l: string, below: seq<seq<string>>,
                         own: seq<seq<string>>)
    requires ListsSome(n, done, paths, false) && l !in done && l in n.children && Lists(n.children[l], below, false)
    requires own == [[l]] || own == []
    ensures var all := paths + own + Under(l, below); forall i, j :: 0 <= i < j < |all| ==> all[i] != all[j]
  {
    var all := paths + own + Under(l, below);
    forall i, j | 0 <= i < j < |all| ensures all[i] != all[j] {
      var u := |paths| + |own|;
      if i >= u {
        assert below[i - u] == all[i][1..] && below[j - u] == all[j][1..];
      } else if i >= |paths| {
        assert all[i] == [l] && below[j - u] in below;
      } else if j >= |paths| {
        assert all[i] in paths && all[j][0] == l;
      }
    }
  }

  lemma ListsSwapped<T>(n: Node<T>, done: set<string>, a: seq<seq<string>>, b: seq<seq<string>>, c: seq<seq<string>>,
                        complete: bool)
    requires ListsSome(n, done, a + b + c, complete)
    ensures ListsSome(n, done, a + c + b, complete)
  {
    var before, after := a + b + c, a + c + b;
    forall r ensures r in after <==> r in before {
      assert r in before <==> r in a || r in b || r in c;
      assert r in after <==> r in a || r in c || r in b;
    }
    forall i, j | 0 <= i < j < |after| ensures after[i] != after[j] {
      var i', j' := Moved(|a|, |b|, |c|, i), Moved(|a|, |b|, |c|, j);
      assert after[i] == before[i'] && after[j] == before[j'] && i' != j';
    }
  }

  // Where a position of a + c + b is in a + b + c.
  function Moved(a: nat, b: nat, c: nat, i: nat): nat {
    if i < a then i else if i < a + c then i + b else i - c
  }

  lemma ReportedUnder(out: seq<string>, at: seq<string>, l: string, paths: seq<seq<string>>)
    requires ReportedAs(out, at + [l], paths)
    ensures ReportedAs(out, at, Under(l, paths))
  {
    forall i | 0 <= i < |paths| ensures ReportFor(out[i], at, Under(l, paths)[i]) {
      ReportForUnder(out[i], at, l, paths[i]);
    }
  }

  lemma ReportForUnder(report: string, at: seq<string>, l: string, path: seq<string>)
    requires ReportFor(report, at + [l], path)
    ensures ReportFor(report, at, [l] + path)
  {
    assert at + [l] + path == at + ([l] + path);
  }

  lemma ReportedConcat(out: seq<string>, more: seq<string>, at: seq<string>, paths: seq<seq<string>>,
                       others: seq<seq<string>>)
    requires ReportedAs(out, at, paths) && ReportedAs(more, at, others)
    ensures ReportedAs(out + more, at, paths + others)
  {
    var all, keys := paths + others, out + more;
    forall i | 0 <= i < |all| ensures ReportFor(keys[i], at, all[i]) {
      if i < |paths| {
        assert ReportFor(out[i], at, paths[i]);
      } else {
        assert ReportFor(more[i - |paths|], at, others[i - |paths|]);
      }
    }
  }

  lemma ListsAll<T>(n: Node<T>, done: set<string>, paths: seq<seq<string>>, complete: bool)
    requires ListsSome(n, done, paths, complete) && (complete ==> done == n.children.Keys)
    ensures Lists(n, paths, complete)
  {
  }

  // The callback, a function of all it has been given, declined at some point.
  ghost predicate Declined(f: seq<string> -> bool, log: seq<string>, from: nat) {
    exists m :: from < m <= |log| && !f(log[..m])
  }

  lemma DeclinedStays(f: seq<string> -> bool, log: seq<string>, more: seq<string>, from: nat)
    requires from <= |log|
    ensures Declined(f, log, from) ==> Declined(f, log + more, from)
    ensures Declined(f, log + more, from) <==> Declined(f, log, from) || Declined(f, log + more, |log|)
  {
    forall m | from < m <= |log| ensures (log + more)[..m] == log[..m] {}
    if Declined(f, log, from) {
      var m :| from < m <= |log| && !f(log[..m]);
      assert !f((log + more)[..m]);
    }
  }

  /** `traverse_inner`, for any callback and any order of the children: it goes on until the
      callback declines, and says whether it did not. */
  method TraverseInner<T>(keys: seq<string>, node: Node<T>, f: seq<string> -> bool, before: seq<string>,
                          ghost at: seq<string>)
    returns (out: seq<string>, go: bool)
    requires at != [] && keys == Reverse(at)
    ensures Reports(node, at, out, go)
    ensures go ==> !Declined(f, before + out, |before|)
    ensures !go ==> out != [] && !f(before + out) && !Declined(f, before + out[..|out| - 1], |before|)
    decreases node, 1
  {
    out, go := [], true;
    ghost var paths: seq<seq<string>> := [];
    var todo := node.children.Keys;
    while todo != {} && go
      invariant todo <= node.children.Keys
      invariant ReportedAs(out, at, paths)
      invariant go ==> ListsSome(node, node.children.Keys - todo, paths, true)
      invariant !go ==> Lists(node, paths, false)
      invariant go ==> !Declined(f, before + out, |before|)
      invariant !go ==> out != [] && !f(before + out) && !Declined(f, before + out[..|out| - 1], |before|)
      decreases go, |todo|
    {
      var key :| key in todo;
      ghost var below;
      ghost var was, done := out, node.children.Keys - todo;
      out, go, below := VisitChild(keys, node, key, f, before, out, at, paths);
      ListsOneMore(node, done, paths, key, below, true, go);
      ghost var own := if node.children[key].data.Some? then [[key]] else [];
      paths := paths + own + Under(key, below);
      assert node.children.Keys - (todo - {key}) == done + {key};
      todo := todo - {key};
      if !go { ListsAll(node, done + {key}, paths, false); }
    }
    if go { ListsAll(node, node.children.Keys, paths, true); }
  }

  // One child: its own data, then everything below it.
  method VisitChild<T>(keys: seq<string>, node: Node<T>, key: string, f: seq<string> -> bool, before: seq<string>,
                       out0: seq<string>, ghost at: seq<string>, ghost paths: seq<seq<string>>)
    returns (out: seq<string>, go: bool, ghost below: seq<seq<string>>)
    requires at != [] && keys == Reverse(at) && key in node.children
    requires ReportedAs(out0, at, paths) && !Declined(f, before + out0, |before|)
    ensures Lists(node.children[key], below, go)
    ensures ReportedAs(out, at, paths + (if node.children[key].data.Some? then [[key]] else []) + Under(key, below))
    ensures go ==> !Declined(f, before + out, |before|)
    ensures !go ==> out != [] && !f(before + out) && !Declined(f, before + out[..|out| - 1], |before|)
    decreases node, 0
  {
    var child := node.children[key];
    var keys' := [key] + keys;
    assert keys' == Reverse(at + [key]);
    out := out0;
    ghost var own: seq<seq<string>> := [];
    if child.data.Some? {
      var domain := Reported(Join(keys'));
      own := [[key]];
      assert ReportedAs([domain], at, own);
      ReportedConcat(out, [domain], at, paths, own);
      out := out + [domain];
      OneMoreKey(f, before, out0, domain);
      if !f(before + out) {
        assert paths + own + Under(key, []) == paths + own;
        return out, false, [];
      }
    }
    var sub;
    sub, go := TraverseInner(keys', child, f, before + out, at + [key]);
    below :| Lists(child, below, go) && ReportedAs(sub, at + [key], below);
    ReportedUnder(sub, at, key, below);
    ReportedConcat(out, sub, at, paths + own, Under(key, below));
    MoreKeys(f, before, out, sub, go);
    out := out + sub;
  }

  lemma OneMoreKey(f: seq<string> -> bool, before: seq<string>, out: seq<string>, key: string)
    requires !Declined(f, before + out, |before|)
    ensures Declined(f, before + (out + [key]), |before|) <==> !f(before + (out + [key]))
    ensures (out + [key])[..|out|] == out
  {
    var log := before + out;
    assert before + (out + [key]) == log + [key] && (log + [key])[..|log| + 1] == log + [key];
    DeclinedStays(f, log, [key], |before|);
  }

  lemma MoreKeys(f: seq<string> -> bool, before: seq<string>, out: seq<string>, sub: seq<string>, go: bool)
    requires !Declined(f, before + out, |before|)
    requires go ==> !Declined(f, before + out + sub, |before + out|)
    requires !go ==>
      sub != [] && !f(before + out + sub) && !Declined(f, before + out + sub[..|sub| - 1], |before + out|)
    ensures go ==> !Declined(f, before + (out + sub), |before|)
    ensures !go ==> !f(before + (out + sub)) && !Declined(f, before + (out + sub)[..|out + sub| - 1], |before|)
  {
    var log := before + out;
    assert before + (out + sub) == log + sub;
    DeclinedStays(f, log, sub, |before|);
    if !go {
      var init := sub[..|sub| - 1];
      assert before + (out + sub)[..|out + sub| - 1] == log + init;
      DeclinedStays(f, log, init, |before|);
    }
  }

  // ---------------------------------------------------------------- refusals

  // Everything below a first-level label was reported, or the last of it was refused.
  ghost predicate Visited<T>(n: Node<T>, f: seq<string> -> bool, out: seq<string>, paths: seq<seq<string>>, key: string)
    requires |out| == |paths| && key in n.children
  {
    && (n.children[key].data.Some? ==> [key] in paths)
    && (AllBelow(n, paths, key) || RefusedBelow(f, out, paths, key))
  }

  ghost predicate AllBelow<T>(n: Node<T>, paths: seq<seq<string>>, key: string) {
    forall r :: |r| > 1 && r[0] == key && Lookup(n, r).Some? ==> r in paths
  }

  ghost predicate RefusedBelow(f: seq<string> -> bool, out: seq<string>, paths: seq<seq<string>>, key: string)
    requires |out| == |paths|
  {
    exists m :: 0 <= m < |paths| && RefusedAt(f, out, paths, m) && |paths[m]| > 1 && paths[m][0] == key
  }

  predicate RefusedAt(f: seq<string> -> bool, out: seq<string>, paths: seq<seq<string>>, m: nat)
    requires |out| == |paths| && m < |out|
  {
    !f(out[..m + 1])
  }

  // The last report was of a first-level label, and was refused.
  ghost predicate Stopped(f: seq<string> -> bool, out: seq<string>, paths: seq<seq<string>>)
    requires |out| == |paths|
  {
    out != [] && RefusedAt(f, out, paths, |out| - 1) && |paths[|out| - 1]| == 1
  }

  // A refused first-level label ends the list; a refused longer path ends what is reported
  // below its first label, and nothing else.
  ghost predicate EndsReports(f: seq<string> -> bool, out: seq<string>, paths: seq<seq<string>>)
    requires |out| == |paths|
  {
    forall m, l :: 0 <= m < l < |out| ==> MayFollow(f, out, paths, m, l)
  }

  predicate MayFollow(f: seq<string> -> bool, out: seq<string>, paths: seq<seq<string>>, m: nat, l: nat)
    requires m < l < |out| == |paths|
  {
    f(out[..m + 1]) || (|paths[m]| > 1 && (|paths[l]| > 1 ==> paths[l][0] != paths[m][0]))
  }

  /** What `traverse` reports to a callback: with a refusal, it goes on with the next
      first-level label, unless the refusal was of a first-level label itself. */
  ghost predicate Traversed<T>(n: Node<T>, f: seq<string> -> bool, out: seq<string>, paths: seq<seq<string>>) {
    && Lists(n, paths, !Declined(f, out, 0)) && ReportedAs(out, [], paths) && EndsReports(f, out, paths)
    && (forall i :: 0 <= i < |paths| ==> paths[i][0] in n.children && Visited(n, f, out, paths, paths[i][0]))
    && (Stopped(f, out, paths) || forall key :: key in n.children ==> Visited(n, f, out, paths, key))
  }

  // The same while the children of a set are done.
  ghost predicate TopSoFar<T>(n: Node<T>, f: seq<string> -> bool, out: seq<string>, paths: seq<seq<string>>,
                              done: set<string>) {
    && ReportedAs(out, [], paths) && EndsReports(f, out, paths) && ListsSome(n, done, paths, !Declined(f, out, 0))
    && done <= n.children.Keys && forall key :: key in done ==> Visited(n, f, out, paths, key)
  }

  // What one child of the root adds: the paths below it, then its own if it has data.
  ghost predicate TopPart<T>(n: Node<T>, f: seq<string> -> bool, key: string, out0: seq<string>, sub: seq<string>,
                             below: seq<seq<string>>, go: bool) {
    && key in n.children && Lists(n.children[key], below, go) && |sub| == |below|
    && (go ==> !Declined(f, out0 + sub, |out0|))
    && (!go ==> sub != [] && !f(out0 + sub) && !Declined(f, out0 + sub[..|sub| - 1], |out0|))
  }

  function Own<T>(n: Node<T>, key: string): seq<seq<string>>
    requires key in n.children
  {
    if n.children[key].data.Some? then [[key]] else []
  }

  // Where a refusal in the part lies: at its very end, or at the own path after it.
  lemma RefusedInPart<T>(n: Node<T>, f: seq<string> -> bool, key: string, out0: seq<string>, sub: seq<string>,
                         below: seq<seq<string>>, go: bool, out: seq<string>, m: nat)
    requires TopPart(n, f, key, out0, sub, below, go) && out0 + sub <= out && |out0| <= m < |out0| + |sub|
    ensures !f(out[..m + 1]) <==> !go && m == |out0| + |sub| - 1
  {
    var log := out0 + sub;
    assert out[..m + 1] == log[..m + 1];
    if go {
      assert !Declined(f, log, |out0|);
    } else if m == |log| - 1 {
      assert log[..m + 1] == log;
    } else {
      var init := out0 + sub[..|sub| - 1];
      assert init[..m + 1] == log[..m + 1];
      assert !Declined(f, init, |out0|);
    }
  }

  lemma TopEndsReports<T>(n: Node<T>, f: seq<string> -> bool, key: string, out0: seq<string>, paths0: seq<seq<string>>,
                          sub: seq<string>, below: seq<seq<string>>, go: bool, out: seq<string>)
    requires |out0| == |paths0| && EndsReports(f, out0, paths0) && !Stopped(f, out0, paths0)
    requires forall i :: 0 <= i < |paths0| ==> paths0[i] != [] && paths0[i][0] != key
    requires TopPart(n, f, key, out0, sub, below, go)
    requires out0 + sub <= out && |out| == |out0| + |sub| + |Own(n, key)|
    ensures EndsReports(f, out, paths0 + (Under(key, below) + Own(n, key)))
  {
    var more := Under(key, below) + Own(n, key);
    var paths := paths0 + more;
    assert forall i :: 0 <= i < |more| ==> more[i] != [] && more[i][0] == key;
    forall m, l | 0 <= m < l < |out| ensures MayFollow(f, out, paths, m, l) {
      if f(out[..m + 1]) {
      } else if m < |out0| {
        RefusedEarlier(f, key, out0, paths0, more, out, m, l);
      } else {
        RefusedLater(n, f, key, out0, paths0, sub, below, go, out, m, l);
      }
    }
  }

  lemma RefusedLater<T>(n: Node<T>, f: seq<string> -> bool, key: string, out0: seq<string>, paths0: seq<seq<string>>,
                        sub: seq<string>, below: seq<seq<string>>, go: bool, out: seq<string>, m: nat, l: nat)
    requires |out0| == |paths0| && TopPart(n, f, key, out0, sub, below, go)
    requires out0 + sub <= out && |out| == |out0| + |sub| + |Own(n, key)| && |out0| <= m < l < |out| && !f(out[..m + 1])
    ensures var paths := paths0 + (Under(key, below) + Own(n, key)); |paths[m]| > 1 && |paths[l]| == 1
  {
    RefusedInPart(n, f, key, out0, sub, below, go, out, m);
    assert below[m - |out0|] in below;
  }

  lemma RefusedEarlier(f: seq<string> -> bool, key: string, out0: seq<string>, paths0: seq<seq<string>>,
                       more: seq<seq<string>>, out: seq<string>, m: nat, l: nat)
    requires |out0| == |paths0| && EndsReports(f, out0, paths0) && !Stopped(f, out0, paths0) && out0 <= out
    requires forall i :: 0 <= i < |paths0| ==> paths0[i] != [] && paths0[i][0] != key
    requires forall i :: 0 <= i < |more| ==> more[i] != [] && more[i][0] == key
    requires |out| == |out0| + |more| && m < |out0| && m < l < |out| && !f(out[..m + 1])
    ensures var paths := paths0 + more; |paths[m]| > 1 && (|paths[l]| > 1 ==> paths[l][0] != paths[m][0])
  {
    assert out[..m + 1] == out0[..m + 1];
    assert m + 1 < |out0| ==> MayFollow(f, out0, paths0, m, m + 1);
    assert l < |out0| ==> MayFollow(f, out0, paths0, m, l);
  }

  lemma TopVisited<T>(n: Node<T>, f: seq<string> -> bool, key: string, out0: seq<string>, paths0: seq<seq<string>>,
                      done: set<string>, sub: seq<string>, below: seq<seq<string>>, go: bool, out: seq<string>,
                      k: string)
    requires TopSoFar(n, f, out0, paths0, done) && !Stopped(f, out0, paths0) && key !in done
    requires TopPart(n, f, key, out0, sub, below, go)
    requires out0 + sub <= out && |out| == |out0| + |sub| + |Own(n, key)|
    requires k in done + {key}
    ensures Visited(n, f, out, paths0 + Under(key, below) + Own(n, key), k)
  {
    var paths := paths0 + Under(key, below) + Own(n, key);
    forall r | r in paths0 || r in Under(key, below) || r in Own(n, key) ensures r in paths {}
    if k != key {
      assert Visited(n, f, out0, paths0, k);
      if RefusedBelow(f, out0, paths0, k) {
        var m :| 0 <= m < |paths0| && RefusedAt(f, out0, paths0, m) && |paths0[m]| > 1 && paths0[m][0] == k;
        assert out[..m + 1] == out0[..m + 1] && paths[m] == paths0[m];
        assert RefusedAt(f, out, paths, m);
      }
    } else if go {
      forall r | |r| > 1 && r[0] == key && Lookup(n, r).Some? ensures r in paths {
        StepDown(n, key, r[1..]);
        assert r == [key] + r[1..];
        MemberUnder(key, below, r);
      }
    } else {
      var m := |out0| + |sub| - 1;
      RefusedInPart(n, f, key, out0, sub, below, go, out, m);
      assert paths[m] == [key] + below[|sub| - 1] && below[|sub| - 1] in below;
      assert RefusedAt(f, out, paths, m);
    }
  }

  lemma TopOneMore<T>(n: Node<T>, f: seq<string> -> bool, key: string, out0: seq<string>, paths0: seq<seq<string>>,
                      done: set<string>, sub: seq<string>, below: seq<seq<string>>, go: bool, out: seq<string>)
    requires TopSoFar(n, f, out0, paths0, done) && !Stopped(f, out0, paths0) && key !in done
    requires TopPart(n, f, key, out0, sub, below, go) && out0 + sub <= out
    requires ReportedAs(out, [], paths0 + Under(key, below) + Own(n, key))
    ensures TopSoFar(n, f, out, paths0 + Under(key, below) + Own(n, key), done + {key})
  {
    var paths := paths0 + Under(key, below) + Own(n, key);
    assert paths == paths0 + (Under(key, below) + Own(n, key));
    forall i | 0 <= i < |paths0| ensures paths0[i] != [] && paths0[i][0] != key { assert paths0[i] in paths0; }
    TopEndsReports(n, f, key, out0, paths0, sub, below, go, out);
    forall k | k in done + {key} ensures Visited(n, f, out, paths, k) {
      TopVisited(n, f, key, out0, paths0, done, sub, below, go, out, k);
    }
    if !Declined(f, out, 0) { NotDeclinedPart(n, f, key, out0, sub, below, go, out); }
    ListsTop(n, done, paths0, key, below, Own(n, key), f, out0, out);
  }

  lemma NotDeclinedPart<T>(n: Node<T>, f: seq<string> -> bool, key: string, out0: seq<string>, sub: seq<string>,
                           below: seq<seq<string>>, go: bool, out: seq<string>)
    requires TopPart(n, f, key, out0, sub, below, go) && out0 + sub <= out && !Declined(f, out, 0)
    ensures Lists(n.children[key], below, true)
  {
    if sub != [] {
      var m := |out0| + |sub| - 1;
      RefusedInPart(n, f, key, out0, sub, below, go, out, m);
      assert f(out[..m + 1]);
    }
  }

  /** `traverse`, for any callback and any order of the children.  Nothing is reported twice,
      and everything is unless the callback declines.  A refusal below the first level ends
      the reports below that first-level label only; one of a first-level label ends them
      all. */
  method Traverse<T>(root: Node<T>, f: seq<string> -> bool) returns (out: seq<string>)
    ensures Reports(root, [], out, !Declined(f, out, 0))
    ensures exists paths :: Traversed(root, f, out, paths)
  {
    out := [];
    ghost var paths: seq<seq<string>> := [];
    var todo := root.children.Keys;
    var stop := false;
    while todo != {} && !stop
      invariant todo <= root.children.Keys
      invariant TopSoFar(root, f, out, paths, root.children.Keys - todo)
      invariant stop <==> Stopped(f, out, paths)
      decreases |todo|
    {
      var key :| key in todo;
      ghost var done := root.children.Keys - todo;
      out, stop, paths := VisitTop(root, key, f, out, paths, done);
      assert root.children.Keys - (todo - {key}) == done + {key};
      todo := todo - {key};
    }
    AllTop(root, f, out, paths, root.children.Keys - todo, todo == {});
  }

  lemma AllTop<T>(n: Node<T>, f: seq<string> -> bool, out: seq<string>, paths: seq<seq<string>>, done: set<string>,
                  all: bool)
    requires TopSoFar(n, f, out, paths, done) && (all ==> done == n.children.Keys) && (!all ==> Stopped(f, out, paths))
    ensures Traversed(n, f, out, paths)
  {
    if Stopped(f, out, paths) {
      assert out[..|out| - 1 + 1] == out;
      assert Declined(f, out, 0);
    }
    forall i | 0 <= i < |paths| ensures paths[i] != [] && paths[i][0] in done { assert paths[i] in paths; }
    ListsAll(n, done, paths, !Declined(f, out, 0));
  }

  lemma ListsTop<T>(root: Node<T>, done: set<string>, paths: seq<seq<string>>, key: string, below: seq<seq<string>>,
                    own: seq<seq<string>>, f: seq<string> -> bool, was: seq<string>, out: seq<string>)
    requires ListsSome(root, done, paths, !Declined(f, was, 0)) && key !in done && key in root.children
    requires was <= out && own == (if root.children[key].data.Some? then [[key]] else [])
    requires Lists(root.children[key], below, !Declined(f, out, 0))
    ensures ListsSome(root, done + {key}, paths + Under(key, below) + own, !Declined(f, out, 0))
  {
    DeclinedStays(f, was, out[|was|..], 0);
    assert was + out[|was|..] == out;
    ListsOneMore(root, done, paths, key, below, !Declined(f, was, 0), !Declined(f, out, 0));
    ListsSwapped(root, done + {key}, paths, own, Under(key, below), !Declined(f, out, 0));
  }

  // One child of the root: everything below it, then its own data.  Whether the callback
  // declined below goes unnoticed.
  method VisitTop<T>(root: Node<T>, key: string, f: seq<string> -> bool, out0: seq<string>,
                     ghost paths0: seq<seq<string>>, ghost done: set<string>)
    returns (out: seq<string>, stop: bool, ghost paths: seq<seq<string>>)
    requires key in root.children && key !in done
    requires TopSoFar(root, f, out0, paths0, done) && !Stopped(f, out0, paths0)
    ensures TopSoFar(root, f, out, paths, done + {key}) && (stop <==> Stopped(f, out, paths))
  {
    var child := root.children[key];
    var sub, go := TraverseInner([key], child, f, out0, [key]);
    ghost var below :| Lists(child, below, go) && ReportedAs(sub, [key], below);
    ReportedBelow(out0, paths0, sub, key, below);
    out, stop := out0 + sub, false;
    paths := paths0 + Under(key, below) + Own(root, key);
    if child.data.Some? {
      ReportedOwn(out, key, paths0 + Under(key, below));
      out := out + [key];
      stop := !f(out);
      StoppedByOwn(f, out, paths, key);
    } else {
      assert paths == paths0 + Under(key, below);
      NotStoppedBelow(root, f, key, out0, paths0, sub, below, go);
    }
    TopOneMore(root, f, key, out0, paths0, done, sub, below, go, out);
  }

  lemma ReportedBelow(out0: seq<string>, paths0: seq<seq<string>>, sub: seq<string>, key: string,
                      below: seq<seq<string>>)
    requires ReportedAs(out0, [], paths0) && ReportedAs(sub, [key], below)
    ensures ReportedAs(out0 + sub, [], paths0 + Under(key, below))
  {
    assert [] + [key] == [key];
    ReportedUnder(sub, [], key, below);
    ReportedConcat(out0, sub, [], paths0, Under(key, below));
  }

  lemma ReportedOwn(out: seq<string>, key: string, paths: seq<seq<string>>)
    requires ReportedAs(out, [], paths)
    ensures ReportedAs(out + [key], [], paths + [[key]])
  {
    assert [] + [key] == [key];
    ReportedConcat(out, [key], [], paths, [[key]]);
  }

  lemma StoppedByOwn(f: seq<string> -> bool, out: seq<string>, paths: seq<seq<string>>, key: string)
    requires |out| == |paths| > 0 && paths[|paths| - 1] == [key]
    ensures Stopped(f, out, paths) <==> !f(out)
  {
    assert out[..|out| - 1 + 1] == out;
  }

  // A part that ends below the first level does not stop the traversal.
  lemma NotStoppedBelow<T>(n: Node<T>, f: seq<string> -> bool, key: string, out0: seq<string>, paths0: seq<seq<string>>,
                           sub: seq<string>, below: seq<seq<string>>, go: bool)
    requires TopPart(n, f, key, out0, sub, below, go) && |out0| == |paths0| && !Stopped(f, out0, paths0)
    ensures !Stopped(f, out0 + sub, paths0 + Under(key, below))
  {
    var paths := paths0 + Under(key, below);
    if sub != [] {
      assert below[|sub| - 1] in below && paths[|paths| - 1] == [key] + below[|sub| - 1];
    } else {
      assert out0 + sub == out0 && paths == paths0;
    }
  }
}
