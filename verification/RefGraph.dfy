/** Proxy groups and the references between them, as the configuration gives them. */
module RefGraph {
  import opened Basics

  /** A proxy group: its name, the proxies it lists, the providers it uses, and everything
      else as one value. */
  datatype Group = Group(name: string, proxies: Option<seq<string>>, useProvider: Option<seq<string>>, settings: nat)

  function Refs(g: Group): seq<string> {
    match g.proxies
    case None => []
    case Some(p) => p
  }

  predicate DistinctNames(all: seq<Group>) {
    forall i, j :: 0 <= i < j < |all| ==> all[i].name != all[j].name
  }

  // The group called m lists n.
  predicate Edge(all: seq<Group>, m: string, n: string) {
    exists g :: g in all && g.name == m && n in Refs(g)
  }

  predicate LinkedAt(all: seq<Group>, path: seq<string>, i: int) {
    0 <= i < |path| - 1 && Edge(all, path[i], path[i + 1])
  }

  predicate Cycle(all: seq<Group>, path: seq<string>) {
    && path != []
    && (forall i {:trigger LinkedAt(all, path, i)} :: 0 <= i < |path| - 1 ==> LinkedAt(all, path, i))
    && Edge(all, path[|path| - 1], path[0])
  }

  ghost predicate Acyclic(all: seq<Group>) {
    forall path :: !Cycle(all, path)
  }

  ghost predicate HasPred(all: seq<Group>, s: set<string>, n: string) {
    exists m :: m in s && Edge(all, m, n)
  }

  ghost predicate HasSucc(all: seq<Group>, s: set<string>, n: string) {
    exists m :: m in s && Edge(all, n, m)
  }

  /** Every member refers to a member and is referred to by a member. */
  ghost predicate TwoSided(all: seq<Group>, s: set<string>) {
    && AllHavePred(all, s)
    && forall n {:trigger HasSucc(all, s, n)} :: n in s ==> HasSucc(all, s, n)
  }

  ghost predicate AllHavePred(all: seq<Group>, s: set<string>) {
    forall n {:trigger HasPred(all, s, n)} :: n in s ==> HasPred(all, s, n)
  }

  ghost function Members(path: seq<string>): set<string> {
    set x | x in path
  }

  lemma CycleIsTwoSided(all: seq<Group>, path: seq<string>)
    requires Cycle(all, path)
    ensures TwoSided(all, Members(path))
  {
    var s := Members(path);
    forall n | n in s ensures HasPred(all, s, n) && HasSucc(all, s, n) {
      var i :| 0 <= i < |path| && path[i] == n;
      CycleNeighbours(all, path, i);
    }
  }

  lemma CycleHasMembers(all: seq<Group>, path: seq<string>)
    requires Cycle(all, path)
    ensures Members(path) != {}
  {
    assert path[0] in Members(path);
  }

  lemma CycleNeighbours(all: seq<Group>, path: seq<string>, i: nat)
    requires Cycle(all, path) && i < |path|
    ensures HasPred(all, Members(path), path[i]) && HasSucc(all, Members(path), path[i])
  {
    var before := if i == 0 then path[|path| - 1] else path[i - 1];
    var after := if i == |path| - 1 then path[0] else path[i + 1];
    if i > 0 { assert LinkedAt(all, path, i - 1); }
    if i < |path| - 1 { assert LinkedAt(all, path, i); }
    assert before in Members(path) && Edge(all, before, path[i]);
    assert after in Members(path) && Edge(all, path[i], after);
  }

  // ---------------------------------------------------------------- finding a cycle

  // Each element lists the one before it.
  predicate Walk(all: seq<Group>, w: seq<string>) {
    forall i {:trigger BackAt(all, w, i)} :: 0 < i < |w| ==> BackAt(all, w, i)
  }

  predicate BackAt(all: seq<Group>, w: seq<string>, i: int) {
    0 < i < |w| && Edge(all, w[i], w[i - 1])
  }

  lemma {:induction false} WalkBack(all: seq<Group>, s: set<string>, n: nat) returns (w: seq<string>)
    requires s != {} && AllHavePred(all, s)
    ensures |w| == n + 1 && Walk(all, w) && forall i :: 0 <= i < |w| ==> w[i] in s
  {
    if n == 0 {
      var x :| x in s;
      w := [x];
    } else {
      var v := WalkBack(all, s, n - 1);
      assert HasPred(all, s, v[n - 1]);
      var m :| m in s && Edge(all, m, v[n - 1]);
      w := v + [m];
      forall i | 0 < i < |w| ensures BackAt(all, w, i) {
        if i < n { assert BackAt(all, v, i); }
      }
    }
  }

  // More places than values: two places hold the same.
  lemma {:induction false} Pigeonhole(w: seq<string>, s: set<string>) returns (i: nat, j: nat)
    requires |w| > |s| && forall k :: 0 <= k < |w| ==> w[k] in s
    ensures i < j < |w| && w[i] == w[j]
  {
    var last := |w| - 1;
    if k :| 0 <= k < last && w[k] == w[last] {
      i, j := k, last;
    } else {
      assert w[last] in s;
      i, j := Pigeonhole(w[..last], s - {w[last]});
    }
  }

  /** In a non-empty finite set where everything is referred to from inside, there is a
      cycle. */
  lemma PredsGiveCycle(all: seq<Group>, s: set<string>) returns (path: seq<string>)
    requires s != {} && AllHavePred(all, s)
    ensures Cycle(all, path)
  {
    var w := WalkBack(all, s, |s|);
    var i, j := Pigeonhole(w, s);
    path := Reverse(w[i..j]);
    forall k | 0 <= k < |path| - 1 ensures LinkedAt(all, path, k) {
      assert BackAt(all, w, j - 1 - k);
    }
    assert BackAt(all, w, j);
    assert path[|path| - 1] == w[i] == w[j] && path[0] == w[j - 1];
  }

  // ---------------------------------------------------------------- counting references

  // How often a name is listed by the groups.
  function InCount(gs: seq<Group>, n: string): nat {
    if gs == [] then 0 else multiset(Refs(gs[0]))[n] + InCount(gs[1..], n)
  }

  lemma {:induction false} InCountConcat(a: seq<Group>, b: seq<Group>, n: string)
    ensures InCount(a + b, n) == InCount(a, n) + InCount(b, n)
  {
    if a == [] {
      assert a + b == b;
    } else {
      assert (a + b)[1..] == a[1..] + b;
      InCountConcat(a[1..], b, n);
    }
  }

  lemma {:induction false} InCountZero(gs: seq<Group>, n: string)
    ensures InCount(gs, n) == 0 <==> forall i :: 0 <= i < |gs| ==> n !in Refs(gs[i])
  {
    if gs != [] {
      InCountZero(gs[1..], n);
      assert n in Refs(gs[0]) <==> multiset(Refs(gs[0]))[n] > 0;
      if InCount(gs, n) == 0 {
        forall i | 0 <= i < |gs| ensures n !in Refs(gs[i]) {
          if i > 0 { assert gs[i] == gs[1..][i - 1]; }
        }
      }
    }
  }

  // The list without its element i.
  function Without(gs: seq<Group>, i: nat): seq<Group>
    requires i < |gs|
  {
    gs[..i] + gs[i + 1..]
  }

  lemma InCountWithout(gs: seq<Group>, i: nat, n: string)
    requires i < |gs|
    ensures InCount(gs, n) == InCount(Without(gs, i), n) + multiset(Refs(gs[i]))[n]
  {
    assert gs == gs[..i] + ([gs[i]] + gs[i + 1..]);
    InCountConcat(gs[..i], [gs[i]] + gs[i + 1..], n);
    InCountConcat([gs[i]], gs[i + 1..], n);
    InCountConcat(gs[..i], gs[i + 1..], n);
    assert InCount([gs[i]], n) == multiset(Refs(gs[i]))[n] + InCount([], n);
  }

  // The group of this name, if there is one.
  function Find(gs: seq<Group>, n: string): (r: Option<Group>)
    ensures r.Some? ==> r.value in gs && r.value.name == n
    ensures r.None? ==> forall i :: 0 <= i < |gs| ==> gs[i].name != n
  {
    if gs == [] then None
    else if gs[0].name == n then Some(gs[0])
    else
      var r := Find(gs[1..], n);
      assert r.None? ==> forall i :: 1 <= i < |gs| ==> gs[i] == gs[1..][i - 1];
      r
  }

  lemma FindUnique(gs: seq<Group>, i: nat)
    requires DistinctNames(gs) && i < |gs|
    ensures Find(gs, gs[i].name) == Some(gs[i])
  {
  }
}
