/** `proxy_groups_dag_sort` of clash-lib/src/app/outbound/utils.rs: Kahn's algorithm with
    the result written into the slice from the back, and the second pass that reports the
    groups on loops.  Where the source iterates over a hash map the order is arbitrary. */
module ProxyGroups {
  import opened Basics
  import opened RefGraph

  datatype Node = Node(inDegree: int, proto: Option<Group>, outdegree: int, from: seq<string>)

  type Graph = map<string, Node>

  datatype SortError = DuplicateName(name: string) | LoopDetected(names: set<string>)

  // ---------------------------------------------------------------- building the graph

  // The node of a name after the groups gs, with some further references.
  ghost predicate NodeIs(gs: seq<Group>, more: multiset<string>, graph: Graph, n: string) {
    && (n in graph <==> Find(gs, n).Some? || InCount(gs, n) + more[n] > 0)
    && (n in graph ==> graph[n] == Node(InCount(gs, n) + more[n], Find(gs, n), 0, []))
  }

  ghost predicate Describes(gs: seq<Group>, more: multiset<string>, graph: Graph) {
    forall n {:trigger NodeIs(gs, more, graph, n)} :: NodeIs(gs, more, graph, n)
  }

  lemma {:induction false} FindConcat(gs: seq<Group>, g: Group, n: string)
    ensures Find(gs + [g], n) == if Find(gs, n).Some? then Find(gs, n) else if g.name == n then Some(g) else None
  {
    if gs == [] {
      assert gs + [g] == [g];
    } else {
      assert (gs + [g])[1..] == gs[1..] + [g];
      FindConcat(gs[1..], g, n);
    }
  }

  /** One group: its own node, then one reference for each proxy it lists. */
  method AddGroup(graph0: Graph, g: Group, ghost gs: seq<Group>) returns (duplicate: bool, graph: Graph)
    requires Describes(gs, multiset{}, graph0)
    ensures duplicate <==> exists i :: 0 <= i < |gs| && gs[i].name == g.name
    ensures !duplicate ==> Describes(gs + [g], multiset{}, graph)
  {
    graph := graph0;
    assert NodeIs(gs, multiset{}, graph, g.name);
    if g.name in graph {
      if graph[g.name].proto.Some? {
        return true, graph;
      }
      graph := graph[g.name := graph[g.name].(proto := Some(g))];
    } else {
      graph := graph[g.name := Node(0, Some(g), 0, [])];
    }
    duplicate := false;
    var refs := Refs(g);
    OwnNode(graph0, graph, g, gs);
    for k := 0 to |refs|
      invariant Partly(gs, g, multiset(refs[..k]), graph)
    {
      graph := AddRef(graph, refs[k], gs, g, multiset(refs[..k]));
      assert refs[..k + 1] == refs[..k] + [refs[k]];
    }
    assert refs[..|refs|] == refs;
    AllRefs(gs, g, graph);
  }

  // The graph once the group has its node and some of its references are counted.
  ghost predicate PartNode(gs: seq<Group>, g: Group, more: multiset<string>, graph: Graph, n: string) {
    && (n in graph <==> Find(gs + [g], n).Some? || InCount(gs, n) + more[n] > 0)
    && (n in graph ==> graph[n] == Node(InCount(gs, n) + more[n], Find(gs + [g], n), 0, []))
  }

  ghost predicate Partly(gs: seq<Group>, g: Group, more: multiset<string>, graph: Graph) {
    forall n {:trigger PartNode(gs, g, more, graph, n)} :: PartNode(gs, g, more, graph, n)
  }

  lemma OwnNode(graph0: Graph, graph: Graph, g: Group, gs: seq<Group>)
    requires Describes(gs, multiset{}, graph0) && Find(gs, g.name).None?
    requires graph == graph0[g.name := Node(if g.name in graph0 then graph0[g.name].inDegree else 0, Some(g), 0, [])]
    ensures Partly(gs, g, multiset{}, graph)
  {
    forall n ensures PartNode(gs, g, multiset{}, graph, n) {
      assert NodeIs(gs, multiset{}, graph0, n);
      FindConcat(gs, g, n);
    }
  }

  method AddRef(graph0: Graph, r: string, ghost gs: seq<Group>, ghost g: Group, ghost more: multiset<string>)
    returns (graph: Graph)
    requires Partly(gs, g, more, graph0)
    ensures Partly(gs, g, more + multiset{r}, graph)
  {
    if r in graph0 {
      graph := graph0[r := graph0[r].(inDegree := graph0[r].inDegree + 1)];
    } else {
      graph := graph0[r := Node(1, None, 0, [])];
    }
    forall n ensures PartNode(gs, g, more + multiset{r}, graph, n) {
      assert PartNode(gs, g, more, graph0, n);
    }
  }

  lemma AllRefs(gs: seq<Group>, g: Group, graph: Graph)
    requires Partly(gs, g, multiset(Refs(g)), graph)
    ensures Describes(gs + [g], multiset{}, graph)
  {
    forall n ensures NodeIs(gs + [g], multiset{}, graph, n) {
      assert PartNode(gs, g, multiset(Refs(g)), graph, n);
      InCountConcat(gs, [g], n);
      assert InCount([g], n) == multiset(Refs(g))[n] + InCount([], n);
    }
  }

  // The name of the first group that repeats an earlier one.
  ghost predicate FirstRepeated(groups: seq<Group>, name: string) {
    exists i, j :: 0 <= i < j < |groups| && groups[i].name == groups[j].name == name && DistinctNames(groups[..j])
  }

  /** The first pass over the groups: fails exactly on a repeated name. */
  method BuildGraph(groups: seq<Group>) returns (error: Option<string>, graph: Graph)
    ensures error.None? ==> DistinctNames(groups) && Describes(groups, multiset{}, graph)
    ensures error.Some? ==> FirstRepeated(groups, error.value)
  {
    graph := map[];
    assert Describes([], multiset{}, graph) by {
      forall n ensures NodeIs([], multiset{}, graph, n) {}
    }
    for i := 0 to |groups|
      invariant DistinctNames(groups[..i]) && Describes(groups[..i], multiset{}, graph)
    {
      var duplicate;
      duplicate, graph := AddGroup(graph, groups[i], groups[..i]);
      if duplicate {
        return Some(groups[i].name), graph;
      }
      assert groups[..i + 1] == groups[..i] + [groups[i]];
    }
    assert groups[..|groups|] == groups;
    error := None;
  }

  // ---------------------------------------------------------------- Kahn's pass

  // The node of a remaining name, where `rest` are the groups not yet placed.
  ghost predicate RestNode(rest: seq<Group>, graph: Graph, n: string) {
    && (Find(rest, n).Some? || InCount(rest, n) > 0 ==> n in graph)
    && (n in graph ==> graph[n] == Node(InCount(rest, n), Find(rest, n), 0, []))
  }

  ghost predicate RestGraph(rest: seq<Group>, graph: Graph) {
    forall n {:trigger RestNode(rest, graph, n)} :: RestNode(rest, graph, n)
  }

  // The degree that a pass counts down: references to a name, or references it makes.
  function Degree(node: Node, outward: bool): int {
    if outward then node.outdegree else node.inDegree
  }

  function Less(node: Node, outward: bool, d: int): Node {
    if outward then node.(outdegree := node.outdegree - d) else node.(inDegree := node.inDegree - d)
  }

  // The queue holds, once each, the remaining names of degree zero, except for one that is
  // being worked on.
  ghost predicate Ready(graph: Graph, queue: seq<string>, except: Option<string>, outward: bool) {
    && Distinct(queue)
    && forall n {:trigger n in queue} :: n in queue <==>
      n in graph && except != Some(n) && Degree(graph[n], outward) == 0
  }

  // No placed group refers to one placed before it, or to itself.
  ghost predicate Ordered(placed: seq<Group>) {
    forall j, k :: 0 <= k <= j < |placed| ==> placed[k].name !in Refs(placed[j])
  }

  ghost predicate Placed(rest: seq<Group>, placed: seq<Group>, graph: Graph) {
    && Ordered(placed)
    && forall k {:trigger placed[k]} :: 0 <= k < |placed| ==>
      placed[k].name !in graph && InCount(rest, placed[k].name) == 0
  }

  // Every two-sided set of names is still there.
  ghost predicate KeepsLoops(all: seq<Group>, graph: Graph) {
    forall s: set<string> {:trigger TwoSided(all, s)} :: TwoSided(all, s) ==> s <= graph.Keys
  }

  ghost predicate Sorting(all: seq<Group>, rest: seq<Group>, placed: seq<Group>, graph: Graph) {
    && DistinctNames(all) && DistinctNames(rest)
    && multiset(rest) + multiset(placed) == multiset(all)
    && RestGraph(rest, graph)
    && Placed(rest, placed, graph)
    && KeepsLoops(all, graph)
  }

  /** Counts the degrees down by one for each name of a list; names that reach zero join
      the queue.  Kahn's pass does so for what a placed group lists, the second pass for
      those who list a name that goes. */
  method DropRefs(graph0: Graph, queue0: seq<string>, refs: seq<string>, name: string, outward: bool)
    returns (graph: Graph, queue: seq<string>)
    requires Ready(graph0, queue0, Some(name), outward) && name !in refs
    requires forall n :: n in refs ==> n in graph0 && Degree(graph0[n], outward) >= multiset(refs)[n]
    ensures graph.Keys == graph0.Keys && Ready(graph, queue, Some(name), outward)
    ensures forall n :: n in graph0 ==> graph[n] == Less(graph0[n], outward, multiset(refs)[n])
  {
    graph, queue := graph0, queue0;
    for k := 0 to |refs|
      invariant Counted(graph0, graph, multiset(refs[..k]), outward) && Ready(graph, queue, Some(name), outward)
    {
      var r := refs[k];
      CountSoFar(refs, k);
      ReadyStep(graph, queue, name, r, outward);
      CountOne(graph0, graph, multiset(refs[..k]), r, outward);
      graph := graph[r := Less(graph[r], outward, 1)];
      if Degree(graph[r], outward) == 0 {
        queue := queue + [r];
      }
    }
    assert refs[..|refs|] == refs;
  }

  // The degrees of a graph less some counts.
  ghost predicate Counted(graph0: Graph, graph: Graph, counts: multiset<string>, outward: bool) {
    graph.Keys == graph0.Keys && forall n :: n in graph0 ==> graph[n] == Less(graph0[n], outward, counts[n])
  }

  lemma CountOne(graph0: Graph, graph: Graph, counts: multiset<string>, r: string, outward: bool)
    requires Counted(graph0, graph, counts, outward) && r in graph
    ensures Counted(graph0, graph[r := Less(graph[r], outward, 1)], counts + multiset{r}, outward)
  {
  }

  lemma ReadyStep(graph: Graph, queue: seq<string>, name: string, r: string, outward: bool)
    requires Ready(graph, queue, Some(name), outward) && r in graph && r != name && Degree(graph[r], outward) > 0
    ensures var graph' := graph[r := Less(graph[r], outward, 1)];
      Ready(graph', if Degree(graph'[r], outward) == 0 then queue + [r] else queue, Some(name), outward)
  {
    var graph' := graph[r := Less(graph[r], outward, 1)];
    var queue' := if Degree(graph'[r], outward) == 0 then queue + [r] else queue;
    assert r !in queue;
    forall i | 0 <= i < |queue| ensures queue[i] != r { assert queue[i] in queue; }
    forall n ensures n in queue' <==> n in graph' && Some(name) != Some(n) && Degree(graph'[n], outward) == 0 {
      assert n in queue + [r] <==> n in queue || n == r;
    }
  }

  lemma CountSoFar(refs: seq<string>, k: nat)
    requires k < |refs|
    ensures multiset(refs[..k + 1]) == multiset(refs[..k]) + multiset{refs[k]}
    ensures multiset(refs[..k])[refs[k]] < multiset(refs)[refs[k]]
  {
    assert refs[..k + 1] == refs[..k] + [refs[k]];
    assert refs == refs[..k] + ([refs[k]] + refs[k + 1..]);
  }

  // A name that no remaining group refers to is in no two-sided set.
  lemma RemoveKeepsLoops(all: seq<Group>, rest: seq<Group>, placed: seq<Group>, graph: Graph, graph': Graph,
                         name: string)
    requires Sorting(all, rest, placed, graph) && InCount(rest, name) == 0 && graph'.Keys == graph.Keys - {name}
    ensures KeepsLoops(all, graph')
  {
    forall s: set<string> | TwoSided(all, s) ensures s <= graph'.Keys {
      if name in s {
        assert HasPred(all, s, name);
        var m :| m in s && Edge(all, m, name);
        var g :| g in all && g.name == m && name in Refs(g);
        assert g in multiset(all);
        RestOrPlaced(rest, placed, g);
        InCountZero(rest, name);
      }
    }
  }

  lemma RestOrPlaced(rest: seq<Group>, placed: seq<Group>, g: Group)
    requires g in multiset(rest) + multiset(placed)
    ensures g in rest || g in placed
  {
  }

  // The next group to place: no remaining group refers to it, itself included.
  lemma PlaceOne(all: seq<Group>, rest: seq<Group>, placed: seq<Group>, graph: Graph, i: nat)
    requires Sorting(all, rest, placed, graph) && i < |rest| && InCount(rest, rest[i].name) == 0
    ensures Ordered(placed + [rest[i]])
    ensures forall k {:trigger (placed + [rest[i]])[k]} :: 0 <= k < |placed + [rest[i]]| ==>
      InCount(Without(rest, i), (placed + [rest[i]])[k].name) == 0
  {
    var g := rest[i];
    forall k | 0 <= k < |placed + [g]|
      ensures InCount(Without(rest, i), (placed + [g])[k].name) == 0 && (placed + [g])[k].name !in Refs(g)
    {
      NotListed(rest, i, (placed + [g])[k].name);
    }
  }

  lemma NotListed(rest: seq<Group>, i: nat, n: string)
    requires i < |rest| && InCount(rest, n) == 0
    ensures InCount(Without(rest, i), n) == 0 && n !in Refs(rest[i])
  {
    InCountWithout(rest, i, n);
    InCountZero(rest, n);
  }

  lemma MoveOne(all: seq<Group>, rest: seq<Group>, placed: seq<Group>, i: nat)
    requires DistinctNames(rest) && multiset(rest) + multiset(placed) == multiset(all) && i < |rest|
    ensures DistinctNames(Without(rest, i))
    ensures multiset(Without(rest, i)) + multiset(placed + [rest[i]]) == multiset(all)
  {
    TakeOne(rest, i);
    assert multiset(placed + [rest[i]]) == multiset(placed) + multiset{rest[i]};
  }

  lemma TakeOne(gs: seq<Group>, i: nat)
    requires i < |gs|
    ensures multiset(gs) == multiset(Without(gs, i)) + multiset{gs[i]}
  {
    assert gs == gs[..i] + ([gs[i]] + gs[i + 1..]);
  }

  // What removing the node and dropping the references leaves.
  lemma RestAfter(rest: seq<Group>, graph0: Graph, i: nat, graph: Graph)
    requires DistinctNames(rest) && RestGraph(rest, graph0) && i < |rest| && InCount(rest, rest[i].name) == 0
    requires graph.Keys == graph0.Keys - {rest[i].name}
    requires forall n :: n in graph ==>
      graph[n] == graph0[n].(inDegree := graph0[n].inDegree - multiset(Refs(rest[i]))[n])
    ensures RestGraph(Without(rest, i), graph)
  {
    forall n ensures RestNode(Without(rest, i), graph, n) {
      assert RestNode(rest, graph0, n);
      InCountWithout(rest, i, n);
      FindWithout(rest, i, n);
    }
  }

  lemma {:induction false} FindWithout(gs: seq<Group>, i: nat, n: string)
    requires DistinctNames(gs) && i < |gs|
    ensures Find(Without(gs, i), n) == if n == gs[i].name then None else Find(gs, n)
  {
    var less := Without(gs, i);
    if i == 0 {
      assert less == gs[1..];
      assert forall k :: 0 <= k < |less| ==> less[k].name != gs[0].name;
    } else {
      assert less[1..] == Without(gs[1..], i - 1) && less[0] == gs[0];
      FindWithout(gs[1..], i - 1, n);
    }
  }

  // The slice holds the placed groups from the back.
  ghost predicate InPlace(gs: seq<Group>, placed: seq<Group>) {
    |placed| <= |gs| && forall k :: 0 <= k < |placed| ==> gs[|gs| - 1 - k] == placed[k]
  }

  lemma PopReady(graph: Graph, queue: seq<string>, outward: bool)
    requires Ready(graph, queue, None, outward) && queue != []
    ensures Ready(graph, queue[1..], Some(queue[0]), outward) && queue[0] in graph &&
      Degree(graph[queue[0]], outward) == 0
  {
    var name, tail := queue[0], queue[1..];
    assert name in queue;
    forall n ensures n in tail <==> n in graph && Some(name) != Some(n) && Degree(graph[n], outward) == 0 {
      assert queue == [name] + tail;
      assert n in queue <==> n == name || n in tail;
      if n in tail {
        var i :| 0 <= i < |tail| && tail[i] == n;
        assert queue[i + 1] == n;
      }
    }
  }

  lemma ReadyAfter(graph: Graph, queue: seq<string>, name: string, outward: bool)
    requires Ready(graph, queue, Some(name), outward)
    ensures Ready(graph - {name}, queue, None, outward)
  {
  }

  // The loop body for a name that is no group: the node just goes.
  lemma SortingDropsProxy(all: seq<Group>, rest: seq<Group>, placed: seq<Group>, graph: Graph, name: string)
    requires Sorting(all, rest, placed, graph) && InCount(rest, name) == 0 && Find(rest, name).None?
    ensures Sorting(all, rest, placed, graph - {name})
  {
    var graph' := graph - {name};
    RemoveKeepsLoops(all, rest, placed, graph, graph', name);
    forall n ensures RestNode(rest, graph', n) { assert RestNode(rest, graph, n); }
  }

  // The loop body for a group: it is placed, its references are dropped, the node goes.
  lemma SortingPlacesGroup(all: seq<Group>, rest: seq<Group>, placed: seq<Group>, graph0: Graph, i: nat, graph: Graph)
    requires Sorting(all, rest, placed, graph0) && i < |rest| && InCount(rest, rest[i].name) == 0
    requires graph.Keys == graph0.Keys - {rest[i].name}
    requires forall n :: n in graph ==>
      graph[n] == graph0[n].(inDegree := graph0[n].inDegree - multiset(Refs(rest[i]))[n])
    ensures Sorting(all, Without(rest, i), placed + [rest[i]], graph)
  {
    MoveOne(all, rest, placed, i);
    PlaceOne(all, rest, placed, graph0, i);
    RestAfter(rest, graph0, i, graph);
    RemoveKeepsLoops(all, rest, placed, graph0, graph, rest[i].name);
  }

  lemma RefsAreThere(rest: seq<Group>, graph: Graph, i: nat)
    requires DistinctNames(rest) && RestGraph(rest, graph) && i < |rest| && InCount(rest, rest[i].name) == 0
    ensures rest[i].name !in Refs(rest[i])
    ensures forall n :: n in Refs(rest[i]) ==> n in graph && graph[n].inDegree >= multiset(Refs(rest[i]))[n]
  {
    NotListed(rest, i, rest[i].name);
    forall n | n in Refs(rest[i]) ensures n in graph && graph[n].inDegree >= multiset(Refs(rest[i]))[n] {
      assert RestNode(rest, graph, n);
      InCountWithout(rest, i, n);
    }
  }

  /** Writes the group into the next slot from the back and drops its references. */
  method PlaceGroup(groups: array<Group>, graph0: Graph, queue0: seq<string>, name: string, g: Group, index0: nat,
                    ghost placed: seq<Group>)
    returns (graph: Graph, queue: seq<string>, index: nat)
    requires Ready(graph0, queue0, Some(name), false) && name in graph0 && name !in Refs(g)
    requires forall n :: n in Refs(g) ==> n in graph0 && graph0[n].inDegree >= multiset(Refs(g))[n]
    requires index0 == |placed| < groups.Length && InPlace(groups[..], placed)
    modifies groups
    ensures graph.Keys == graph0.Keys && Ready(graph, queue, Some(name), false)
    ensures forall n :: n in graph0 && n != name ==>
      graph[n] == graph0[n].(inDegree := graph0[n].inDegree - multiset(Refs(g))[n])
    ensures index == index0 + 1 && InPlace(groups[..], placed + [g])
  {
    index := index0 + 1;
    groups[groups.Length - index] := g;
    graph, queue := graph0[name := graph0[name].(proto := None)], queue0;
    match g.proxies {
      case None =>
      case Some(refs) =>
        graph, queue := DropRefs(graph, queue, refs, name, false);
    }
  }

  /** One round of Kahn's pass. */
  method PlaceNext(groups: array<Group>, graph0: Graph, queue0: seq<string>, index0: nat,
                   ghost all: seq<Group>, ghost rest0: seq<Group>, ghost placed0: seq<Group>)
    returns (graph: Graph, queue: seq<string>, index: nat, ghost rest: seq<Group>, ghost placed: seq<Group>)
    requires Sorting(all, rest0, placed0, graph0) && Ready(graph0, queue0, None, false) && queue0 != []
    requires groups.Length == |all| && index0 == |placed0| && InPlace(groups[..], placed0)
    modifies groups
    ensures Sorting(all, rest, placed, graph) && Ready(graph, queue, None, false)
    ensures index == |placed| && InPlace(groups[..], placed) && |graph| < |graph0|
  {
    var name := queue0[0];
    PopReady(graph0, queue0, false);
    graph, queue, index, rest, placed := graph0, queue0[1..], index0, rest0, placed0;
    assert RestNode(rest0, graph0, name);
    var node := graph[name];
    match node.proto {
      case None =>
        SortingDropsProxy(all, rest, placed, graph, name);
      case Some(g) =>
        ghost var i :| 0 <= i < |rest0| && rest0[i] == g;
        Fits(all, rest0, placed0);
        RefsAreThere(rest0, graph0, i);
        graph, queue, index := PlaceGroup(groups, graph0, queue, name, g, index0, placed0);
        SortingPlacesGroup(all, rest0, placed0, graph0, i, graph - {name});
        rest, placed := Without(rest0, i), placed0 + [g];
    }
    ReadyAfter(graph, queue, name, false);
    Shrinks(graph, name);
    graph := graph - {name};
  }

  lemma Fits(all: seq<Group>, rest: seq<Group>, placed: seq<Group>)
    requires multiset(rest) + multiset(placed) == multiset(all)
    ensures |rest| + |placed| == |all|
  {
    assert |multiset(rest) + multiset(placed)| == |multiset(all)|;
  }

  lemma Shrinks(graph: Graph, name: string)
    requires name in graph
    ensures |graph - {name}| < |graph|
  {
    assert (graph - {name}).Keys == graph.Keys - {name};
    assert |(graph - {name}).Keys| == |graph - {name}| && |graph.Keys| == |graph|;
  }

  // `for (name, node) in graph.iter()`: the names of degree zero, in any order.
  method InitialQueue(graph: Graph, outward: bool) returns (queue: seq<string>)
    ensures Ready(graph, queue, None, outward)
  {
    queue := [];
    var todo := graph.Keys;
    while todo != {}
      invariant todo <= graph.Keys && Distinct(queue)
      invariant forall n :: n in queue <==> n in graph && n !in todo && Degree(graph[n], outward) == 0
      decreases |todo|
    {
      var name :| name in todo;
      ghost var before := queue;
      if Degree(graph[name], outward) == 0 {
        forall i | 0 <= i < |queue| ensures queue[i] != name { assert queue[i] in queue; }
        queue := queue + [name];
      }
      forall n ensures n in queue <==> n in graph && n !in todo - {name} && Degree(graph[n], outward) == 0 {
        assert n in before + [name] <==> n in before || n == name;
      }
      todo := todo - {name};
    }
  }

  lemma SortingStarts(all: seq<Group>, graph: Graph)
    requires DistinctNames(all) && Describes(all, multiset{}, graph)
    ensures Sorting(all, all, [], graph)
  {
    forall n ensures RestNode(all, graph, n) { assert NodeIs(all, multiset{}, graph, n); }
    forall s: set<string> | TwoSided(all, s) ensures s <= graph.Keys {
      forall n | n in s ensures n in graph {
        assert HasPred(all, s, n);
        InCountZero(all, n);
        assert RestNode(all, graph, n);
      }
    }
  }

  /** Kahn's pass.  What stays in the graph is referred to by a group that stayed. */
  method KahnPass(groups: array<Group>, graph0: Graph)
    returns (graph: Graph, ghost rest: seq<Group>, ghost placed: seq<Group>)
    requires DistinctNames(groups[..]) && Describes(groups[..], multiset{}, graph0)
    modifies groups
    ensures Sorting(old(groups[..]), rest, placed, graph) && InPlace(groups[..], placed)
    ensures forall n :: n in graph ==> graph[n].inDegree != 0
  {
    ghost var all := groups[..];
    graph, rest, placed := graph0, all, [];
    SortingStarts(all, graph);
    var index := 0;
    var queue := InitialQueue(graph, false);
    while queue != []
      invariant Sorting(all, rest, placed, graph) && Ready(graph, queue, None, false)
      invariant index == |placed| && InPlace(groups[..], placed)
      decreases |graph|
    {
      graph, queue, index, rest, placed := PlaceNext(groups, graph, queue, index, all, rest, placed);
    }
    forall n | n in graph ensures graph[n].inDegree != 0 { assert n !in queue; }
  }

  // ---------------------------------------------------------------- the loop report

  ghost function RefsOf(graph: Graph, m: string): seq<string> {
    if m in graph && graph[m].proto.Some? then Refs(graph[m].proto.value) else []
  }

  // The parents recorded for n so far: each of the names in `done`, as often as it lists n.
  ghost predicate FromNode(graph0: Graph, graph: Graph, done: set<string>, n: string) {
    n in graph0 ==>
      && n in graph && graph[n].proto == graph0[n].proto
      && graph[n].outdegree == (if n in done then |RefsOf(graph0, n)| else 0)
      && forall m :: multiset(graph[n].from)[m] == if m in done then multiset(RefsOf(graph0, m))[n] else 0
  }

  ghost predicate FromNodes(graph0: Graph, graph: Graph, done: set<string>) {
    graph.Keys == graph0.Keys &&
      forall n {:trigger FromNode(graph0, graph, done, n)} :: FromNode(graph0, graph, done, n)
  }

  // While the references of one group are recorded.
  ghost predicate FromPart(graph0: Graph, graph: Graph, name: string, refs: seq<string>, n: string) {
    n in graph0 ==>
      && n in graph && graph[n].proto == graph0[n].proto
      && graph[n].outdegree == graph0[n].outdegree + (if n == name then |refs| else 0)
      && forall m ::
           multiset(graph[n].from)[m] == multiset(graph0[n].from)[m] + if m == name then multiset(refs)[n] else 0
  }

  ghost predicate FromParts(graph0: Graph, graph: Graph, name: string, refs: seq<string>) {
    && graph.Keys == graph0.Keys
    && forall n {:trigger FromPart(graph0, graph, name, refs, n)} :: FromPart(graph0, graph, name, refs, n)
  }

  function RecordRef(graph: Graph, name: string, r: string): Graph
    requires name in graph && r in graph
  {
    var counted := graph[name := graph[name].(outdegree := graph[name].outdegree + 1)];
    counted[r := counted[r].(from := counted[r].from + [name])]
  }

  lemma RecordedRef(graph0: Graph, graph: Graph, name: string, done: seq<string>, r: string)
    requires name in graph0 && r in graph0 && FromParts(graph0, graph, name, done)
    ensures FromParts(graph0, RecordRef(graph, name, r), name, done + [r])
  {
    var graph', done' := RecordRef(graph, name, r), done + [r];
    forall n ensures FromPart(graph0, graph', name, done', n) {
      assert FromPart(graph0, graph, name, done, n);
      assert multiset(done')[n] == multiset(done)[n] + if n == r then 1 else 0;
    }
  }

  method RecordRefs(graph0: Graph, name: string, refs: seq<string>) returns (graph: Graph)
    requires name in graph0 && forall r :: r in refs ==> r in graph0
    ensures FromParts(graph0, graph, name, refs)
  {
    graph := graph0;
    assert FromParts(graph0, graph, name, []);
    for k := 0 to |refs|
      invariant FromParts(graph0, graph, name, refs[..k])
    {
      RecordedRef(graph0, graph, name, refs[..k], refs[k]);
      assert refs[..k + 1] == refs[..k] + [refs[k]];
      graph := RecordRef(graph, name, refs[k]);
    }
    assert refs[..|refs|] == refs;
  }

  /** Counts, for what Kahn's pass left, the references each group makes, and records at
      each name who lists it. */
  method RecordParents(graph0: Graph) returns (graph: Graph)
    requires forall n :: n in graph0 ==> graph0[n].outdegree == 0 && graph0[n].from == []
    requires forall m, r :: m in graph0 && r in RefsOf(graph0, m) ==> r in graph0
    ensures FromNodes(graph0, graph, graph0.Keys)
  {
    graph := graph0;
    var todo := graph.Keys;
    assert FromNodes(graph0, graph, graph0.Keys - todo);
    while todo != {}
      invariant todo <= graph0.Keys && FromNodes(graph0, graph, graph0.Keys - todo)
      decreases |todo|
    {
      var name :| name in todo;
      assert FromNode(graph0, graph, graph0.Keys - todo, name);
      ghost var before := graph;
      match graph[name].proto {
        case None =>
        case Some(g) =>
          match g.proxies {
            case None =>
            case Some(proxies) => graph := RecordRefs(graph, name, proxies);
          }
      }
      RecordedOne(graph0, before, graph, graph0.Keys - todo, name);
      assert graph0.Keys - (todo - {name}) == graph0.Keys - todo + {name};
      todo := todo - {name};
    }
    assert graph0.Keys - todo == graph0.Keys;
  }

  lemma RecordedOne(graph0: Graph, before: Graph, graph: Graph, done: set<string>, name: string)
    requires FromNodes(graph0, before, done) && name in graph0 && name !in done && graph.Keys == before.Keys
    requires (graph == before && RefsOf(graph0, name) == []) || FromParts(before, graph, name, RefsOf(graph0, name))
    ensures FromNodes(graph0, graph, done + {name})
  {
    forall n ensures FromNode(graph0, graph, done + {name}, n) {
      assert FromNode(graph0, before, done, n);
      if !(graph == before && RefsOf(graph0, name) == []) {
        assert FromPart(before, graph, name, RefsOf(graph0, name), n);
      }
    }
  }

  // How many of the listed names are in a set.
  ghost function OutCount(refs: seq<string>, keys: set<string>): nat {
    if refs == [] then 0 else (if refs[0] in keys then 1 else 0) + OutCount(refs[1..], keys)
  }

  lemma {:induction false} OutCountRemove(refs: seq<string>, keys: set<string>, x: string)
    requires x in keys
    ensures OutCount(refs, keys) == OutCount(refs, keys - {x}) + multiset(refs)[x]
  {
    if refs != [] {
      OutCountRemove(refs[1..], keys, x);
      assert refs == [refs[0]] + refs[1..];
    }
  }

  lemma {:induction false} OutCountAll(refs: seq<string>, keys: set<string>)
    requires forall r :: r in refs ==> r in keys
    ensures OutCount(refs, keys) == |refs|
  {
    if refs != [] { OutCountAll(refs[1..], keys); }
  }

  lemma {:induction false} OutCountZero(refs: seq<string>, keys: set<string>)
    ensures OutCount(refs, keys) == 0 <==> forall r :: r in refs ==> r !in keys
  {
    if refs != [] {
      OutCountZero(refs[1..], keys);
      assert forall r :: r in refs <==> r == refs[0] || r in refs[1..];
    }
  }

  // Groups that are still there list exactly what the configuration says.
  ghost predicate SameEdges(all: seq<Group>, graph: Graph) {
    forall m, n {:trigger Edge(all, m, n)} :: m in graph ==> (Edge(all, m, n) <==> n in RefsOf(graph, m))
  }

  lemma EdgesLeft(all: seq<Group>, rest: seq<Group>, placed: seq<Group>, graph: Graph)
    requires Sorting(all, rest, placed, graph)
    ensures SameEdges(all, graph)
  {
    forall m, n | m in graph ensures Edge(all, m, n) <==> n in RefsOf(graph, m) {
      assert RestNode(rest, graph, m);
      if n in RefsOf(graph, m) {
        var g := graph[m].proto.value;
        assert g in multiset(rest) + multiset(placed);
        assert g in all;
      }
      if Edge(all, m, n) {
        var g :| g in all && g.name == m && n in Refs(g);
        assert g in multiset(all);
        RestOrPlaced(rest, placed, g);
        assert g in rest;
        var i :| 0 <= i < |rest| && rest[i] == g;
        FindUnique(rest, i);
      }
    }
  }

  // What Kahn's pass left over: everything is referred to from inside, and nothing refers
  // outside.
  lemma LeftOver(all: seq<Group>, rest: seq<Group>, placed: seq<Group>, graph: Graph)
    requires Sorting(all, rest, placed, graph) && forall n :: n in graph ==> graph[n].inDegree != 0
    ensures AllHavePred(all, graph.Keys)
    ensures forall m, r :: m in graph && r in RefsOf(graph, m) ==> r in graph
  {
    forall n | n in graph ensures HasPred(all, graph.Keys, n) {
      ListedFrom(all, rest, placed, graph, n);
    }
    forall m, r | m in graph && r in RefsOf(graph, m) ensures r in graph {
      RefStays(rest, graph, m, r);
    }
  }

  lemma RefStays(rest: seq<Group>, graph: Graph, m: string, r: string)
    requires RestGraph(rest, graph) && m in graph && r in RefsOf(graph, m)
    ensures r in graph
  {
    assert RestNode(rest, graph, m) && RestNode(rest, graph, r);
    InCountZero(rest, r);
    var i :| 0 <= i < |rest| && rest[i] == graph[m].proto.value;
  }

  lemma ListedFrom(all: seq<Group>, rest: seq<Group>, placed: seq<Group>, graph: Graph, n: string)
    requires Sorting(all, rest, placed, graph) && n in graph && graph[n].inDegree != 0
    ensures HasPred(all, graph.Keys, n)
  {
    assert RestNode(rest, graph, n);
    InCountZero(rest, n);
    var i :| 0 <= i < |rest| && n in Refs(rest[i]);
    assert RestNode(rest, graph, rest[i].name);
    FindUnique(rest, i);
    assert rest[i] in multiset(rest) + multiset(placed);
    assert Edge(all, rest[i].name, n);
  }

  // ---------------------------------------------------------------- peeling

  // Every parent is recorded as often as it lists the name.
  ghost predicate ParentsKnown(graph: Graph) {
    forall n, m {:trigger multiset(graph[n].from)[m]} :: n in graph ==>
      multiset(graph[n].from)[m] == multiset(RefsOf(graph, m))[n]
  }

  ghost predicate PeelNode(full: Graph, graph: Graph, n: string) {
    && (n in graph ==>
          n in full && graph[n].proto == full[n].proto && graph[n].from == full[n].from &&
          graph[n].outdegree == OutCount(RefsOf(full, n), graph.Keys))
    && (n in full && n !in graph ==> OutCount(RefsOf(full, n), graph.Keys) == 0)
  }

  // `full` is the graph before peeling.
  ghost predicate PeelNodes(full: Graph, graph: Graph) {
    forall n {:trigger PeelNode(full, graph, n)} :: PeelNode(full, graph, n)
  }

  ghost predicate Peeling(all: seq<Group>, full: Graph, graph: Graph) {
    && SameEdges(all, full) && ParentsKnown(full)
    && PeelNodes(full, graph)
    && AllHavePred(all, graph.Keys) && KeepsLoops(all, graph)
  }

  // The parents of a name that is still there are there too, and count it.
  lemma ParentsAreThere(all: seq<Group>, full: Graph, graph: Graph, name: string)
    requires Peeling(all, full, graph) && name in graph && graph[name].outdegree == 0
    ensures name !in graph[name].from
    ensures forall m :: m in graph[name].from ==> m in graph && graph[m].outdegree >= multiset(graph[name].from)[m]
  {
    assert PeelNode(full, graph, name);
    OutCountRemove(RefsOf(full, name), graph.Keys, name);
    assert multiset(full[name].from)[name] == 0;
    forall m | m in graph[name].from ensures m in graph && graph[m].outdegree >= multiset(graph[name].from)[m] {
      assert multiset(full[name].from)[m] > 0;
      assert PeelNode(full, graph, m);
      OutCountRemove(RefsOf(full, m), graph.Keys, name);
    }
  }

  // Taking away a name that refers to nothing that is left.
  lemma PeelOne(all: seq<Group>, full: Graph, graph0: Graph, graph: Graph, name: string)
    requires Peeling(all, full, graph0) && name in graph0 && graph0[name].outdegree == 0
    requires graph.Keys == graph0.Keys - {name}
    requires forall n :: n in graph ==>
      graph[n] == graph0[n].(outdegree := graph0[n].outdegree - multiset(graph0[name].from)[n])
    ensures Peeling(all, full, graph)
  {
    assert PeelNode(full, graph0, name);
    forall n ensures PeelNode(full, graph, n) {
      assert PeelNode(full, graph0, n);
      OutCountRemove(RefsOf(full, n), graph0.Keys, name);
      assert multiset(full[name].from)[n] == multiset(RefsOf(full, n))[name];
    }
    NothingListed(all, full, graph0, name);
    forall n | n in graph ensures HasPred(all, graph.Keys, n) {
      assert HasPred(all, graph0.Keys, n);
    }
    forall s: set<string> | TwoSided(all, s) ensures s <= graph.Keys {
      assert s <= graph0.Keys;
      var inside := HasSucc(all, s, name);
    }
  }

  lemma NothingListed(all: seq<Group>, full: Graph, graph: Graph, name: string)
    requires Peeling(all, full, graph) && name in graph && graph[name].outdegree == 0
    ensures forall m :: m in graph ==> !Edge(all, name, m)
  {
    assert PeelNode(full, graph, name);
    OutCountZero(RefsOf(full, name), graph.Keys);
  }

  /** The second pass: takes away, again and again, what refers to nothing that is left. */
  method PeelPass(full: Graph, ghost all: seq<Group>) returns (graph: Graph)
    requires Peeling(all, full, full)
    ensures Peeling(all, full, graph) && forall n :: n in graph ==> graph[n].outdegree != 0
  {
    graph := full;
    var queue := InitialQueue(graph, true);
    while queue != []
      invariant Peeling(all, full, graph) && Ready(graph, queue, None, true)
      decreases |graph|
    {
      var name := queue[0];
      PopReady(graph, queue, true);
      ParentsAreThere(all, full, graph, name);
      var graph', queue' := DropRefs(graph, queue[1..], graph[name].from, name, true);
      ReadyAfter(graph', queue', name, true);
      PeelOne(all, full, graph, graph' - {name}, name);
      Shrinks(graph, name);
      assert (graph' - {name}).Keys == (graph - {name}).Keys;
      assert |graph' - {name}| == |(graph' - {name}).Keys| && |graph - {name}| == |(graph - {name}).Keys|;
      graph, queue := graph' - {name}, queue';
    }
    forall n | n in graph ensures graph[n].outdegree != 0 { assert n !in queue; }
  }

  lemma PeelingStarts(all: seq<Group>, rest: seq<Group>, placed: seq<Group>, graph0: Graph, full: Graph)
    requires Sorting(all, rest, placed, graph0) && forall n :: n in graph0 ==> graph0[n].inDegree != 0
    requires FromNodes(graph0, full, graph0.Keys)
    ensures Peeling(all, full, full)
  {
    LeftOver(all, rest, placed, graph0);
    EdgesLeft(all, rest, placed, graph0);
    forall m ensures RefsOf(full, m) == RefsOf(graph0, m) {
      assert FromNode(graph0, full, graph0.Keys, m);
    }
    forall n ensures PeelNode(full, full, n) {
      assert FromNode(graph0, full, graph0.Keys, n);
      OutCountAll(RefsOf(full, n), full.Keys);
    }
    forall n, m | n in full ensures multiset(full[n].from)[m] == multiset(RefsOf(full, m))[n] {
      assert FromNode(graph0, full, graph0.Keys, n);
    }
  }

  // ---------------------------------------------------------------- the result

  /** Every group comes after the groups it lists. */
  ghost predicate Sorted(gs: seq<Group>) {
    forall i, j :: 0 <= i < |gs| && 0 <= j < |gs| && gs[j].name in Refs(gs[i]) ==> j < i
  }

  /** The names on loops: the largest set in which everything refers to and is referred to
      by something inside. */
  ghost predicate LargestLoop(all: seq<Group>, names: set<string>) {
    && TwoSided(all, names)
    && (forall s: set<string> {:trigger TwoSided(all, s)} :: TwoSided(all, s) ==> s <= names)
  }

  lemma PeeledIsLargest(all: seq<Group>, full: Graph, graph: Graph)
    requires Peeling(all, full, graph) && forall n :: n in graph ==> graph[n].outdegree != 0
    ensures LargestLoop(all, graph.Keys)
  {
    forall n | n in graph ensures HasSucc(all, graph.Keys, n) {
      assert PeelNode(full, graph, n);
      OutCountZero(RefsOf(full, n), graph.Keys);
      var m :| m in RefsOf(full, n) && m in graph.Keys;
      assert Edge(all, n, m);
    }
  }

  lemma SortedWhenAllPlaced(all: seq<Group>, rest: seq<Group>, placed: seq<Group>, graph: Graph, gs: seq<Group>)
    requires Sorting(all, rest, placed, graph) && graph == map[] && InPlace(gs, placed) && |gs| == |all|
    ensures multiset(gs) == multiset(all) && Sorted(gs) && Acyclic(all)
  {
    var first := rest != [] && RestNode(rest, graph, rest[0].name);
    assert rest == [];
    Fits(all, rest, placed);
    assert gs == Reverse(placed);
    MultisetReverse(placed);
    forall path ensures !Cycle(all, path) {
      if Cycle(all, path) {
        CycleIsTwoSided(all, path);
        CycleHasMembers(all, path);
      }
    }
  }

  lemma {:induction false} MultisetReverse<T>(s: seq<T>)
    ensures multiset(Reverse(s)) == multiset(s)
  {
    if s != [] {
      MultisetReverse(s[1..]);
      assert s == [s[0]] + s[1..];
      assert Reverse(s) == Reverse(s[1..]) + [s[0]];
    }
  }

  /** `proxy_groups_dag_sort`.  It succeeds exactly when names are distinct and no group
      refers to itself through others; then the slice is a permutation in which references
      come first.  Otherwise it names a repeated group, or the groups on loops. */
  method DagSort(groups: array<Group>) returns (error: Option<SortError>)
    modifies groups
    ensures error.None? <==> DistinctNames(old(groups[..])) && Acyclic(old(groups[..]))
    ensures error.None? ==> multiset(groups[..]) == multiset(old(groups[..])) && Sorted(groups[..])
    ensures error.Some? && error.value.DuplicateName? ==> FirstRepeated(old(groups[..]), error.value.name)
    ensures error.Some? && error.value.LoopDetected? ==>
      DistinctNames(old(groups[..])) && LargestLoop(old(groups[..]), error.value.names) && error.value.names != {}
  {
    ghost var all := groups[..];
    var duplicate, graph0 := BuildGraph(groups[..]);
    if duplicate.Some? {
      return Some(DuplicateName(duplicate.value));
    }
    var graph, rest, placed := KahnPass(groups, graph0);
    if |graph| == 0 {
      SortedWhenAllPlaced(all, rest, placed, graph, groups[..]);
      return None;
    }
    RestIsQuiet(all, rest, placed, graph);
    var full := RecordParents(graph);
    PeelingStarts(all, rest, placed, graph, full);
    var looped := PeelPass(full, all);
    PeeledIsLargest(all, full, looped);
    ghost var path := PredsGiveCycle(all, graph.Keys);
    CycleIsTwoSided(all, path);
    CycleHasMembers(all, path);
    error := Some(LoopDetected(looped.Keys));
  }

  lemma RestIsQuiet(all: seq<Group>, rest: seq<Group>, placed: seq<Group>, graph: Graph)
    requires Sorting(all, rest, placed, graph) && forall n :: n in graph ==> graph[n].inDegree != 0
    ensures forall n :: n in graph ==> graph[n].outdegree == 0 && graph[n].from == []
    ensures forall m, r :: m in graph && r in RefsOf(graph, m) ==> r in graph
    ensures AllHavePred(all, graph.Keys)
  {
    forall n | n in graph ensures graph[n].outdegree == 0 && graph[n].from == [] {
      assert RestNode(rest, graph, n);
    }
    LeftOver(all, rest, placed, graph);
  }

  /** Loop reports hold groups only, and every group on a cycle. */
  lemma LoopReport(all: seq<Group>, names: set<string>)
    requires LargestLoop(all, names)
    ensures forall n :: n in names ==> exists g :: g in all && g.name == n
    ensures forall path :: Cycle(all, path) ==> forall n :: n in path ==> n in names
  {
    forall n | n in names ensures exists g :: g in all && g.name == n {
      assert HasSucc(all, names, n);
    }
    forall path | Cycle(all, path) ensures forall n :: n in path ==> n in names {
      CycleIsTwoSided(all, path);
      forall n | n in path ensures n in names { assert n in Members(path); }
    }
  }
}
