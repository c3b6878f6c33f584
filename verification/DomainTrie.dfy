/** The domain trie of clash-lib/src/common/trie.rs.

    A node owns its children, so the mutable reference that `insert_inner` moves down the
    tree is modelled by the path from the root to the node it points at. */
module DomainTrie {
  import opened Basics
  import opened DomainNames

  datatype Node<T> = Node(children: map<string, Node<T>>, data: Option<T>)

  // ---------------------------------------------------------------- nodes by path

  function NodeAt<T>(n: Node<T>, path: seq<string>): Option<Node<T>> {
    if path == [] then Some(n)
    else if path[0] in n.children then NodeAt(n.children[path[0]], path[1..])
    else None
  }

  // The data stored at the end of a path.
  function Lookup<T>(n: Node<T>, path: seq<string>): Option<T> {
    match NodeAt(n, path)
    case Some(m) => m.data
    case None => None
  }

  // The tree with the node at a path replaced.
  function Put<T>(n: Node<T>, path: seq<string>, m: Node<T>): Node<T>
    requires NodeAt(n, path).Some?
  {
    if path == [] then m
    else n.(children := n.children[path[0] := Put(n.children[path[0]], path[1..], m)])
  }

  lemma {:induction false} NodeAtPut<T>(n: Node<T>, path: seq<string>, m: Node<T>, p: seq<string>)
    requires NodeAt(n, path).Some?
    ensures path <= p ==>
      NodeAt(Put(n, path, m), p) == NodeAt(m, p[|path|..]) && NodeAt(n, p) == NodeAt(NodeAt(n, path).value, p[|path|..])
    ensures !(path <= p) && !(p <= path) ==> NodeAt(Put(n, path, m), p) == NodeAt(n, p)
    ensures p <= path && p != path ==>
      NodeAt(n, p).Some? && NodeAt(Put(n, path, m), p).Some? &&
        NodeAt(Put(n, path, m), p).value.data == NodeAt(n, p).value.data
  {
    if path != [] && p != [] && p[0] == path[0] {
      NodeAtPut(n.children[path[0]], path[1..], m, p[1..]);
      assert path <= p <==> path[1..] <= p[1..];
      assert p <= path <==> p[1..] <= path[1..];
      if path <= p { assert p[|path|..] == p[1..][|path[1..]|..]; }
    }
  }

  // Adding an empty child makes one more path and stores nothing.
  lemma AddChildAt<T>(n: Node<T>, at: seq<string>, part: string, p: seq<string>)
    requires NodeAt(n, at).Some? && part !in NodeAt(n, at).value.children
    ensures var m := NodeAt(n, at).value;
      var n' := Put(n, at, m.(children := m.children[part := Node(map[], None)]));
      && (NodeAt(n', p).Some? <==> NodeAt(n, p).Some? || p == at + [part])
      && Lookup(n', p) == Lookup(n, p)
  {
    var m := NodeAt(n, at).value;
    var m' := m.(children := m.children[part := Node(map[], None)]);
    NodeAtPut(n, at, m', p);
    if at <= p {
      var q := p[|at|..];
      assert p == at + q;
      if q != [] && q[0] == part {
        assert p == at + [part] <==> q[1..] == [] by {
          if q[1..] == [] { assert q == [part]; }
        }
      }
    }
  }

  lemma SetDataAt<T>(n: Node<T>, at: seq<string>, data: T, p: seq<string>)
    requires NodeAt(n, at).Some?
    ensures var n' := Put(n, at, NodeAt(n, at).value.(data := Some(data)));
      && (NodeAt(n', p).Some? <==> NodeAt(n, p).Some?)
      && Lookup(n', p) == (if p == at then Some(data) else Lookup(n, p))
  {
    NodeAtPut(n, at, NodeAt(n, at).value.(data := Some(data)), p);
    if at <= p { assert p == at + p[|at|..]; }
  }

  // ---------------------------------------------------------------- what was inserted

  // The paths that a pattern stores its data at, rightmost label first.
  function PathsOf(pattern: string): set<seq<string>> {
    match ValidAndSplit(pattern)
    case None => {}
    case Some(parts) =>
      if parts[0] == "+" then {Reverse(parts[1..]), Reverse([""] + parts[1..])}
      else {Reverse(parts)}
  }

  // The data that the last pattern inserted for a path came with.
  function LastFor<T>(history: seq<(string, T)>, path: seq<string>): Option<T> {
    if history == [] then None
    else
      var (pattern, data) := history[|history| - 1];
      if path in PathsOf(pattern) then Some(data) else LastFor(history[..|history| - 1], path)
  }

  // An empty label ends its path and holds data.
  ghost predicate DotsHoldData<T>(n: Node<T>) {
    forall p :: NodeAt(n, p).Some? && p != [] && p[|p| - 1] == "" ==> Lookup(n, p).Some?
  }

  // The tree stores, for every path, what was inserted last for it.
  ghost predicate Stores<T>(n: Node<T>, history: seq<(string, T)>) {
    DotsHoldData(n) && forall p :: Lookup(n, p) == LastFor(history, p)
  }

  predicate Begins(p: seq<string>, path: seq<string>) {
    p <= path
  }

  // What one insertion changes: the nodes on the path exist, and its end holds the data.
  ghost predicate Inserted<T>(n: Node<T>, n': Node<T>, path: seq<string>, data: T) {
    && (forall p :: NodeAt(n', p).Some? <==> NodeAt(n, p).Some? || Begins(p, path))
    && (forall p :: Lookup(n', p) == if p == path then Some(data) else Lookup(n, p))
  }

  lemma DotsKept<T>(n: Node<T>, n': Node<T>, path: seq<string>, data: T)
    requires Inserted(n, n', path, data) && DotsHoldData(n)
    requires forall i :: 0 <= i < |path| - 1 ==> path[i] != ""
    ensures DotsHoldData(n')
  {
    forall p | NodeAt(n', p).Some? && p != [] && p[|p| - 1] == "" ensures Lookup(n', p).Some? {
      if Begins(p, path) { assert p[|p| - 1] == path[|p| - 1]; }
    }
  }

  // The paths of a pattern have an empty label at the end only.
  lemma PathsEndInDots(parts: seq<string>, path: seq<string>)
    requires parts != [] && forall i :: 1 <= i < |parts| ==> parts[i] != ""
    requires path == Reverse(parts) || path == Reverse(parts[1..]) || path == Reverse([""] + parts[1..])
    ensures forall i :: 0 <= i < |path| - 1 ==> path[i] != ""
  {
  }

  lemma StoresOneMore<T>(n: Node<T>, history: seq<(string, T)>, n': Node<T>, domain: string, data: T)
    requires Stores(n, history) && DotsHoldData(n')
    requires forall p :: Lookup(n', p) == if p in PathsOf(domain) then Some(data) else Lookup(n, p)
    ensures Stores(n', history + [(domain, data)])
  {
    var more := history + [(domain, data)];
    assert more[..|more| - 1] == history;
  }

  class StringTrie<T> {
    var root: Node<T>
    ghost var history: seq<(string, T)>

    ghost predicate Valid()
      reads this
    {
      Stores(root, history)
    }

    constructor ()
      ensures Valid() && history == []
    {
      root := Node(map[], None);
      history := [];
      new;
      forall p ensures Lookup(root, p) == None {
        assert p != [] ==> p[0] !in root.children;
      }
    }

    /** `insert_inner`: makes the missing nodes on the way and stores at the end. */
    method InsertInner(parts: seq<string>, data: T)
      modifies this`root
      ensures Inserted(old(root), root, Reverse(parts), data)
    {
      ghost var path := Reverse(parts);
      var at: seq<string> := [];
      assert NodeAt(root, at) == Some(root);
      forall p | Begins(p, at) ensures NodeAt(root, p).Some? { assert p == []; }
      for i := |parts| downto 0
        invariant at == path[..|parts| - i]
        invariant NodeAt(root, at).Some?
        invariant forall p :: NodeAt(root, p).Some? <==> NodeAt(old(root), p).Some? || Begins(p, at)
        invariant forall p :: Lookup(root, p) == Lookup(old(root), p)
      {
        var part := parts[i];
        var node := NodeAt(root, at).value;
        ghost var before := root;
        if part !in node.children {
          root := Put(root, at, node.(children := node.children[part := Node(map[], None)]));
          forall p
            ensures NodeAt(root, p).Some? <==> NodeAt(before, p).Some? || p == at + [part]
            ensures Lookup(root, p) == Lookup(before, p)
          {
            AddChildAt(before, at, part, p);
          }
        } else {
          ChildAt(root, at, part);
        }
        forall p ensures Begins(p, at + [part]) <==> Begins(p, at) || p == at + [part] {
          OneLonger(at, part, p);
        }
        at := at + [part];
      }
      ghost var before := root;
      root := Put(root, at, NodeAt(root, at).value.(data := Some(data)));
      forall p
        ensures NodeAt(root, p).Some? <==> NodeAt(before, p).Some?
        ensures Lookup(root, p) == if p == at then Some(data) else Lookup(before, p)
      {
        SetDataAt(before, at, data, p);
      }
    }

    /** `insert`: a `+` pattern is stored twice, without it and as a leading dot. */
    method Insert(domain: string, data: T) returns (ok: bool)
      requires Valid()
      modifies this
      ensures Valid() && history == old(history) + [(domain, data)]
      ensures ok == ValidAndSplit(domain).Some?
    {
      ghost var was, before := root, history;
      match ValidAndSplit(domain) {
        case None =>
          ok := false;
        case Some(parts) =>
          ValidParts(domain);
          if parts[0] == "+" {
            InsertInner(parts[1..], data);
            PathsEndInDots(parts, Reverse(parts[1..]));
            DotsKept(was, root, Reverse(parts[1..]), data);
            ghost var mid := root;
            InsertInner([""] + parts[1..], data);
            PathsEndInDots(parts, Reverse([""] + parts[1..]));
            DotsKept(mid, root, Reverse([""] + parts[1..]), data);
          } else {
            InsertInner(parts, data);
            PathsEndInDots(parts, Reverse(parts));
            DotsKept(was, root, Reverse(parts), data);
          }
          ok := true;
      }
      history := history + [(domain, data)];
      StoresOneMore(was, before, root, domain, data);
    }
  }

  lemma {:induction false} ChildAt<T>(n: Node<T>, at: seq<string>, part: string)
    requires NodeAt(n, at).Some? && part in NodeAt(n, at).value.children
    ensures NodeAt(n, at + [part]) == Some(NodeAt(n, at).value.children[part])
  {
    if at != [] {
      assert (at + [part])[1..] == at[1..] + [part];
      ChildAt(n.children[at[0]], at[1..], part);
    }
  }

  lemma OneLonger(at: seq<string>, part: string, p: seq<string>)
    ensures Begins(p, at + [part]) <==> Begins(p, at) || p == at + [part]
  {
    var more := at + [part];
    if Begins(p, more) && p != more {
      assert p == more[..|p|] == at[..|p|];
    }
  }

  // ---------------------------------------------------------------- search

  /** `search_inner`: the rightmost label first exactly, then as `*`, then as a dot. */
  function SearchInner<T>(n: Node<T>, parts: seq<string>): Option<Node<T>> {
    if parts == [] then Some(n)
    else
      var last, init := parts[|parts| - 1], parts[..|parts| - 1];
      var exact := if last in n.children then SearchInner(n.children[last], init) else None;
      if exact.Some? && exact.value.data.Some? then exact
      else
        var wild := if "*" in n.children then SearchInner(n.children["*"], init) else None;
        if wild.Some? && wild.value.data.Some? then wild
        else if "" in n.children then Some(n.children[""]) else None
  }

  /** `search` */
  function Search<T>(n: Node<T>, domain: string): Option<Node<T>> {
    match ValidAndSplit(domain)
    case None => None
    case Some(parts) =>
      if parts[0] == "" then None
      else
        var r := SearchInner(n, parts);
        if r.Some? && r.value.data.Some? then r else None
  }

  // A path matches labels, both rightmost first: `*` stands for any one label and a final
  // empty label for one or more.
  predicate PathMatches(p: seq<string>, labels: seq<string>) {
    if p == [] then labels == []
    else if labels == [] then false
    else if p[0] == "" then |p| == 1
    else (p[0] == labels[0] || p[0] == "*") && PathMatches(p[1..], labels[1..])
  }

  // How early a label of a path is tried.
  function Order(label': string, against: string): nat {
    if label' == against then 0 else if label' == "*" then 1 else 2
  }

  // p is tried before r: they part at some label, where p's is tried earlier.
  ghost predicate TriedBefore(p: seq<string>, r: seq<string>, labels: seq<string>) {
    exists i: nat :: PartsAt(p, r, labels, i)
  }

  predicate PartsAt(p: seq<string>, r: seq<string>, labels: seq<string>, i: nat) {
    i < |p| && i < |r| && i < |labels| && p[..i] == r[..i] && Order(p[i], labels[i]) < Order(r[i], labels[i])
  }

  // The first path, in the order they are tried, that matches and holds data.
  ghost predicate FirstMatch<T>(n: Node<T>, labels: seq<string>, p: seq<string>) {
    && PathMatches(p, labels) && Lookup(n, p).Some?
    && forall r :: PathMatches(r, labels) && Lookup(n, r).Some? ==> r == p || TriedBefore(p, r, labels)
  }

  ghost predicate NoMatch<T>(n: Node<T>, labels: seq<string>) {
    forall r :: PathMatches(r, labels) ==> Lookup(n, r).None?
  }

  // Either a first match and its node are found, or nothing that holds data is.
  ghost predicate Finds<T>(n: Node<T>, labels: seq<string>, found: Option<Node<T>>) {
    if found.Some? && found.value.data.Some?
    then exists p :: FirstMatch(n, labels, p) && NodeAt(n, p) == found
    else NoMatch(n, labels)
  }

  lemma StepDown<T>(n: Node<T>, l: string, p: seq<string>)
    requires l in n.children
    ensures NodeAt(n, [l] + p) == NodeAt(n.children[l], p)
    ensures Lookup(n, [l] + p) == Lookup(n.children[l], p)
  {
    assert ([l] + p)[1..] == p;
  }

  lemma DotsBelow<T>(n: Node<T>, l: string)
    requires DotsHoldData(n) && l in n.children
    ensures DotsHoldData(n.children[l])
    ensures l == "" ==> n.children[l].data.Some?
  {
    forall p | NodeAt(n.children[l], p).Some? && p != [] && p[|p| - 1] == "" ensures Lookup(n.children[l], p).Some? {
      StepDown(n, l, p);
      assert ([l] + p)[|p|] == "";
    }
    StepDown(n, l, []);
    assert Lookup(n, [l] + []) == n.children[l].data;
  }

  ghost predicate MatchVia<T>(n: Node<T>, labels: seq<string>, l: string, r: seq<string>) {
    r != [] && r[0] == l && PathMatches(r, labels) && Lookup(n, r).Some?
  }

  // The first match among the paths that begin with one label.
  ghost predicate FirstVia<T>(n: Node<T>, labels: seq<string>, l: string, p: seq<string>) {
    && MatchVia(n, labels, l, p)
    && forall r :: MatchVia(n, labels, l, r) ==> r == p || TriedBefore(p, r, labels)
  }

  // What trying one label finds.
  ghost predicate FindsVia<T>(n: Node<T>, labels: seq<string>, l: string, found: Option<Node<T>>) {
    if found.Some? && found.value.data.Some?
    then exists p :: FirstVia(n, labels, l, p) && NodeAt(n, p) == found
    else forall r :: !MatchVia(n, labels, l, r)
  }

  lemma TriedBeforeBelow(l: string, p: seq<string>, r: seq<string>, first: string, labels: seq<string>)
    requires TriedBefore(p, r, labels)
    ensures TriedBefore([l] + p, [l] + r, [first] + labels)
  {
    var i: nat :| PartsAt(p, r, labels, i);
    assert ([l] + p)[..i + 1] == [l] + p[..i] == [l] + r[..i] == ([l] + r)[..i + 1];
    assert PartsAt([l] + p, [l] + r, [first] + labels, i + 1);
  }

  // Trying a label is searching below the child.
  lemma MatchBelow<T>(n: Node<T>, labels: seq<string>, l: string, r: seq<string>)
    requires labels != [] && l != "" && (l == labels[0] || l == "*") && l in n.children
    requires r != [] && r[0] == l
    ensures MatchVia(n, labels, l, r) <==> PathMatches(r[1..], labels[1..]) && Lookup(n.children[l], r[1..]).Some?
  {
  }

  lemma FirstBelow<T>(n: Node<T>, labels: seq<string>, l: string, q: seq<string>)
    requires labels != [] && l != "" && (l == labels[0] || l == "*") && l in n.children
    requires FirstMatch(n.children[l], labels[1..], q)
    ensures FirstVia(n, labels, l, [l] + q) && NodeAt(n, [l] + q) == NodeAt(n.children[l], q)
  {
    StepDown(n, l, q);
    assert ([l] + q)[1..] == q;
    MatchBelow(n, labels, l, [l] + q);
    forall r | MatchVia(n, labels, l, r) ensures r == [l] + q || TriedBefore([l] + q, r, labels) {
      MatchBelow(n, labels, l, r);
      assert r == [l] + r[1..] && labels == [labels[0]] + labels[1..];
      if r[1..] != q { TriedBeforeBelow(l, q, r[1..], labels[0], labels[1..]); }
    }
  }

  lemma SearchVia<T>(n: Node<T>, labels: seq<string>, l: string, found: Option<Node<T>>)
    requires labels != [] && l != "" && (l == labels[0] || l == "*")
    requires if l in n.children then Finds(n.children[l], labels[1..], found) else found.None?
    ensures FindsVia(n, labels, l, found)
  {
    if found.Some? && found.value.data.Some? {
      var q :| FirstMatch(n.children[l], labels[1..], q) && NodeAt(n.children[l], q) == found;
      FirstBelow(n, labels, l, q);
    } else {
      forall r ensures !MatchVia(n, labels, l, r) {
        if r != [] && r[0] == l && l in n.children { MatchBelow(n, labels, l, r); }
      }
    }
  }

  // Every match begins with the exact label, with `*` or with the empty label.
  lemma MatchBegins<T>(n: Node<T>, labels: seq<string>, r: seq<string>)
    requires labels != [] && labels[0] != ""
    ensures PathMatches(r, labels) && Lookup(n, r).Some? <==>
      MatchVia(n, labels, labels[0], r) || MatchVia(n, labels, "*", r) || MatchVia(n, labels, "", r)
    ensures MatchVia(n, labels, "", r) <==> r == [""] && "" in n.children && n.children[""].data.Some?
  {
    if "" in n.children {
      StepDown(n, "", []);
      assert [""] + [] == [""];
    }
    if r != [] && r[0] == "" && |r| == 1 { assert r == [""]; }
  }

  // A first match through one label is first of all, if no label tried earlier matches.
  lemma FirstViaIsFirst<T>(n: Node<T>, labels: seq<string>, l: string, p: seq<string>)
    requires labels != [] && labels[0] != "" && FirstVia(n, labels, l, p)
    requires l == labels[0] || l == "*" || l == ""
    requires l != labels[0] ==> forall r :: !MatchVia(n, labels, labels[0], r)
    requires l == "" ==> forall r :: !MatchVia(n, labels, "*", r)
    ensures FirstMatch(n, labels, p)
  {
    MatchBegins(n, labels, p);
    forall r | PathMatches(r, labels) && Lookup(n, r).Some? ensures r == p || TriedBefore(p, r, labels) {
      MatchBegins(n, labels, r);
      if !MatchVia(n, labels, l, r) { assert PartsAt(p, r, labels, 0); }
    }
  }

  /** `search_inner` finds the node of the first matching path that holds data, or none
      holds data. */
  lemma {:induction false} SearchInnerFinds<T>(n: Node<T>, labels: seq<string>)
    requires DotsHoldData(n) && forall i :: 0 <= i < |labels| ==> labels[i] != ""
    ensures Finds(n, labels, SearchInner(n, Reverse(labels)))
    decreases |labels|
  {
    if labels == [] {
      forall r ensures PathMatches(r, labels) <==> r == [] {}
      assert FirstMatch(n, labels, []) || n.data.None?;
      assert NodeAt(n, []) == Some(n);
    } else {
      var parts, rest := Reverse(labels), Reverse(labels[1..]);
      assert parts[|parts| - 1] == labels[0] && parts[..|parts| - 1] == rest;
      var exact := if labels[0] in n.children then SearchInner(n.children[labels[0]], rest) else None;
      var wild := if "*" in n.children then SearchInner(n.children["*"], rest) else None;
      if labels[0] in n.children {
        DotsBelow(n, labels[0]);
        SearchInnerFinds(n.children[labels[0]], labels[1..]);
      }
      if "*" in n.children {
        DotsBelow(n, "*");
        SearchInnerFinds(n.children["*"], labels[1..]);
      }
      SearchVia(n, labels, labels[0], exact);
      SearchVia(n, labels, "*", wild);
      ChooseFirst(n, labels, exact, wild);
    }
  }

  lemma ChooseFirst<T>(n: Node<T>, labels: seq<string>, exact: Option<Node<T>>, wild: Option<Node<T>>)
    requires DotsHoldData(n) && labels != [] && labels[0] != ""
    requires FindsVia(n, labels, labels[0], exact) && FindsVia(n, labels, "*", wild)
    ensures Finds(n, labels,
      if exact.Some? && exact.value.data.Some? then exact
      else if wild.Some? && wild.value.data.Some? then wild
      else if "" in n.children then Some(n.children[""]) else None)
  {
    if exact.Some? && exact.value.data.Some? {
      var p :| FirstVia(n, labels, labels[0], p) && NodeAt(n, p) == exact;
      FirstViaIsFirst(n, labels, labels[0], p);
    } else if wild.Some? && wild.value.data.Some? {
      var p :| FirstVia(n, labels, "*", p) && NodeAt(n, p) == wild;
      FirstViaIsFirst(n, labels, "*", p);
    } else {
      forall r
        ensures PathMatches(r, labels) && Lookup(n, r).Some? <==>
          r == [""] && "" in n.children && n.children[""].data.Some?
      {
        MatchBegins(n, labels, r);
      }
      if "" in n.children {
        DotsBelow(n, "");
        StepDown(n, "", []);
        assert [""] + [] == [""];
        assert FirstMatch(n, labels, [""]);
      }
    }
  }

  // ---------------------------------------------------------------- patterns

  // Label by label: equal, or `*` in the pattern.
  predicate LabelsMatch(pattern: seq<string>, labels: seq<string>) {
    |pattern| == |labels| && forall i :: 0 <= i < |pattern| ==> pattern[i] == labels[i] || pattern[i] == "*"
  }

  /** What a pattern stands for: a leading `+` for zero or more further labels on the left,
      a leading dot for one or more, `*` anywhere for one. */
  predicate PatternMatches(pattern: seq<string>, labels: seq<string>)
    requires pattern != []
  {
    var rest := pattern[1..];
    if pattern[0] == "+" then |rest| <= |labels| && LabelsMatch(rest, labels[|labels| - |rest|..])
    else if pattern[0] == "" then |rest| < |labels| && LabelsMatch(rest, labels[|labels| - |rest|..])
    else LabelsMatch(pattern, labels)
  }

  predicate Matches(pattern: string, domain: string) {
    match (ValidAndSplit(pattern), ValidAndSplit(domain))
    case (Some(p), Some(d)) => d[0] != "" && PatternMatches(p, d)
    case _ => false
  }

  lemma {:induction false} PlainPathMatches(p: seq<string>, labels: seq<string>)
    requires forall i :: 0 <= i < |p| ==> p[i] != ""
    ensures PathMatches(p, labels) <==> LabelsMatch(p, labels)
  {
    if p != [] && labels != [] {
      PlainPathMatches(p[1..], labels[1..]);
      if LabelsMatch(p[1..], labels[1..]) && (p[0] == labels[0] || p[0] == "*") {
        forall i | 0 <= i < |p| ensures p[i] == labels[i] || p[i] == "*" {
          if i > 0 { assert p[i] == p[1..][i - 1] && labels[i] == labels[1..][i - 1]; }
        }
      }
    }
  }

  lemma {:induction false} DotPathMatches(p: seq<string>, labels: seq<string>)
    requires forall i :: 0 <= i < |p| ==> p[i] != ""
    ensures PathMatches(p + [""], labels) <==> |p| < |labels| && LabelsMatch(p, labels[..|p|])
  {
    if p != [] && labels != [] {
      assert (p + [""])[1..] == p[1..] + [""];
      DotPathMatches(p[1..], labels[1..]);
      if |p| < |labels| {
        var some := labels[..|p|];
        assert some[1..] == labels[1..][..|p| - 1];
        if LabelsMatch(p[1..], some[1..]) && (p[0] == labels[0] || p[0] == "*") {
          forall i | 0 <= i < |p| ensures p[i] == some[i] || p[i] == "*" {
            if i > 0 { assert p[i] == p[1..][i - 1] && some[i] == some[1..][i - 1]; }
          }
        }
      }
    }
  }

  lemma LabelsMatchReversed(a: seq<string>, b: seq<string>)
    ensures LabelsMatch(a, b) <==> LabelsMatch(Reverse(a), Reverse(b))
  {
    if LabelsMatch(Reverse(a), Reverse(b)) {
      forall i | 0 <= i < |a| ensures a[i] == b[i] || a[i] == "*" {
        assert a[i] == Reverse(a)[|a| - 1 - i] && b[i] == Reverse(b)[|a| - 1 - i];
      }
    }
  }

  // The path of the labels themselves, and the one with a dot in front.
  lemma PathsMatch(rest: seq<string>, labels: seq<string>)
    requires forall i :: 0 <= i < |rest| ==> rest[i] != ""
    ensures PathMatches(Reverse(rest), Reverse(labels)) <==> LabelsMatch(rest, labels)
    ensures PathMatches(Reverse([""] + rest), Reverse(labels)) <==>
      |rest| < |labels| && LabelsMatch(rest, labels[|labels| - |rest|..])
  {
    PlainPathMatches(Reverse(rest), Reverse(labels));
    LabelsMatchReversed(rest, labels);
    assert Reverse([""] + rest) == Reverse(rest) + [""];
    DotPathMatches(Reverse(rest), Reverse(labels));
    if |rest| < |labels| {
      assert Reverse(labels)[..|rest|] == Reverse(labels[|labels| - |rest|..]);
      LabelsMatchReversed(rest, labels[|labels| - |rest|..]);
    }
  }

  lemma PatternPaths(pattern: string, labels: seq<string>)
    requires ValidAndSplit(pattern).Some? && labels != []
    ensures PatternMatches(ValidAndSplit(pattern).value, labels) <==>
      exists p :: p in PathsOf(pattern) && PathMatches(p, Reverse(labels))
  {
    ValidParts(pattern);
    var parts := ValidAndSplit(pattern).value;
    var rest := parts[1..];
    PathsMatch(rest, labels);
    if parts[0] == "+" {
      assert PathsOf(pattern) == {Reverse(rest), Reverse([""] + rest)};
      assert |rest| == |labels| ==> labels[|labels| - |rest|..] == labels;
      assert Reverse(rest) in PathsOf(pattern) && Reverse([""] + rest) in PathsOf(pattern);
    } else {
      assert PathsOf(pattern) == {Reverse(parts)} && Reverse(parts) in PathsOf(pattern);
      if parts[0] == "" {
        assert parts == [""] + rest;
      } else {
        PathsMatch(parts, labels);
      }
    }
  }

  lemma {:induction false} LastForExists<T>(history: seq<(string, T)>, p: seq<string>)
    ensures LastFor(history, p).Some? <==> exists k :: 0 <= k < |history| && p in PathsOf(history[k].0)
  {
    if history != [] {
      var init := history[..|history| - 1];
      LastForExists(init, p);
      if k :| 0 <= k < |init| && p in PathsOf(init[k].0) { assert p in PathsOf(history[k].0); }
      if k :| 0 <= k < |history| && p in PathsOf(history[k].0) && k < |init| { assert p in PathsOf(init[k].0); }
    }
  }

  /** `search` finds a node exactly when some pattern inserted so far matches the domain. */
  lemma SearchMeansMatch<T>(n: Node<T>, history: seq<(string, T)>, domain: string)
    requires Stores(n, history)
    ensures Search(n, domain).Some? <==> exists k :: 0 <= k < |history| && Matches(history[k].0, domain)
  {
    ValidParts(domain);
    if ValidAndSplit(domain).Some? && ValidAndSplit(domain).value[0] != "" {
      var labels := ValidAndSplit(domain).value;
      SearchInnerFinds(n, Reverse(labels));
      ReverseTwice(labels);
      if k :| 0 <= k < |history| && Matches(history[k].0, domain) {
        var p := StoredMatch(n, history, labels, k);
      }
      if Search(n, domain).Some? {
        var p :| FirstMatch(n, Reverse(labels), p);
        var k := MatchingPattern(n, history, labels, p);
        assert Matches(history[k].0, domain);
      }
    }
  }

  // A pattern that matches has a path that does.
  lemma StoredMatch<T>(n: Node<T>, history: seq<(string, T)>, labels: seq<string>, k: nat) returns (p: seq<string>)
    requires Stores(n, history) && k < |history| && labels != []
    requires ValidAndSplit(history[k].0).Some? && PatternMatches(ValidAndSplit(history[k].0).value, labels)
    ensures Lookup(n, p).Some? && PathMatches(p, Reverse(labels))
  {
    PatternPaths(history[k].0, labels);
    p :| p in PathsOf(history[k].0) && PathMatches(p, Reverse(labels));
    LastForExists(history, p);
    assert Lookup(n, p) == LastFor(history, p);
  }

  // A path that matches comes from a pattern that does.
  lemma MatchingPattern<T>(n: Node<T>, history: seq<(string, T)>, labels: seq<string>, p: seq<string>) returns (k: nat)
    requires Stores(n, history) && labels != [] && Lookup(n, p).Some? && PathMatches(p, Reverse(labels))
    ensures k < |history| && ValidAndSplit(history[k].0).Some?
    ensures PatternMatches(ValidAndSplit(history[k].0).value, labels)
  {
    LastForExists(history, p);
    assert Lookup(n, p) == LastFor(history, p);
    k :| 0 <= k < |history| && p in PathsOf(history[k].0);
    PatternPaths(history[k].0, labels);
  }

  /** The data that `search` returns is what was inserted last for the first matching path:
      rightmost label first, exact labels before `*` before dots. */
  lemma SearchReturnsFirst<T>(n: Node<T>, history: seq<(string, T)>, domain: string) returns (p: seq<string>)
    requires Stores(n, history) && Search(n, domain).Some?
    ensures FirstMatch(n, Reverse(ValidAndSplit(domain).value), p)
    ensures Search(n, domain).value.data == LastFor(history, p) && LastFor(history, p).Some?
  {
    ValidParts(domain);
    var labels := ValidAndSplit(domain).value;
    SearchInnerFinds(n, Reverse(labels));
    ReverseTwice(labels);
    p :| FirstMatch(n, Reverse(labels), p) && NodeAt(n, p) == SearchInner(n, labels);
    assert Lookup(n, p) == LastFor(history, p);
  }
}
