/** From a trie to a succinct set: clash-lib/src/common/succinct_set.rs, `From<StringTrie>`,
    with trie.rs. */
module DomainIndex {
  import opened Basics
  import opened DomainNames
  import opened SortedKeys
  import opened SuccinctSet
  import opened DomainTrie
  import opened DomainTraversal

  // ---------------------------------------------------------------- the keys of a trie

  // The labels of a stored path hold no dots, and only the last may be empty.
  predicate Labelled(p: seq<string>) {
    AllDotFree(p) && forall i :: 0 <= i < |p| - 1 ==> p[i] != ""
  }

  /** Whatever is inserted, stored paths are of this form. */
  lemma RunIsLabelled<T>(n: DomainTrie.Node<T>, history: seq<(string, T)>, p: seq<string>)
    requires Stores(n, history) && Lookup(n, p).Some?
    ensures Labelled(p)
  {
    LastForExists(history, p);
    var k :| 0 <= k < |history| && p in PathsOf(history[k].0);
    PatternIsLabelled(history[k].0, p);
  }

  lemma PatternIsLabelled(pattern: string, p: seq<string>)
    requires p in PathsOf(pattern)
    ensures Labelled(p)
  {
    ValidIff(pattern);
    var parts := ValidAndSplit(pattern).value;
    if parts[0] != "+" {
      ReversedLabels(parts);
    } else if p == Reverse(parts[1..]) {
      ReversedLabels(parts[1..]);
    } else {
      ReversedLabels([""] + parts[1..]);
    }
  }

  lemma ReversedLabels(parts: seq<string>)
    requires AllDotFree(parts) && forall i :: 1 <= i < |parts| ==> parts[i] != ""
    ensures Labelled(Reverse(parts))
  {
  }

  // The path that was reported as this key.
  function PathOfKey(k: string): seq<string> {
    if "+." <= k then Reverse([""] + Split(k[2..])) else Reverse(Split(k))
  }

  lemma {:induction false} JoinBegins(parts: seq<string>)
    requires |parts| > 1 && AllDotFree(parts)
    ensures Join(parts) != ""
    ensures Join(parts)[0] == '.' <==> parts[0] == ""
    ensures "+." <= Join(parts) <==> parts[0] == "+"
  {
    var x, j := parts[0], Join(parts);
    assert j == x + "." + Join(parts[1..]);
    if x != "" {
      assert j[0] == x[0] && x[0] in x;
      if |x| > 1 { assert j[1] == x[1] && x[1] in x; }
    }
  }

  // A `+` at the left end of several labels is reported like a leading dot.
  function DotForPlus(p: seq<string>): seq<string> {
    if |p| > 1 && p[|p| - 1] == "+" then p[..|p| - 1] + [""] else p
  }

  /** A reported key determines its path, up to that. */
  lemma KeyGivesPath(p: seq<string>)
    requires p != [] && Labelled(p)
    ensures PathOfKey(KeyOf(p)) == DotForPlus(p)
  {
    if |p| == 1 {
      SingleKey(p[0]);
      assert p == [p[0]];
    } else {
      var parts := Reverse(p);
      ReverseTwice(p);
      assert parts[0] == p[|p| - 1] && AllDotFree(parts);
      if parts[0] == "" {
        DottedKeyPath(parts);
      } else if parts[0] == "+" {
        PlusKeyPath(parts);
        PlusAsDot(p);
      } else {
        PlainKeyPath(parts);
      }
    }
  }

  lemma PlusAsDot(p: seq<string>)
    requires |p| > 1 && p[|p| - 1] == "+"
    ensures Reverse([""] + Reverse(p)[1..]) == DotForPlus(p)
  {
  }

  lemma PlusKeyPath(parts: seq<string>)
    requires |parts| > 1 && AllDotFree(parts) && parts[0] == "+"
    ensures PathOfKey(Reported(Join(parts))) == Reverse([""] + parts[1..])
  {
    var rest := parts[1..];
    assert parts == ["+"] + rest;
    SplitJoin(rest);
    PlusBegins(Join(rest));
    assert Join(parts) == "+" + "." + Join(rest);
  }

  lemma PlusBegins(s: string)
    ensures "+" + "." + s == "+." + s && Reported("+." + s) == "+." + s && ("+." + s)[2..] == s && "+." <= "+." + s
  {
  }

  lemma DottedKeyPath(parts: seq<string>)
    requires |parts| > 1 && AllDotFree(parts) && parts[0] == ""
    ensures PathOfKey(Reported(Join(parts))) == Reverse(parts)
  {
    var rest := parts[1..];
    assert parts == [""] + rest;
    DottedKey(rest);
  }

  lemma SingleKey(l: string)
    requires DotFree(l)
    ensures PathOfKey(l) == [l]
  {
    SplitLabel(l);
    assert Reverse([l]) == [l];
    if |l| > 1 { assert l[1] in l; }
  }

  lemma PlainKeyPath(parts: seq<string>)
    requires |parts| > 1 && AllDotFree(parts) && parts[0] != "" && parts[0] != "+"
    ensures PathOfKey(Reported(Join(parts))) == Reverse(parts)
  {
    JoinBegins(parts);
    SplitJoin(parts);
  }

  lemma DottedKey(rest: seq<string>)
    requires rest != [] && AllDotFree(rest)
    ensures Reported(Join([""] + rest)) == "+." + Join(rest)
    ensures ("+." + Join(rest))[2..] == Join(rest) && Split(Join(rest)) == rest
  {
    assert ([""] + rest)[1..] == rest;
    assert Join([""] + rest) == "." + Join(rest);
    ReportedDot(Join(rest));
    SplitJoin(rest);
  }

  lemma ReportedDot(s: string)
    ensures Reported("." + s) == "+." + s
  {
  }

  // ---------------------------------------------------------------- sorting

  // The order of `sort` on strings: by bytes.
  predicate Precedes(a: string, b: string) {
    DiffAt(a, b, FirstDiff(a, b))
  }

  lemma PrecedesTotal(a: string, b: string)
    ensures Precedes(a, b) ==> Less(a, b)
    ensures !Precedes(a, b) && a != b ==> Less(b, a)
  {
    var n := FirstDiff(a, b);
    assert a[..|a|] == a && b[..|b|] == b;
    if !Precedes(a, b) && a != b {
      assert DiffAt(b, a, n);
    }
  }

  lemma InOrderAfterAll(x: string, s: seq<string>)
    requires Sorted(s) && (s != [] ==> InOrder(x, s[0]))
    ensures Sorted([x] + s)
  {
    forall i, j | 0 <= i < j < |s| + 1 ensures InOrder(([x] + s)[i], ([x] + s)[j]) {
      if i == 0 && j > 1 { InOrderTransitive(x, s[0], s[j - 1]); }
    }
  }

  function InsertKey(x: string, s: seq<string>): (r: seq<string>)
    ensures multiset(r) == multiset(s) + multiset{x}
    ensures r != [] && (r[0] == x || (s != [] && r[0] == s[0]))
  {
    if s == [] then [x]
    else if Precedes(x, s[0]) then [x] + s
    else
      var r := InsertKey(x, s[1..]);
      assert s == [s[0]] + s[1..];
      [s[0]] + r
  }

  lemma {:induction false} InsertKeySorted(x: string, s: seq<string>)
    requires Sorted(s)
    ensures Sorted(InsertKey(x, s))
  {
    if s == [] {
      InOrderAfterAll(x, []);
    } else {
      PrecedesTotal(x, s[0]);
      if Precedes(x, s[0]) {
        InOrderAfterAll(x, s);
      } else {
        InsertKeySorted(x, s[1..]);
        InOrderAfterAll(s[0], InsertKey(x, s[1..]));
      }
    }
  }

  /** `keys.sort()` */
  function SortKeys(xs: seq<string>): (r: seq<string>)
    ensures multiset(r) == multiset(xs)
  {
    if xs == [] then []
    else
      assert xs == [xs[0]] + xs[1..];
      InsertKey(xs[0], SortKeys(xs[1..]))
  }

  lemma {:induction false} SortKeysSorted(xs: seq<string>)
    ensures Sorted(SortKeys(xs))
  {
    if xs != [] {
      SortKeysSorted(xs[1..]);
      InsertKeySorted(xs[0], SortKeys(xs[1..]));
    }
  }

  // Sorting a list without repetitions leaves it strictly sorted, and only such a list.
  lemma SortedDistinct(xs: seq<string>)
    ensures StrictlySorted(SortKeys(xs)) <==> Distinct(xs)
  {
    var r := SortKeys(xs);
    SortKeysSorted(xs);
    DistinctCounts(xs);
    DistinctCounts(r);
    if StrictlySorted(r) {
      forall i, j | 0 <= i < j < |r| ensures r[i] != r[j] { LessIsNotEqual(r[i], r[j]); }
    }
    if Distinct(xs) {
      assert forall x :: multiset(xs)[x] == multiset(r)[x];
      assert Distinct(r);
    }
  }

  // ---------------------------------------------------------------- construction

  function RevKey(p: seq<string>): string
    requires p != []
  {
    Reverse(KeyOf(p))
  }

  // The key list of a trie: the reversed domains of the paths that hold data, in order.
  ghost predicate KeyListOf<T>(n: DomainTrie.Node<T>, keys: seq<string>) {
    && StrictlySorted(keys)
    && forall k :: k in keys <==> exists p :: p != [] && Lookup(n, p).Some? && k == RevKey(p)
  }

  function ReverseAll(xs: seq<string>): (r: seq<string>)
    ensures |r| == |xs| && forall i :: 0 <= i < |xs| ==> r[i] == Reverse(xs[i])
  {
    seq(|xs|, i requires 0 <= i < |xs| => Reverse(xs[i]))
  }

  // No two paths of which one ends in `+` where the other has a leading dot.
  ghost predicate NoClash<T>(n: DomainTrie.Node<T>) {
    forall p {:trigger Lookup(n, p + [""])} :: p != [] && Lookup(n, p + [""]).Some? ==> Lookup(n, p + ["+"]).None?
  }

  ghost predicate KeysDistinct<T>(n: DomainTrie.Node<T>) {
    forall p, r :: p != [] && r != [] && Lookup(n, p).Some? && Lookup(n, r).Some? && KeyOf(p) == KeyOf(r) ==> p == r
  }

  /** The keys of a trie are distinct exactly if no two paths clash. */
  lemma DistinctIff<T>(n: DomainTrie.Node<T>, history: seq<(string, T)>)
    requires Stores(n, history)
    ensures KeysDistinct(n) <==> NoClash(n)
  {
    if NoClash(n) {
      forall p, r | p != [] && r != [] && Lookup(n, p).Some? && Lookup(n, r).Some? && KeyOf(p) == KeyOf(r)
        ensures p == r
      {
        RunIsLabelled(n, history, p);
        RunIsLabelled(n, history, r);
        KeyGivesPath(p);
        KeyGivesPath(r);
        SameUpToDot(n, p, r);
      }
    } else {
      var p :| p != [] && Lookup(n, p + [""]).Some? && Lookup(n, p + ["+"]).Some?;
      RunIsLabelled(n, history, p + [""]);
      RunIsLabelled(n, history, p + ["+"]);
      ClashingKeys(p);
      assert (p + [""])[|p|] != (p + ["+"])[|p|];
    }
  }

  lemma SameUpToDot<T>(n: DomainTrie.Node<T>, p: seq<string>, r: seq<string>)
    requires NoClash(n) && p != [] && r != [] && Lookup(n, p).Some? && Lookup(n, r).Some? &&
      DotForPlus(p) == DotForPlus(r)
    ensures p == r
  {
    var a, b := p[..|p| - 1], r[..|r| - 1];
    assert p == a + [p[|p| - 1]] && r == b + [r[|r| - 1]];
    assert DotForPlus(p)[..|p| - 1] == a && DotForPlus(r)[..|r| - 1] == b;
    assert a == b && DotForPlus(p)[|a|] == DotForPlus(r)[|a|];
    assert a != [] && Lookup(n, a + [""]).Some? ==> Lookup(n, a + ["+"]).None?;
  }

  lemma ClashingKeys(p: seq<string>)
    requires p != [] && Labelled(p + [""]) && Labelled(p + ["+"])
    ensures KeyOf(p + [""]) == KeyOf(p + ["+"])
  {
    var rest := Reverse(p);
    assert Reverse(p + [""]) == [""] + rest && Reverse(p + ["+"]) == ["+"] + rest;
    assert forall i :: 0 <= i < |p| ==> p[i] == (p + [""])[i];
    DottedKey(rest);
    assert (["+"] + rest)[1..] == rest;
    assert Join(["+"] + rest) == "+" + "." + Join(rest);
    PlusBegins(Join(rest));
  }

  // Reported keys are distinct, since each gives back its path.
  lemma ReportedDistinct<T>(n: DomainTrie.Node<T>, out: seq<string>, paths: seq<seq<string>>)
    requires ReportedAs(out, [], paths) && KeysDistinct(n) && forall i :: 0 <= i < |paths| ==> Lookup(n, paths[i]).Some?
    requires forall i, j :: 0 <= i < j < |paths| ==> paths[i] != paths[j]
    ensures forall i, j :: 0 <= i < j < |out| ==> ReverseAll(out)[i] != ReverseAll(out)[j]
  {
    forall i, j | 0 <= i < j < |out| ensures ReverseAll(out)[i] != ReverseAll(out)[j] {
      assert [] + paths[i] == paths[i] && [] + paths[j] == paths[j];
      assert out[i] == KeyOf(paths[i]) && out[j] == KeyOf(paths[j]);
      ReverseTwice(out[i]);
      ReverseTwice(out[j]);
    }
  }

  lemma ReportedKeys<T>(n: DomainTrie.Node<T>, out: seq<string>, paths: seq<seq<string>>, k: string)
    requires Lists(n, paths, true) && ReportedAs(out, [], paths)
    ensures k in ReverseAll(out) <==> exists p :: p != [] && Lookup(n, p).Some? && k == RevKey(p)
  {
    var rev := ReverseAll(out);
    if k in rev {
      var i :| 0 <= i < |rev| && rev[i] == k;
      assert [] + paths[i] == paths[i] && paths[i] in paths;
      assert k == RevKey(paths[i]);
    }
    if p :| p != [] && Lookup(n, p).Some? && k == RevKey(p) {
      var i :| 0 <= i < |paths| && paths[i] == p;
      assert [] + paths[i] == p && rev[i] == k;
    }
  }

  ghost predicate AsciiPaths<T>(n: DomainTrie.Node<T>) {
    forall p, i :: Lookup(n, p).Some? && 0 <= i < |p| ==> Ascii(p[i])
  }

  /** `DomainSet::from(trie)`.  The source needs at least one key, and no key twice: with an
      equal pair its queue grows for ever. */
  method FromTrie<T>(trie: StringTrie<T>) returns (ds: DomainSet)
    requires trie.Valid() && AsciiPaths(trie.root) && NoClash(trie.root)
    requires exists p :: p != [] && Lookup(trie.root, p).Some?
    requires forall keys :: KeyListOf(trie.root, keys) ==> Fits(keys)
    ensures exists keys :: KeyListOf(trie.root, keys) && Represents(ds, keys)
  {
    DistinctIff(trie.root, trie.history);
    ds := FromRoot(trie.root);
  }

  method FromRoot<T>(root: DomainTrie.Node<T>) returns (ds: DomainSet)
    requires AsciiPaths(root) && KeysDistinct(root) && exists p :: p != [] && Lookup(root, p).Some?
    requires forall keys :: KeyListOf(root, keys) ==> Fits(keys)
    ensures exists keys :: KeyListOf(root, keys) && Represents(ds, keys)
  {
    var out := DomainTraversal.Traverse(root, _ => true);
    var sorted := SortKeys(ReverseAll(out));
    TraversedKeys(root, out);
    AsciiKeyList(root, sorted);
    SomeKey(root, sorted);
    ds := FromSorted(sorted);
  }

  lemma SameMembers(a: seq<string>, b: seq<string>)
    requires multiset(a) == multiset(b)
    ensures forall x :: x in a <==> x in b
  {
    forall x ensures x in a <==> x in b {
      assert x in a <==> x in multiset(a);
      assert x in b <==> x in multiset(b);
    }
  }

  // What a complete traversal reports, reversed and sorted, is the key list.
  lemma TraversedKeys<T>(n: DomainTrie.Node<T>, out: seq<string>)
    requires Reports(n, [], out, true) && KeysDistinct(n)
    ensures KeyListOf(n, SortKeys(ReverseAll(out)))
  {
    var paths :| Lists(n, paths, true) && ReportedAs(out, [], paths);
    forall i | 0 <= i < |paths| ensures Lookup(n, paths[i]).Some? { assert paths[i] in paths; }
    ReportedDistinct(n, out, paths);
    SortedDistinct(ReverseAll(out));
    SameMembers(SortKeys(ReverseAll(out)), ReverseAll(out));
    forall k ensures k in SortKeys(ReverseAll(out)) <==> exists p :: p != [] && Lookup(n, p).Some? && k == RevKey(p) {
      ReportedKeys(n, out, paths, k);
    }
  }

  lemma SomeKey<T>(n: DomainTrie.Node<T>, keys: seq<string>)
    requires KeyListOf(n, keys) && exists p :: p != [] && Lookup(n, p).Some?
    ensures keys != []
  {
    var p :| p != [] && Lookup(n, p).Some?;
    assert RevKey(p) in keys;
  }

  lemma {:induction false} JoinAscii(parts: seq<string>)
    requires parts != [] && forall i :: 0 <= i < |parts| ==> Ascii(parts[i])
    ensures Ascii(Join(parts))
  {
    if |parts| > 1 { JoinAscii(parts[1..]); }
  }

  lemma AsciiKeyList<T>(n: DomainTrie.Node<T>, keys: seq<string>)
    requires AsciiPaths(n) && KeyListOf(n, keys)
    ensures AsciiKeys(keys)
  {
    forall k | 0 <= k < |keys| ensures Ascii(keys[k]) {
      assert keys[k] in keys;
      var p :| p != [] && Lookup(n, p).Some? && keys[k] == RevKey(p);
      AsciiKey(p);
    }
  }

  lemma AsciiKey(p: seq<string>)
    requires p != [] && forall i :: 0 <= i < |p| ==> Ascii(p[i])
    ensures Ascii(RevKey(p))
  {
    if |p| > 1 { JoinAscii(Reverse(p)); }
  }
}
