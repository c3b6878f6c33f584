/** Where membership in the set and search in the trie part: patterns with `*`.

    `has` leaves the stack of `*` cursors alone when the query runs out inside a longer key,
    so it can say no although the `*` pattern that it passed would match.  And it takes a
    dot of another node for the one after a `*`, so it can say yes to what nothing matches. */
module DomainLimits {
  import opened Basics
  import opened DomainNames
  import opened SortedKeys
  import opened SuccinctSet
  import opened SetLookup
  import opened StarJump
  import opened DomainTrie
  import opened DomainTraversal
  import opened DomainIndex
  import opened DomainAgreement
  import opened EqualKeys

  // ---------------------------------------------------------------- runs of few patterns

  lemma {:induction false} SubsetSize<T>(a: set<T>, b: set<T>)
    requires a <= b
    ensures |a| <= |b|
  {
    if a != {} {
      var x :| x in a;
      SubsetSize(a - {x}, b - {x});
    }
  }

  // All beginnings of a list of keys, in a row.
  function Beginnings(ks: seq<string>): (r: seq<string>)
    ensures forall k, n :: 0 <= k < |ks| && 0 <= n <= |ks[k]| ==> ks[k][..n] in r
  {
    if ks == [] then []
    else
      var last := ks[|ks| - 1];
      var init := Beginnings(ks[..|ks| - 1]);
      var own := seq(|last| + 1, n requires 0 <= n <= |last| => last[..n]);
      assert forall n :: 0 <= n <= |last| ==> own[n] == last[..n];
      init + own
  }

  lemma {:induction false} SeqAsSet<T>(s: seq<T>)
    ensures |set x | x in s| <= |s|
  {
    if s != [] {
      var init := s[..|s| - 1];
      SeqAsSet(init);
      var a, b := set x | x in s, set x | x in init;
      assert s == init + [s[|s| - 1]];
      assert a <= b + {s[|s| - 1]};
      SubsetSize(a, b + {s[|s| - 1]});
    }
  }

  lemma {:induction false} SomeBeginnings(ks: seq<string>, longest: nat)
    requires forall k :: 0 <= k < |ks| ==> |ks[k]| < longest
    ensures |Beginnings(ks)| <= |ks| * longest
  {
    if ks != [] {
      SomeBeginnings(ks[..|ks| - 1], longest);
      assert |ks| * longest == (|ks| - 1) * longest + longest;
    }
  }

  // A handful of short keys fits easily.
  lemma FewBeginnings(keys: seq<string>, ks: seq<string>)
    requires (forall k :: k in keys ==> k in ks) && |Beginnings(ks)| <= 1000
    ensures Fits(keys)
  {
    var all := Beginnings(ks);
    forall p | p in Prefixes(keys) ensures p in all {
      var k, m :| 0 <= k < |keys| && 0 <= m <= |keys[k]| && p == keys[k][..m];
      assert keys[k] in keys;
      var j :| 0 <= j < |ks| && ks[j] == keys[k];
    }
    SubsetSize(Prefixes(keys), set x | x in all);
    SeqAsSet(all);
  }

  // A pattern of two labels is stored at one path.
  lemma TwoLabels(x: string, y: string)
    requires DotFree(x) && DotFree(y) && x != "" && y != "" && x != "+"
    ensures ValidAndSplit(x + "." + y) == Some([x, y])
    ensures PathsOf(x + "." + y) == {[y, x]} && (Ascii(x) && Ascii(y) ==> OneStored(x + "." + y, [y, x]))
    ensures RevKey([y, x]) == Reverse(y) + "." + Reverse(x)
  {
    var parts := [x, y];
    var d := x + "." + y;
    assert parts[1..] == [y];
    assert Join(parts) == d;
    SplitJoin(parts);
    assert d[|d| - 1] == y[|y| - 1] && y[|y| - 1] in y;
    assert Reverse(parts) == [y, x] && Reverse([y, x]) == parts;
    assert d[0] == x[0] && x[0] in x;
    ReverseConcat(x + ".", y);
    ReverseConcat(x, ".");
    assert Reverse(".") == ".";
    assert Reverse(y) + ("." + Reverse(x)) == Reverse(y) + "." + Reverse(x);
  }

  // A pattern of three labels too.
  lemma ThreeLabels(x: string, y: string, z: string)
    requires DotFree(x) && DotFree(y) && DotFree(z) && x != "" && y != "" && z != "" && x != "+"
    ensures ValidAndSplit(x + "." + y + "." + z) == Some([x, y, z])
    ensures PathsOf(x + "." + y + "." + z) == {[z, y, x]}
    ensures Ascii(x) && Ascii(y) && Ascii(z) ==> OneStored(x + "." + y + "." + z, [z, y, x])
  {
    var parts := [x, y, z];
    var d := x + "." + y + "." + z;
    assert parts[1..] == [y, z] && parts[1..][1..] == [z];
    assert Join([z]) == z && Join([y, z]) == y + "." + z;
    assert Join(parts) == x + "." + (y + "." + z);
    assert x + "." + (y + "." + z) == d;
    SplitJoin(parts);
    assert d[|d| - 1] == z[|z| - 1] && z[|z| - 1] in z;
    assert Reverse(parts) == [z, y, x];
  }

  lemma Literals()
    ensures Reverse("com") == "moc" && Reverse("ab") == "ba" && Reverse("b") == "b" && Reverse("*") == "*"
    ensures "*" + "." + "com" == "*.com" && "ab" + "." + "com" == "ab.com" && "b" + "." + "com" == "b.com"
    ensures "moc" + "." + "*" == "moc.*" && "moc" + "." + "ba" == "moc.ba"
    ensures Bytes(Lower(Reverse("b.com"))) == "moc.b"
  {
    var q := Reverse("b.com");
    assert q == "moc.b";
    assert Lower(q) == q && Bytes(q) == q;
  }

  // The pattern is stored at one path, with labels that are not empty.
  ghost predicate OneStored(pattern: string, path: seq<string>) {
    && PathsOf(pattern) == {path} && path != []
    && forall i :: 0 <= i < |path| ==> path[i] != "" && Ascii(path[i])
  }

  ghost predicate StoredAt(patterns: seq<string>, paths: seq<seq<string>>) {
    |patterns| == |paths| > 0 && forall k :: 0 <= k < |paths| ==> OneStored(patterns[k], paths[k])
  }

  function KeysOf(paths: seq<seq<string>>): (r: seq<string>)
    requires forall k :: 0 <= k < |paths| ==> paths[k] != []
    ensures |r| == |paths| && forall k :: 0 <= k < |paths| ==> r[k] == RevKey(paths[k])
  {
    seq(|paths|, k requires 0 <= k < |paths| => RevKey(paths[k]))
  }

  // The patterns, in order, with their data.
  ghost function Run(patterns: seq<string>): (r: seq<(string, bool)>)
    ensures |r| == |patterns| && forall k :: 0 <= k < |patterns| ==> r[k] == (patterns[k], true)
  {
    seq(|patterns|, k requires 0 <= k < |patterns| => (patterns[k], true))
  }

  lemma StoredThere(n: DomainTrie.Node<bool>, patterns: seq<string>, paths: seq<seq<string>>, r: seq<string>)
    requires Stores(n, Run(patterns)) && StoredAt(patterns, paths)
    ensures Lookup(n, r).Some? <==> r in paths
  {
    RunPath(n, Run(patterns), r);
    if r in paths {
      var k :| 0 <= k < |paths| && paths[k] == r;
      assert r in PathsOf(Run(patterns)[k].0);
    }
  }

  lemma RunFits(n: DomainTrie.Node<bool>, patterns: seq<string>, paths: seq<seq<string>>)
    requires Stores(n, Run(patterns)) && StoredAt(patterns, paths)
    ensures AsciiPaths(n) && NoClash(n) && exists p :: p != [] && Lookup(n, p).Some?
  {
    StoredThere(n, patterns, paths, paths[0]);
    forall p | Lookup(n, p).Some? ensures p in paths { StoredThere(n, patterns, paths, p); }
    forall p ensures Lookup(n, p + [""]).None? {
      StoredThere(n, patterns, paths, p + [""]);
      assert (p + [""])[|p|] == "";
    }
  }

  lemma RunKeys(n: DomainTrie.Node<bool>, patterns: seq<string>, paths: seq<seq<string>>, keys: seq<string>, k: string)
    requires Stores(n, Run(patterns)) && StoredAt(patterns, paths) && KeyListOf(n, keys)
    ensures k in keys <==> k in KeysOf(paths)
  {
    if k in keys {
      var p :| p != [] && Lookup(n, p).Some? && k == RevKey(p);
      StoredThere(n, patterns, paths, p);
      var j :| 0 <= j < |paths| && paths[j] == p;
      assert KeysOf(paths)[j] == k;
    }
    if k in KeysOf(paths) {
      var j :| 0 <= j < |paths| && KeysOf(paths)[j] == k;
      StoredThere(n, patterns, paths, paths[j]);
    }
  }

  lemma RunKeyList(n: DomainTrie.Node<bool>, patterns: seq<string>, paths: seq<seq<string>>, keys: seq<string>)
    requires Stores(n, Run(patterns)) && StoredAt(patterns, paths) && KeyListOf(n, keys)
    requires |Beginnings(KeysOf(paths))| <= 1000
    ensures SameKeys(keys, KeysOf(paths)) && Fits(keys)
  {
    forall k ensures k in keys <==> k in KeysOf(paths) { RunKeys(n, patterns, paths, keys, k); }
    FewBeginnings(keys, KeysOf(paths));
  }

  lemma RunOneMore(patterns: seq<string>, k: nat)
    requires k < |patterns|
    ensures Run(patterns[..k + 1]) == Run(patterns[..k]) + [(patterns[k], true)]
  {
  }

  method InsertAll(patterns: seq<string>) returns (trie: StringTrie<bool>)
    ensures fresh(trie) && trie.Valid() && trie.history == Run(patterns)
  {
    trie := new StringTrie<bool>();
    for k := 0 to |patterns|
      invariant fresh(trie) && trie.Valid() && trie.history == Run(patterns[..k])
    {
      RunOneMore(patterns, k);
      var ok := trie.Insert(patterns[k], true);
    }
    assert patterns[..|patterns|] == patterns;
  }

  /** Inserts the patterns, builds the set, and asks both for a domain. */
  method AskBoth(patterns: seq<string>, ghost paths: seq<seq<string>>, d: string)
    returns (inSet: bool, inTrie: bool, ghost ds: DomainSet, ghost keys: seq<string>)
    requires StoredAt(patterns, paths) && |Beginnings(KeysOf(paths))| <= 1000
    ensures inTrie <==> exists k :: 0 <= k < |patterns| && Matches(patterns[k], d)
    ensures SameKeys(keys, KeysOf(paths)) && Answers(ds, keys, Lower(Reverse(d)), inSet)
    ensures var q := Bytes(Lower(Reverse(d))); WithoutStack(keys, q) ==> (inSet <==> Accepts(keys, q))
  {
    var trie := InsertAll(patterns);
    var root := trie.root;
    RunFits(root, patterns, paths);
    forall keys | KeyListOf(root, keys) ensures Fits(keys) {
      RunKeyList(root, patterns, paths, keys);
    }
    var built := FromTrie(trie);
    keys :| KeyListOf(root, keys) && Represents(built, keys);
    ds := built;
    RunKeyList(root, patterns, paths, keys);
    inSet := Has(built, d, keys);
    inTrie := Search(root, d).Some?;
    RunMatches(root, patterns, d);
  }

  lemma RunMatches(n: DomainTrie.Node<bool>, patterns: seq<string>, d: string)
    requires Stores(n, Run(patterns))
    ensures Search(n, d).Some? <==> exists k :: 0 <= k < |patterns| && Matches(patterns[k], d)
  {
    SearchMeansMatch(n, Run(patterns), d);
    assert forall k :: 0 <= k < |patterns| ==> Run(patterns)[k].0 == patterns[k];
  }

  // ---------------------------------------------------------------- a match that is missed

  lemma QueryIsMissed(keys: seq<string>)
    requires SameKeys(keys, ["moc.*", "moc.ba"])
    ensures WithoutStack(keys, "moc.b") && !Accepts(keys, "moc.b")
  {
    assert "moc.ba" in keys;
    var x :| 0 <= x < |keys| && keys[x] == "moc.ba";
    assert "moc.b" <= keys[x];
    forall i: nat | i < 5 ensures !BeginsKey(keys, "moc.b"[..i] + ['+']) {
      forall k | 0 <= k < |keys| ensures !("moc.b"[..i] + ['+'] <= keys[k]) {
        assert keys[k] in keys;
        LongerPrefix("moc.b"[..i], '+', keys[k]);
      }
    }
  }

  /** With `*.com` and `ab.com` stored, the trie finds `b.com` and the set does not. */
  method StarIsMissed() returns (inSet: bool, inTrie: bool)
    ensures inTrie && !inSet
  {
    ghost var paths := [["com", "*"], ["com", "ab"]];
    TwoStored();
    SomeBeginnings(KeysOf(paths), 12);
    ghost var ds, keys;
    inSet, inTrie, ds, keys := AskBoth(["*.com", "ab.com"], paths, "b.com");
    QueryIsMissed(keys);
    Literals();
    StarMatches();
    assert Matches(["*.com", "ab.com"][0], "b.com");
  }

  lemma TwoStored()
    ensures StoredAt(["*.com", "ab.com"], [["com", "*"], ["com", "ab"]])
    ensures KeysOf([["com", "*"], ["com", "ab"]]) == ["moc.*", "moc.ba"]
  {
    StarStored();
    WordStored();
    BothStored("*.com", "ab.com", ["com", "*"], ["com", "ab"], "moc.*", "moc.ba");
  }

  lemma StarStored()
    ensures OneStored("*.com", ["com", "*"]) && RevKey(["com", "*"]) == "moc.*"
  {
    Literals();
    TwoLabels("*", "com");
  }

  lemma WordStored()
    ensures OneStored("ab.com", ["com", "ab"]) && RevKey(["com", "ab"]) == "moc.ba"
  {
    Literals();
    TwoLabels("ab", "com");
  }

  lemma BothStored(x: string, y: string, p: seq<string>, q: seq<string>, j: string, k: string)
    requires OneStored(x, p) && OneStored(y, q) && RevKey(p) == j && RevKey(q) == k
    ensures StoredAt([x, y], [p, q]) && KeysOf([p, q]) == [j, k]
  {
  }

  lemma StarMatches()
    ensures Matches("*.com", "b.com")
  {
    Literals();
    LabelMatches("*", "b", "com");
  }

  lemma LabelMatches(x: string, z: string, y: string)
    requires DotFree(x) && DotFree(y) && DotFree(z) && x != "" && y != "" && z != "" && x != "+" && z != "+"
    requires x == z || x == "*"
    ensures Matches(x + "." + y, z + "." + y)
  {
    TwoLabels(x, y);
    TwoLabels(z, y);
    assert LabelsMatch([x, y], [z, y]);
  }

  // ---------------------------------------------------------------- a star that is forgotten

  lemma ForgottenText()
    ensures "r" + "." + "q" + "." + "*" == "r.q.*" && "*" + "." + "a" == "*.a"
    ensures "r" + "." + "q" + "." + "a" == "r.q.a" && Lower(Reverse("r.q.a")) == "a.q.r"
  {
    assert Reverse("r.q.a") == "a.q.r";
  }

  lemma ForgottenMatches()
    ensures Matches("r.q.*", "r.q.a")
  {
    ForgottenText();
    ThreeLabels("r", "q", "*");
    ThreeLabels("r", "q", "a");
    assert LabelsMatch(["r", "q", "*"], ["r", "q", "a"]);
  }

  lemma ForgottenKeys()
    ensures RevKey(["*", "q", "r"]) == "*.q.r" && RevKey(["a", "*"]) == "a.*"
  {
    var p, q := ["*", "q", "r"], ["a", "*"];
    assert Reverse(p) == ["r", "q", "*"] && Reverse(q) == ["*", "a"];
    assert ["r", "q", "*"][1..] == ["q", "*"] && ["q", "*"][1..] == ["*"] && ["*", "a"][1..] == ["a"];
    assert Join(["q", "*"]) == "q.*" && Join(["r", "q", "*"]) == "r.q.*" && Join(["*", "a"]) == "*.a";
    assert Reverse("r.q.*") == "*.q.r" && Reverse("*.a") == "a.*";
  }

  lemma ForgottenStored()
    ensures StoredAt(["r.q.*", "*.a"], [["*", "q", "r"], ["a", "*"]])
    ensures KeysOf([["*", "q", "r"], ["a", "*"]]) == ["*.q.r", "a.*"]
  {
    ForgottenText();
    ForgottenKeys();
    ThreeLabels("r", "q", "*");
    TwoLabels("*", "a");
    BothStored("r.q.*", "*.a", ["*", "q", "r"], ["a", "*"], "*.q.r", "a.*");
  }

  lemma OnceOrTwice(keys: seq<string>, x: string, y: string)
    requires SameKeys(keys, [x, y])
    ensures SameKeys(keys, [x, y, y])
  {
    forall k ensures k in [x, y] <==> k in [x, y, y] {}
  }

  /** With `r.q.*` and `*.a` stored, the trie finds `r.q.a` and the set does not: it gives up
      at the `*` it has met last. */
  method OtherStarIsForgotten() returns (inSet: bool, inTrie: bool)
    ensures inTrie && !inSet
  {
    ghost var paths := [["*", "q", "r"], ["a", "*"]];
    ForgottenStored();
    SomeBeginnings(KeysOf(paths), 12);
    ghost var ds, keys;
    inSet, inTrie, ds, keys := AskBoth(["r.q.*", "*.a"], paths, "r.q.a");
    ForgottenText();
    OnceOrTwice(keys, "*.q.r", "a.*");
    AnswersNo(ds, keys, inSet);
    ForgottenMatches();
    assert Matches(["r.q.*", "*.a"][0], "r.q.a");
  }

  // ---------------------------------------------------------------- a match that is made up

  function MadeUp(): seq<string> {
    ["*.c", "k-ddc", "k.ddc"]
  }

  lemma OneLabel(x: string)
    requires DotFree(x) && x != "" && x != "+" && Ascii(x)
    ensures ValidAndSplit(x) == Some([x]) && OneStored(x, [x]) && RevKey([x]) == Reverse(x)
  {
    SplitLabel(x);
    assert x[|x| - 1] in x;
    assert Reverse([x]) == [x];
  }

  lemma Spellings()
    ensures "*" + "." + "c" == "*.c" && "k" + "." + "ddc" == "k.ddc"
    ensures Reverse("c") == "c" && Reverse("ddc") == "cdd" && Reverse("k") == "k" && Reverse("*") == "*" &&
      Reverse("k-ddc") == "cdd-k"
    ensures "c" + "." + "*" == "c.*" && "cdd" + "." + "k" == "cdd.k"
  {
  }

  lemma StarOfC()
    ensures ValidAndSplit("*.c") == Some(["*", "c"]) && OneStored("*.c", ["c", "*"]) && RevKey(["c", "*"]) == "c.*"
  {
    Spellings();
    TwoLabels("*", "c");
  }

  lemma WordWithDash()
    ensures ValidAndSplit("k-ddc") == Some(["k-ddc"]) && OneStored("k-ddc", ["k-ddc"]) && RevKey(["k-ddc"]) == "cdd-k"
  {
    Spellings();
    OneLabel("k-ddc");
  }

  lemma WordsWithDot()
    ensures ValidAndSplit("k.ddc") == Some(["k", "ddc"]) && OneStored("k.ddc", ["ddc", "k"]) &&
      RevKey(["ddc", "k"]) == "cdd.k"
  {
    Spellings();
    TwoLabels("k", "ddc");
  }

  lemma ThreeStored(patterns: seq<string>, p: seq<string>, q: seq<string>, r: seq<string>)
    requires |patterns| == 3 && OneStored(patterns[0], p) && OneStored(patterns[1], q) && OneStored(patterns[2], r)
    ensures StoredAt(patterns, [p, q, r]) && KeysOf([p, q, r]) == [RevKey(p), RevKey(q), RevKey(r)]
  {
  }

  // Patterns without a leading dot or `+` match domains of as many labels only.
  lemma OtherLength(pattern: string, d: string)
    requires ValidAndSplit(pattern).Some? && ValidAndSplit(pattern).value[0] !in {"", "+"}
    requires |ValidAndSplit(pattern).value| != |Split(d)|
    ensures !Matches(pattern, d)
  {
    ValidParts(d);
  }

  lemma ThreeParts()
    ensures |Split("k.b.c")| == 3 && Lower(Reverse("k.b.c")) == "c.b.k"
  {
    var x, y, z := "k", "b", "c";
    SplitLabel(x);
    SplitLabel(y);
    SplitLabel(z);
    SplitAtDot(y, z);
    SplitAtDot(x, y + "." + z);
    assert x + "." + (y + "." + z) == "k.b.c";
    assert Reverse("k.b.c") == "c.b.k";
  }

  lemma NothingMatches(pattern: string)
    requires pattern in MadeUp()
    ensures !Matches(pattern, "k.b.c")
  {
    ThreeParts();
    StarOfC();
    WordWithDash();
    WordsWithDot();
    OtherLength(pattern, "k.b.c");
  }

  lemma MadeUpStored()
    ensures StoredAt(MadeUp(), [["c", "*"], ["k-ddc"], ["ddc", "k"]])
    ensures KeysOf([["c", "*"], ["k-ddc"], ["ddc", "k"]]) == ["c.*", "cdd-k", "cdd.k"]
  {
    StarOfC();
    WordWithDash();
    WordsWithDot();
    ThreeStored(MadeUp(), ["c", "*"], ["k-ddc"], ["ddc", "k"]);
  }

  lemma StarKeepsApart(p: seq<string>, r: seq<string>)
    requires p in {["c", "*"], ["k-ddc"], ["ddc", "k"]} && r in {["c", "*"], ["k-ddc"], ["ddc", "k"]}
    ensures PathsApart(p, r)
  {
    forall i | 0 <= i < |p| && i < |r| && p[i] == "*" && r[..i] == p[..i] ensures r[i] == "*" {
      assert i == 1 && p == ["c", "*"];
      assert r[..1][0] == p[..1][0];
    }
  }

  lemma PathsKeepApart(patterns: seq<string>, paths: seq<seq<string>>)
    requires StoredAt(patterns, paths) && forall i, j :: 0 <= i < |paths| && 0 <= j < |paths| ==>
      PathsApart(paths[i], paths[j])
    ensures PatternsApart(Run(patterns))
  {
    forall k, p | 0 <= k < |patterns| && p in PathsOf(Run(patterns)[k].0) ensures p == paths[k] {
      assert OneStored(patterns[k], paths[k]);
    }
  }

  // The run is one of those for which the set misses nothing.
  lemma MadeUpIsApart()
    ensures PatternsApart(Run(MadeUp()))
  {
    MadeUpStored();
    var paths := [["c", "*"], ["k-ddc"], ["ddc", "k"]];
    forall i, j | 0 <= i < 3 && 0 <= j < 3
      ensures PathsApart(paths[i], paths[j])
    {
      StarKeepsApart(paths[i], paths[j]);
    }
    PathsKeepApart(MadeUp(), paths);
  }

  lemma PlainParts(pattern: string, parts: seq<string>)
    requires ValidAndSplit(pattern) == Some(parts) && parts != [] && PatternLabels(parts)
    ensures PlainPattern(pattern)
  {
  }

  lemma PlainWords()
    ensures PatternLabels(["*", "c"]) && PatternLabels(["k-ddc"]) && PatternLabels(["k", "ddc"])
  {
    assert PlainLabel("c") && PlainLabel("k-ddc") && PlainLabel("k") && PlainLabel("ddc");
  }

  lemma MadeUpIsPlain(k: nat)
    requires k < 3
    ensures PlainPattern(MadeUp()[k])
  {
    PlainWords();
    if k == 0 {
      StarOfC();
      PlainParts("*.c", ["*", "c"]);
    } else if k == 1 {
      WordWithDash();
      PlainParts("k-ddc", ["k-ddc"]);
    } else {
      WordsWithDot();
      PlainParts("k.ddc", ["k", "ddc"]);
    }
  }

  /** The patterns `*.c`, `k-ddc` and `k.ddc` keep their `*` apart, none of them matches
      `k.b.c`, and the set accepts it. */
  method MatchIsMadeUp() returns (inSet: bool, inTrie: bool)
    ensures inSet && !inTrie
    ensures PatternsApart(Run(MadeUp())) && forall k :: 0 <= k < 3 ==>
      PlainPattern(MadeUp()[k]) && !Matches(MadeUp()[k], "k.b.c")
  {
    MadeUpStored();
    ghost var paths := [["c", "*"], ["k-ddc"], ["ddc", "k"]];
    SomeBeginnings(KeysOf(paths), 12);
    ghost var ds, keys;
    inSet, inTrie, ds, keys := AskBoth(MadeUp(), paths, "k.b.c");
    ThreeParts();
    AnswersYes(ds, keys, inSet);
    MadeUpIsApart();
    forall k | 0 <= k < 3 ensures PlainPattern(MadeUp()[k]) && !Matches(MadeUp()[k], "k.b.c") {
      MadeUpIsPlain(k);
      NothingMatches(MadeUp()[k]);
    }
  }

  // ---------------------------------------------------------------- keys that clash

  // The paths at which `+.+.x` and `.x` are reported as the same key.
  lemma ClashingPaths(x: string)
    requires DotFree(x) && x != ""
    ensures [x, "+"] in PathsOf("+.+." + x) && [x, ""] in PathsOf("." + x)
  {
    var long, short := ["+", "+", x], ["", x];
    assert long[1..] == ["+", x] && ["+", x][1..] == [x] && short[1..] == [x];
    assert Join([x]) == x && Join(["+", x]) == "+" + "." + x && Join(long) == "+" + "." + Join(["+", x]);
    assert Join(long) == "+.+." + x && Join(short) == "." + x;
    JoinIsValid(long);
    JoinIsValid(short);
    assert Reverse(long[1..]) == [x, "+"] && Reverse(short) == [x, ""];
  }

  lemma PatternsClash(n: DomainTrie.Node<bool>, x: string)
    requires DotFree(x) && x != "" && Stores(n, Run(["+.+." + x, "." + x]))
    ensures !NoClash(n)
  {
    var run := Run(["+.+." + x, "." + x]);
    ClashingPaths(x);
    RunPath(n, run, [x, "+"]);
    RunPath(n, run, [x, ""]);
    assert [x, "+"] in PathsOf(run[0].0) && [x, ""] in PathsOf(run[1].0);
    assert [x] + [""] == [x, ""] && [x] + ["+"] == [x, "+"];
    assert Lookup(n, [x] + [""]).Some? && Lookup(n, [x] + ["+"]).Some?;
  }

  /** With `+.+.x` and `.x` stored, for any label x, the construction of the set never ends. */
  method NeverBuilt(x: string) returns (keys: seq<string>)
    requires DotFree(x) && x != ""
    ensures keys != [] && Sorted(keys) && !Ends(keys)
  {
    var trie := InsertAll(["+.+." + x, "." + x]);
    var out := DomainTraversal.Traverse(trie.root, _ => true);
    keys := SortKeys(ReverseAll(out));
    PatternsClash(trie.root, x);
    SomeReport(trie.root, out);
    TrieEndsIff(trie.root, trie.history, out);
    SortKeysSorted(ReverseAll(out));
    assert |multiset(keys)| == |multiset(ReverseAll(out))|;
  }

  lemma SomeReport<T>(n: DomainTrie.Node<T>, out: seq<string>)
    requires Reports(n, [], out, true) && !NoClash(n)
    ensures out != []
  {
    var paths :| Lists(n, paths, true) && ReportedAs(out, [], paths);
    var p :| p != [] && Lookup(n, p + [""]).Some? && Lookup(n, p + ["+"]).Some?;
    assert p + [""] in paths;
  }

  // ---------------------------------------------------------------- refusals that are ignored

  lemma LabelAndPair(n: DomainTrie.Node<bool>, x: string, y: string, p: seq<string>)
    requires DotFree(x) && DotFree(y) && x != "" && y != "" && x != "+" && y != "+"
    requires Stores(n, Run([y, x + "." + y]))
    ensures Lookup(n, p).Some? <==> p == [y] || p == [y, x]
  {
    OneLabelPath(y);
    TwoLabels(x, y);
    TwoPaths(n, y, x + "." + y, [y], [y, x], p);
  }

  lemma OneLabelPath(y: string)
    requires DotFree(y) && y != "" && y != "+"
    ensures PathsOf(y) == {[y]}
  {
    SplitLabel(y);
    assert y[|y| - 1] in y && Reverse([y]) == [y];
  }

  // Two patterns with one path each.
  lemma TwoPaths(n: DomainTrie.Node<bool>, a: string, b: string, pa: seq<string>, pb: seq<string>, p: seq<string>)
    requires Stores(n, Run([a, b])) && PathsOf(a) == {pa} && PathsOf(b) == {pb}
    ensures Lookup(n, p).Some? <==> p == pa || p == pb
  {
    var run := Run([a, b]);
    assert |run| == 2 && run[0].0 == a && run[1].0 == b;
    RunPath(n, run, p);
  }

  predicate Refuses(log: seq<string>) {
    false
  }

  lemma OrderOfTwo(paths: seq<seq<string>>, a: seq<string>, b: seq<string>)
    requires a in paths && b in paths && a != b && forall k :: 0 <= k < |paths| ==> paths[k] == a || paths[k] == b
    requires Distinct(paths) && forall i :: 0 <= i < |paths| - 1 ==> paths[i] != b
    ensures paths == [a, b]
  {
    DistinctSize(paths);
    assert (set p | p in paths) == {a, b};
    assert paths[0] == a && paths[1] == b;
  }

  lemma {:induction false} DistinctSize<T>(s: seq<T>)
    requires Distinct(s)
    ensures |set x | x in s| == |s|
  {
    if s != [] {
      var init, last := s[..|s| - 1], s[|s| - 1];
      DistinctSize(init);
      assert (set x | x in s) == (set x | x in init) + {last};
    }
  }

  // A list of these two paths, none twice, in which a refused first-level path is the last.
  lemma LongerFirst(n: DomainTrie.Node<bool>, x: string, y: string, out: seq<string>, paths: seq<seq<string>>)
    requires Traversed(n, Refuses, out, paths)
    requires forall p :: Lookup(n, p).Some? <==> p == [y] || p == [y, x]
    ensures paths == [[y, x], [y]]
  {
    BothListed(n, x, y, out, paths);
    forall k | 0 <= k < |paths| ensures paths[k] == [y, x] || paths[k] == [y] { assert paths[k] in paths; }
    forall i | 0 <= i < |paths| - 1 ensures paths[i] != [y] { assert MayFollow(Refuses, out, paths, i, i + 1); }
    assert [y, x] != [y] by { assert |[y, x]| != |[y]|; }
    OrderOfTwo(paths, [y, x], [y]);
  }

  lemma BothListed(n: DomainTrie.Node<bool>, x: string, y: string, out: seq<string>, paths: seq<seq<string>>)
    requires Traversed(n, Refuses, out, paths)
    requires forall p :: Lookup(n, p).Some? <==> p == [y] || p == [y, x]
    ensures [y] in paths && [y, x] in paths
  {
    FirstLevel(n, y);
    if Stopped(Refuses, out, paths) {
      assert paths[|out| - 1] in paths && paths[|out| - 1][0] == y;
    }
    assert Visited(n, Refuses, out, paths, y);
    if AllBelow(n, paths, y) {
      assert |[y, x]| > 1 && [y, x][0] == y;
    } else {
      RefusedIsListed(n, x, y, out, paths);
    }
  }

  lemma RefusedIsListed(n: DomainTrie.Node<bool>, x: string, y: string, out: seq<string>, paths: seq<seq<string>>)
    requires Lists(n, paths, false) && |out| == |paths| && RefusedBelow(Refuses, out, paths, y)
    requires forall p :: Lookup(n, p).Some? <==> p == [y] || p == [y, x]
    ensures [y, x] in paths
  {
    var m :| 0 <= m < |paths| && RefusedAt(Refuses, out, paths, m) && |paths[m]| > 1 && paths[m][0] == y;
    assert paths[m] in paths;
    assert |[y]| == 1;
  }

  lemma FirstLevel(n: DomainTrie.Node<bool>, y: string)
    requires Lookup(n, [y]).Some?
    ensures y in n.children && n.children[y].data.Some?
  {
    assert [y] + [] == [y];
    StepDown(n, y, []);
  }

  /** With `y` and `x.y` stored, a callback that always refuses is still given both. */
  method RefusalIgnored(x: string, y: string) returns (out: seq<string>)
    requires DotFree(x) && DotFree(y) && x != "" && y != "" && x != "+" && y != "+"
    ensures out == [x + "." + y, y]
  {
    var trie := InsertAll([y, x + "." + y]);
    out := DomainTraversal.Traverse(trie.root, Refuses);
    BothReported(trie.root, x, y, out);
  }

  lemma BothReported(n: DomainTrie.Node<bool>, x: string, y: string, out: seq<string>)
    requires DotFree(x) && DotFree(y) && x != "" && y != "" && x != "+" && y != "+"
    requires Stores(n, Run([y, x + "." + y])) && exists paths :: Traversed(n, Refuses, out, paths)
    ensures out == [x + "." + y, y]
  {
    forall p ensures Lookup(n, p).Some? <==> p == [y] || p == [y, x] { LabelAndPair(n, x, y, p); }
    var paths :| Traversed(n, Refuses, out, paths);
    LongerFirst(n, x, y, out, paths);
    PairIsReported(x, y);
    TwoReports(out, [y, x], [y]);
  }

  lemma TwoReports(out: seq<string>, p: seq<string>, q: seq<string>)
    requires ReportedAs(out, [], [p, q]) && p != [] && q != []
    ensures out == [KeyOf(p), KeyOf(q)]
  {
    assert [] + p == p && [] + q == q && [p, q][0] == p && [p, q][1] == q;
  }

  lemma PairIsReported(x: string, y: string)
    requires DotFree(x) && x != ""
    ensures KeyOf([y, x]) == x + "." + y && KeyOf([y]) == y
  {
    assert Reverse([y, x]) == [x, y] && [x, y][1..] == [y] && Join([y]) == y;
    assert Join([x, y]) == x + "." + y && (x + "." + y)[0] == x[0] && x[0] in x;
  }
}
