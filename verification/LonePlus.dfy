/** What the lone pattern `+` does: the trie finds every domain, while the set stores an empty
    key for it. */
module LonePlus {
  import opened Basics
  import opened DomainNames
  import opened SortedKeys
  import opened KeyGlob
  import opened SuccinctSet
  import opened SetLookup
  import opened DomainTrie
  import opened DomainTraversal
  import opened DomainIndex
  import opened LabelGlob
  import opened DomainAgreement

  // ---------------------------------------------------------------- long labels

  // A length that no key has.
  function Longer(keys: seq<string>): nat {
    if keys == [] then 1 else |keys[0]| + Longer(keys[1..])
  }

  lemma {:induction false} LongerThanAll(keys: seq<string>, k: string)
    requires k in keys
    ensures |k| < Longer(keys)
  {
    if k != keys[0] {
      LongerThanAll(keys[1..], k);
    } else {
      LongerPositive(keys[1..]);
    }
  }

  lemma {:induction false} LongerPositive(keys: seq<string>)
    ensures Longer(keys) > 0
  {
    if keys != [] { LongerPositive(keys[1..]); }
  }

  lemma {:induction false} JoinIsLong(ls: seq<string>, i: nat)
    requires i < |ls|
    ensures |Join(ls)| >= |ls[i]| && |Join(ls)| >= |ls| - 1
  {
    if |ls| > 1 { JoinIsLong(ls[1..], if i > 0 then i - 1 else 0); }
  }

  // A key is as long as each of the labels it was made of, and as their number.
  lemma KeyIsLong(p: seq<string>, i: nat)
    requires PatternPath(p) && p != [""] && i < |p|
    ensures |RevKey(p)| >= |p[i]| && |RevKey(p)| >= |p| - 1
  {
    KeyIsJoin(p);
    JoinIsLong(KeyLabels(p), i);
  }

  function Copies(x: string, n: nat): (r: seq<string>)
    ensures |r| == n && forall i :: 0 <= i < n ==> r[i] == x
  {
    seq(n, _ => x)
  }

  // Plain labels, joined, are a plain domain.
  lemma JoinIsPlain(ls: seq<string>)
    requires ls != [] && PlainLabels(ls)
    ensures ValidAndSplit(Join(ls)) == Some(ls) && PlainDomain(Join(ls))
  {
    forall i | 0 <= i < |ls| ensures ls[i] != "" && DotFree(ls[i]) { PlainHas(ls[i]); }
    assert ls[0] != "";
    JoinIsValid(ls);
  }

  // A plain label of some length.
  lemma LongLabel(n: nat) returns (x: string)
    requires n > 0
    ensures |x| == n && PlainLabel(x)
  {
    x := seq(n, _ => 'a');
  }

  // ---------------------------------------------------------------- paths of stars

  function StarPath(m: nat): (r: seq<string>)
    ensures |r| == m && forall i :: 0 <= i < m ==> r[i] == "*"
  {
    seq(m, _ => "*")
  }

  lemma StarsMatch(m: nat, labels: seq<string>)
    requires labels != [] && forall i :: 0 <= i < |labels| ==> labels[i] != ""
    ensures |labels| == m ==> PathMatches(StarPath(m), labels)
    ensures 0 < m < |labels| ==> PathMatches(StarPath(m) + [""], labels)
  {
    PlainPathMatches(StarPath(m), labels);
    DotPathMatches(StarPath(m), labels);
  }

  // What matches copies of a label that it does not hold is a path of stars, with or
  // without a leading dot.
  lemma {:induction false} OnlyStarsMatch(p: seq<string>, x: string, n: nat)
    requires x != "" && PathMatches(p, Copies(x, n)) && forall i :: 0 <= i < |p| ==> p[i] != x
    ensures p == StarPath(n) || (|p| > 0 && |p| - 1 < n && p == StarPath(|p| - 1) + [""])
  {
    if p != [] {
      assert n > 0 && Copies(x, n)[1..] == Copies(x, n - 1);
      if p[0] == "" {
        assert p == StarPath(0) + [""];
      } else {
        OnlyStarsMatch(p[1..], x, n - 1);
        assert p == ["*"] + p[1..];
        assert ["*"] + StarPath(n - 1) == StarPath(n);
        if |p| > 1 && p[1..] == StarPath(|p| - 2) + [""] { assert ["*"] + StarPath(|p| - 2) == StarPath(|p| - 1); }
      }
    }
  }

  /** Paths of 1 to m stars are stored, and one of m stars after a leading dot: together they
      match everything. */
  ghost predicate StarsCover<T>(n: DomainTrie.Node<T>) {
    exists m: nat :: CoverUpTo(n, m)
  }

  ghost predicate CoverUpTo<T>(n: DomainTrie.Node<T>, m: nat) {
    m > 0 && Lookup(n, StarPath(m) + [""]).Some? && forall j: nat :: 1 <= j <= m ==> Lookup(n, StarPath(j)).Some?
  }

  lemma CoverAccepts<T>(n: DomainTrie.Node<T>, keys: seq<string>, d: string)
    requires PatternTrie(n) && KeyListOf(n, keys) && StarsCover(n) && PlainDomain(d)
    ensures GlobAccepts(keys, Lower(Reverse(d)))
  {
    QueryShape(d);
    var labels := Reverse(ValidAndSplit(d).value);
    forall i | 0 <= i < |labels| ensures labels[i] != "" { PlainHas(labels[i]); }
    var m: nat :| CoverUpTo(n, m);
    if |labels| <= m {
      StarsMatch(|labels|, labels);
      assert StarPath(|labels|)[0] == "*";
      PathGivesGlob(n, keys, labels, StarPath(|labels|));
    } else {
      StarsMatch(m, labels);
      assert |StarPath(m) + [""]| > 1;
      PathGivesGlob(n, keys, labels, StarPath(m) + [""]);
    }
  }

  // What the keys must hold to accept this many copies of a label longer than any key.
  lemma AcceptedCopies<T>(n: DomainTrie.Node<T>, keys: seq<string>, x: string, l: nat) returns (p: seq<string>)
    requires PatternTrie(n) && KeyListOf(n, keys) && l > 0 && PlainLabel(x) && |x| == Longer(keys)
    requires GlobAccepts(keys, Lower(Reverse(Join(Copies(x, l)))))
    ensures Lookup(n, p).Some?
    ensures p == StarPath(l) || (1 < |p| <= l && p == StarPath(|p| - 1) + [""])
  {
    var ls := Copies(x, l);
    JoinIsPlain(ls);
    QueryShape(Join(ls));
    assert Reverse(ls) == ls;
    p := GlobGivesPath(n, keys, ls);
    assert RevKey(p) in keys by { assert p != []; }
    forall i | 0 <= i < |p| ensures p[i] != x {
      LongerThanAll(keys, RevKey(p));
      KeyIsLong(p, i);
    }
    OnlyStarsMatch(p, x, l);
    assert |p| == 1 && p == StarPath(0) + [""] ==> p == [""];
  }

  // The least number of stars that is stored after a leading dot.
  lemma {:induction false} LeastDotted<T>(n: DomainTrie.Node<T>, j: nat) returns (m: nat)
    requires j > 0 && Lookup(n, StarPath(j) + [""]).Some?
    ensures 0 < m <= j && Lookup(n, StarPath(m) + [""]).Some?
    ensures forall i: nat :: 0 < i < m ==> Lookup(n, StarPath(i) + [""]).None?
  {
    if i: nat :| 0 < i < j && Lookup(n, StarPath(i) + [""]).Some? {
      m := LeastDotted(n, i);
    } else {
      m := j;
    }
  }

  ghost predicate AcceptsAll(keys: seq<string>) {
    forall d :: PlainDomain(d) ==> GlobAccepts(keys, Lower(Reverse(d)))
  }

  /** Keys that stand for every plain domain come from covering stars. */
  lemma AcceptsAllIff<T>(n: DomainTrie.Node<T>, keys: seq<string>)
    requires PatternTrie(n) && KeyListOf(n, keys)
    ensures AcceptsAll(keys) <==> StarsCover(n)
  {
    if StarsCover(n) {
      forall d | PlainDomain(d) ensures GlobAccepts(keys, Lower(Reverse(d))) { CoverAccepts(n, keys, d); }
    }
    if AcceptsAll(keys) {
      LongerPositive(keys);
      var x := LongLabel(Longer(keys));
      var many := Longer(keys) + 1;
      var p := CopiesNeed(n, keys, x, many);
      if p == StarPath(many) { TooManyStars(n, keys, many); }
      var m := LeastDotted(n, |p| - 1);
      forall j: nat | 1 <= j <= m ensures Lookup(n, StarPath(j)).Some? {
        var r := CopiesNeed(n, keys, x, j);
      }
      assert CoverUpTo(n, m);
    }
  }

  lemma CopiesNeed<T>(n: DomainTrie.Node<T>, keys: seq<string>, x: string, l: nat) returns (p: seq<string>)
    requires PatternTrie(n) && KeyListOf(n, keys) && l > 0 && PlainLabel(x) && |x| == Longer(keys) && AcceptsAll(keys)
    ensures Lookup(n, p).Some?
    ensures p == StarPath(l) || (1 < |p| <= l && p == StarPath(|p| - 1) + [""])
  {
    JoinIsPlain(Copies(x, l));
    p := AcceptedCopies(n, keys, x, l);
  }

  lemma TooManyStars<T>(n: DomainTrie.Node<T>, keys: seq<string>, l: nat)
    requires PatternTrie(n) && KeyListOf(n, keys) && l > Longer(keys)
    ensures Lookup(n, StarPath(l)).None?
  {
    if Lookup(n, StarPath(l)).Some? {
      var p := StarPath(l);
      assert RevKey(p) in keys && p[0] == "*";
      LongerThanAll(keys, RevKey(p));
      KeyIsLong(p, 0);
    }
  }

  /** The keys stand for what the trie finds on all plain domains exactly if the lone pattern
      `+` is not stored, or stars cover everything it matches. */
  lemma AgreementIff<T>(n: DomainTrie.Node<T>, keys: seq<string>)
    requires PatternTrie(n) && DotsHoldData(n) && KeyListOf(n, keys)
    ensures (forall d :: PlainDomain(d) ==> (GlobAccepts(keys, Lower(Reverse(d))) <==> Search(n, d).Some?)) <==>
      !HoldsLonePlus(n) || StarsCover(n)
  {
    if HoldsLonePlus(n) {
      forall d | PlainDomain(d) ensures Search(n, d).Some? { PlusFindsAll(n, d); }
      AcceptsAllIff(n, keys);
    } else {
      forall d | PlainDomain(d) ensures GlobAccepts(keys, Lower(Reverse(d))) <==> Search(n, d).Some? {
        AgreeOn(n, keys, d);
      }
    }
  }

  lemma PlusFindsAll<T>(n: DomainTrie.Node<T>, d: string)
    requires DotsHoldData(n) && HoldsLonePlus(n) && PlainDomain(d)
    ensures Search(n, d).Some?
  {
    SearchIsMatch(n, d);
    QueryShape(d);
    assert PathMatches([""], Reverse(ValidAndSplit(d).value));
  }

  // ---------------------------------------------------------------- through the set

  // The labels of a stored path are labels of the pattern, or empty.
  lemma LabelOfPattern(pattern: string, p: seq<string>, i: nat)
    requires p in PathsOf(pattern) && i < |p| && p[i] != ""
    ensures |p[i]| <= |pattern| && forall c :: c in p[i] ==> c in pattern
  {
    var parts := ValidAndSplit(pattern).value;
    ValidParts(pattern);
    JoinSplit(pattern);
    assert p[i] in parts;
    var j :| 0 <= j < |parts| && parts[j] == p[i];
    JoinIsLong(parts, j);
    JoinHolds(parts, j);
  }

  lemma {:induction false} JoinHolds(ls: seq<string>, i: nat)
    requires i < |ls|
    ensures forall c :: c in ls[i] ==> c in Join(ls)
  {
    if |ls| > 1 {
      if i > 0 { JoinHolds(ls[1..], i - 1); }
      assert Join(ls) == ls[0] + "." + Join(ls[1..]);
    }
  }

  lemma NoStarLabel<T>(n: DomainTrie.Node<T>, history: seq<(string, T)>)
    requires Stores(n, history) && forall k :: 0 <= k < |history| ==> '*' !in history[k].0
    ensures forall p, i :: Lookup(n, p).Some? && 0 <= i < |p| ==> p[i] != "*"
  {
    forall p, i | Lookup(n, p).Some? && 0 <= i < |p| ensures p[i] != "*" {
      RunPath(n, history, p);
      var k :| 0 <= k < |history| && p in PathsOf(history[k].0);
      assert '*' in "*";
      if p[i] != "" { LabelOfPattern(history[k].0, p, i); }
    }
  }

  lemma LongNotStored<T>(n: DomainTrie.Node<T>, history: seq<(string, T)>, d: string)
    requires Stores(n, history) && d != "" && forall k :: 0 <= k < |history| ==> |history[k].0| < |d|
    ensures Lookup(n, [d]).None?
  {
    RunPath(n, history, [d]);
    forall k | 0 <= k < |history| ensures [d] !in PathsOf(history[k].0) {
      if [d] in PathsOf(history[k].0) { LabelOfPattern(history[k].0, [d], 0); }
    }
  }

  lemma LongIsMissed<T>(n: DomainTrie.Node<T>, keys: seq<string>, d: string)
    requires PatternTrie(n) && KeyListOf(n, keys) && PlainLabel(d)
    requires Lookup(n, [d]).None? && Lookup(n, ["*"]).None?
    ensures PlainDomain(d) && !GlobAccepts(keys, Lower(Reverse(d)))
  {
    assert [d] == Copies(d, 1);
    JoinIsPlain([d]);
    assert Join([d]) == d && Reverse([d]) == [d];
    QueryShape(d);
    if GlobAccepts(keys, Lower(Reverse(d))) {
      var p := GlobGivesPath(n, keys, [d]);
      OneLabelMatch(p, d);
    }
  }

  // The only paths that match one label: the label itself, `*`, and `+`.
  lemma OneLabelMatch(p: seq<string>, d: string)
    requires PatternPath(p) && PlainLabel(d) && PathMatches(p, [d])
    ensures p == [""] || p == [d] || p == ["*"]
  {
    assert [d][1..] == [];
    if p[0] == "" {
      assert p == [""];
    } else {
      assert PathMatches(p[1..], []);
      assert p[1..] == [];
      assert p == [p[0]];
    }
  }

  /** In every run without `*` that inserts the lone `+`, the trie finds every label that is
      longer than all patterns, and the set finds none of them. */
  method LonePlusIsMissed<T>(trie: StringTrie<T>, d: string) returns (inSet: bool, inTrie: bool)
    requires trie.Valid() && PlainLabel(d)
    requires forall k :: 0 <= k < |trie.history| ==>
      PlainPattern(trie.history[k].0) && '*' !in trie.history[k].0 && |trie.history[k].0| < |d|
    requires exists k :: 0 <= k < |trie.history| && trie.history[k].0 == "+"
    requires forall keys :: KeyListOf(trie.root, keys) ==> Fits(keys)
    ensures inTrie && !inSet
  {
    var root := trie.root;
    ghost var history := trie.history;
    NoStarLabel(root, history);
    RunWithoutStars(root, history);
    PatternsFit(root);
    var ds := FromTrie(trie);
    ghost var keys :| KeyListOf(root, keys) && Represents(ds, keys);
    ApartIsAlone(root, keys);
    LongNotStored(root, history, d);
    LongIsMissed(root, keys, d);
    QueryShape(d);
    InnerGoesOn(root, keys, Reverse(ValidAndSplit(d).value));
    PlusFindsAll(root, d);
    inSet := Has(ds, d, keys);
    inTrie := Search(root, d).Some?;
  }

  lemma RunWithoutStars<T>(n: DomainTrie.Node<T>, history: seq<(string, T)>)
    requires Stores(n, history) && (forall k :: 0 <= k < |history| ==> PlainPattern(history[k].0))
    requires forall p, i :: Lookup(n, p).Some? && 0 <= i < |p| ==> p[i] != "*"
    requires exists k :: 0 <= k < |history| && history[k].0 == "+"
    ensures PatternTrie(n) && StarsApart(n) && (forall labels :: StarsInner(n, labels))
    ensures Lookup(n, [""]).Some? && HoldsLonePlus(n) && Lookup(n, ["*"]).None?
  {
    RunIsPattern(n, history);
    var lone := ["*"];
    assert lone[0] == "*";
  }
}
