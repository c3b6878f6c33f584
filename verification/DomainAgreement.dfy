/** When the domain set and the trie it was built from say the same. */
module DomainAgreement {
  import opened Basics
  import opened DomainNames
  import opened SortedKeys
  import opened KeyGlob
  import opened SuccinctSet
  import opened SetLookup
  import opened DomainTrie
  import opened DomainTraversal
  import opened DomainIndex
  import opened LabelGlob

  // ---------------------------------------------------------------- plain labels

  // Characters that sort after `+` and that lower-casing keeps.
  predicate PlainChar(c: char) {
    '+' < c < 128 as char && c != '.' && !('A' <= c <= 'Z')
  }

  predicate PlainLabel(s: string) {
    s != "" && forall i :: 0 <= i < |s| ==> PlainChar(s[i])
  }

  predicate PlainLabels(p: seq<string>) {
    forall i :: 0 <= i < |p| ==> PlainLabel(p[i])
  }

  predicate PlainDomain(d: string) {
    ValidAndSplit(d).Some? && PlainLabels(ValidAndSplit(d).value)
  }

  predicate PatternLabel(s: string) {
    PlainLabel(s) || s == "*"
  }

  predicate PatternLabels(p: seq<string>) {
    forall i :: 0 <= i < |p| ==> PatternLabel(p[i])
  }

  // Plain labels and `*`, perhaps with an empty label at the end for a leading dot.
  predicate PatternPath(p: seq<string>) {
    PatternLabels(p) || (p != [] && p[|p| - 1] == "" && PatternLabels(p[..|p| - 1]))
  }

  ghost predicate PatternTrie<T>(n: DomainTrie.Node<T>) {
    forall p :: Lookup(n, p).Some? ==> PatternPath(p)
  }

  lemma PlainHas(s: string)
    requires PlainLabel(s)
    ensures DotFree(s) && Ascii(s) && s != "+" && s != "*" && '*' !in s && '+' !in s
  {
    assert s[0] != '+' && s[0] != '*';
  }

  lemma PatternHas(s: string)
    requires PatternLabel(s)
    ensures s != "" && DotFree(s) && Ascii(s) && s != "+" && '+' !in s && (s == "*" || '*' !in s)
  {
    if PlainLabel(s) { PlainHas(s); }
  }

  lemma PatternsFit<T>(n: DomainTrie.Node<T>)
    requires PatternTrie(n)
    ensures AsciiPaths(n) && NoClash(n)
  {
    forall p, i | Lookup(n, p).Some? && 0 <= i < |p| ensures Ascii(p[i]) && p[i] != "+" {
      if PatternLabel(p[i]) { PatternHas(p[i]); } else { assert i == |p| - 1; }
    }
    forall p | p != [] && Lookup(n, p + [""]).Some? ensures Lookup(n, p + ["+"]).None? {
      assert (p + ["+"])[|p|] == "+";
    }
  }

  // ---------------------------------------------------------------- keys as joined labels

  // A label as it stands in a key.
  function KeyLabel(l: string): string {
    if l == "" then "+" else Reverse(l)
  }

  function KeyLabels(p: seq<string>): (r: seq<string>)
    ensures |r| == |p| && forall i :: 0 <= i < |p| ==> r[i] == KeyLabel(p[i])
  {
    seq(|p|, i requires 0 <= i < |p| => KeyLabel(p[i]))
  }

  lemma ReverseMembers(s: string, c: char)
    ensures c in Reverse(s) ==> c in s
  {
    if c in Reverse(s) {
      var i :| 0 <= i < |s| && Reverse(s)[i] == c;
      assert s[|s| - 1 - i] == c;
    }
  }

  lemma ReversedLabel(s: string)
    requires PatternLabel(s)
    ensures KeyLabel(s) != "" && DotFree(KeyLabel(s)) && '+' !in KeyLabel(s)
    ensures KeyLabel(s) == "*" || '*' !in KeyLabel(s)
    ensures s == "*" <==> KeyLabel(s) == "*"
  {
    PatternHas(s);
    ReverseMembers(s, '.');
    ReverseMembers(s, '+');
    ReverseMembers(s, '*');
    ReversedStar(s);
  }

  lemma ReversedStar(s: string)
    ensures s == "*" <==> Reverse(s) == "*"
  {
    ReverseTwice(s);
    assert Reverse("*") == "*";
  }

  lemma KeyWords(p: seq<string>)
    requires PatternLabels(p)
    ensures PatternWords(KeyLabels(p))
  {
    forall i | 0 <= i < |p|
      ensures KeyLabels(p)[i] != "" && DotFree(KeyLabels(p)[i]) && (KeyLabels(p)[i] == "*" || '*' !in KeyLabels(p)[i])
    {
      ReversedLabel(p[i]);
    }
  }

  lemma KeyLabelInjective(a: string, b: string)
    requires (a == "" || PatternLabel(a)) && (b == "" || PatternLabel(b)) && KeyLabel(a) == KeyLabel(b)
    ensures a == b
  {
    ReverseTwice(a);
    ReverseTwice(b);
    if a != "" { ReversedLabel(a); }
    if b != "" { ReversedLabel(b); }
    assert '+' in "+";
  }

  lemma MatchBoth(p: seq<string>, labels: seq<string>)
    requires PatternLabels(p) && PlainLabels(labels)
    ensures LabelsMatch(p, labels) <==> LabelsMatch(KeyLabels(p), KeyLabels(labels))
  {
    if |p| == |labels| {
      forall i | 0 <= i < |p|
        ensures p[i] == labels[i] || p[i] == "*" <==> KeyLabels(p)[i] == KeyLabels(labels)[i] || KeyLabels(p)[i] == "*"
      {
        ReversedLabel(p[i]);
        if KeyLabel(p[i]) == KeyLabel(labels[i]) { KeyLabelInjective(p[i], labels[i]); }
      }
    }
  }

  lemma ReverseAtDot(x: string, j: string)
    ensures Reverse(x + "." + j) == Reverse(j) + "." + Reverse(x)
  {
    ReverseConcat(x + ".", j);
    ReverseConcat(x, ".");
    assert Reverse(".") == ".";
  }

  lemma {:induction false} ReverseJoin(parts: seq<string>)
    requires parts != [] && forall i :: 0 <= i < |parts| ==> parts[i] != ""
    ensures Reverse(Join(parts)) == Join(KeyLabels(Reverse(parts)))
  {
    var x, rest := parts[0], parts[1..];
    var ls := KeyLabels(Reverse(rest));
    assert KeyLabels(Reverse(parts)) == ls + [Reverse(x)];
    JoinSnoc(ls, Reverse(x));
    if |parts| > 1 {
      ReverseJoin(rest);
      ReverseAtDot(x, Join(rest));
    }
  }

  /** The key of a stored path is its labels joined, a final empty one as `+`. */
  lemma KeyIsJoin(p: seq<string>)
    requires p != [] && p != [""] && PatternPath(p)
    ensures RevKey(p) == Join(KeyLabels(p))
  {
    if p[|p| - 1] == "" {
      var init := p[..|p| - 1];
      assert p == init + [""];
      DottedJoin(init);
    } else {
      assert PatternLabels(p);
      PlainJoin(p);
    }
  }

  lemma PlainJoin(p: seq<string>)
    requires p != [] && PatternLabels(p)
    ensures RevKey(p) == Join(KeyLabels(p))
  {
    forall i | 0 <= i < |p| ensures p[i] != "" && DotFree(p[i]) { PatternHas(p[i]); }
    ReverseTwice(p);
    ReverseJoin(Reverse(p));
    if |p| > 1 { JoinBegins(Reverse(p)); } else { assert Reverse(p) == p; }
  }

  lemma DottedJoin(init: seq<string>)
    requires init != [] && PatternLabels(init)
    ensures RevKey(init + [""]) == Before(KeyLabels(init)) + ['+']
    ensures RevKey(init + [""]) == Join(KeyLabels(init + [""]))
  {
    DottedReversed(init);
    JoinSnoc(KeyLabels(init), "+");
    assert KeyLabels(init + [""]) == KeyLabels(init) + ["+"];
  }

  lemma DottedReversed(init: seq<string>)
    requires init != [] && PatternLabels(init)
    ensures RevKey(init + [""]) == Join(KeyLabels(init)) + "." + "+"
  {
    forall i | 0 <= i < |init| ensures init[i] != "" && DotFree(init[i]) { PatternHas(init[i]); }
    var rev := Reverse(init);
    DottedKeyOf(init);
    ReverseTwice(init);
    ReverseJoin(rev);
    ReversePlusDot(Join(rev));
  }

  lemma DottedKeyOf(init: seq<string>)
    requires init != [] && AllDotFree(Reverse(init))
    ensures KeyOf(init + [""]) == "+." + Join(Reverse(init))
  {
    assert Reverse(init + [""]) == [""] + Reverse(init);
    DottedKey(Reverse(init));
  }

  lemma ReversePlusDot(j: string)
    ensures Reverse("+." + j) == Reverse(j) + "." + "+"
  {
    ReverseConcat("+.", j);
    assert Reverse("+.") == ".+";
  }

  // ---------------------------------------------------------------- queries

  lemma {:induction false} JoinAbovePlus(ls: seq<string>)
    requires ls != [] && forall i :: 0 <= i < |ls| ==> ls[i] != "" && AbovePlus(ls[i])
    ensures AbovePlus(Join(ls)) && Join(ls) != ""
  {
    if |ls| > 1 { JoinAbovePlus(ls[1..]); }
  }

  /** What `has` looks up for a plain domain: its labels from the right, each reversed. */
  lemma QueryShape(d: string)
    requires PlainDomain(d)
    ensures var labels := Reverse(ValidAndSplit(d).value); var key := Lower(Reverse(d));
      && labels != [] && PlainLabels(labels) && Words(KeyLabels(labels))
      && key == Join(KeyLabels(labels)) && Bytes(key) == key && AbovePlus(key) && key != ""
  {
    var parts := ValidAndSplit(d).value;
    var labels := Reverse(parts);
    JoinSplit(d);
    ReverseJoin(parts);
    QueryWords(labels);
    LowerPlain(parts);
    SameText(d);
  }

  lemma QueryWords(labels: seq<string>)
    requires labels != [] && PlainLabels(labels)
    ensures Words(KeyLabels(labels)) && AbovePlus(Join(KeyLabels(labels))) && Join(KeyLabels(labels)) != ""
  {
    KeyWords(labels);
    forall i | 0 <= i < |labels| ensures KeyLabels(labels)[i] != "" && AbovePlus(KeyLabels(labels)[i]) {
      assert PlainLabel(labels[i]);
    }
    JoinAbovePlus(KeyLabels(labels));
  }

  lemma SameText(d: string)
    requires forall i :: 0 <= i < |d| ==> LowerChar(d[i]) == d[i] == AsByte(d[i])
    ensures Lower(Reverse(d)) == Reverse(d) && Bytes(Reverse(d)) == Reverse(d)
  {
  }

  // Lower-casing and reducing to bytes leave plain text as it is.
  lemma {:induction false} LowerPlain(parts: seq<string>)
    requires parts != [] && PlainLabels(parts)
    ensures forall i :: 0 <= i < |Join(parts)| ==> LowerChar(Join(parts)[i]) == Join(parts)[i] == AsByte(Join(parts)[i])
  {
    if |parts| > 1 { LowerPlain(parts[1..]); }
  }

  // ---------------------------------------------------------------- matching keys and paths

  // A key that ends in `+` is never used up.
  lemma PlusNotConsumed(init: seq<string>, q: string)
    requires init != [] && PatternLabels(init) && AbovePlus(q)
    ensures Consume(RevKey(init + [""]), q).None?
  {
    DottedJoin(init);
    ConsumeStep(Before(KeyLabels(init)), '+', q);
  }

  lemma KeyGivesMatch(p: seq<string>, labels: seq<string>)
    requires p != [] && PatternPath(p) && labels != [] && PlainLabels(labels) && Words(KeyLabels(labels))
    requires AbovePlus(Join(KeyLabels(labels))) && Join(KeyLabels(labels)) != ""
    ensures Consume(RevKey(p), Join(KeyLabels(labels))) == Some(|Join(KeyLabels(labels))|) <==>
      p[|p| - 1] != "" && PathMatches(p, labels)
  {
    if p[|p| - 1] == "" {
      DotIsLast(p, |p| - 1);
      assert p == p[..|p| - 1] + [""];
      if |p| == 1 { assert RevKey(p) == ""; } else { PlusNotConsumed(p[..|p| - 1], Join(KeyLabels(labels))); }
    } else {
      assert PatternLabels(p);
      PlainKeyMatch(p, labels);
    }
  }

  lemma PlainKeyMatch(p: seq<string>, labels: seq<string>)
    requires p != [] && PatternLabels(p) && labels != [] && PlainLabels(labels) && Words(KeyLabels(labels))
    ensures Consume(RevKey(p), Join(KeyLabels(labels))) == Some(|Join(KeyLabels(labels))|) <==> PathMatches(p, labels)
  {
    PlainJoin(p);
    KeyWords(p);
    ConsumeJoin(KeyLabels(p), KeyLabels(labels));
    MatchBoth(p, labels);
    forall i | 0 <= i < |p| ensures p[i] != "" { PatternHas(p[i]); }
    PlainPathMatches(p, labels);
  }

  // The beginning of a dotted key up to its `+`.
  lemma DotGivesMatch(init: seq<string>, labels: seq<string>)
    requires init != [] && PatternLabels(init) && labels != [] && PlainLabels(labels) && Words(KeyLabels(labels))
    ensures var q := Join(KeyLabels(labels)); var r := Consume(Before(KeyLabels(init)), q);
      && (r.Some? <==> PathMatches(init + [""], labels)) && (r.Some? ==> r.value < |q|)
  {
    KeyWords(init);
    ConsumeBefore(KeyLabels(init), KeyLabels(labels));
    DotMatchIff(init, labels);
    if |init| < |labels| { LabelStarts(KeyLabels(labels), |init|); }
  }

  lemma DotMatchIff(init: seq<string>, labels: seq<string>)
    requires init != [] && PatternLabels(init) && PlainLabels(labels)
    ensures PathMatches(init + [""], labels) <==>
      |init| < |labels| && LabelsMatch(KeyLabels(init), KeyLabels(labels)[..|init|])
  {
    forall i | 0 <= i < |init| ensures init[i] != "" { PatternHas(init[i]); }
    DotPathMatches(init, labels);
    if |init| < |labels| {
      FirstLabelsMatch(init, labels);
    }
  }

  // Where a key has a `+`, it closes the key of a dotted path.
  lemma PlusCloses(p: seq<string>, x: nat)
    requires p != [] && PatternPath(p) && x < |RevKey(p)| && RevKey(p)[x] == '+'
    ensures |p| > 1 && p[|p| - 1] == "" && PatternLabels(p[..|p| - 1]) &&
      RevKey(p)[..x] == Before(KeyLabels(p[..|p| - 1]))
  {
    KeyIsJoin(p);
    forall k | 0 <= k < |p| ensures KeyLabels(p)[k] == ['+'] || '+' !in KeyLabels(p)[k] {
      if p[k] != "" { PathLabel(p, k); ReversedLabel(p[k]); }
    }
    var i := SpecialAt(KeyLabels(p), x, '+');
    if p[i] != "" { PathLabel(p, i); ReversedLabel(p[i]); }
    assert '+' in ['+'];
    DotIsLast(p, i);
    assert KeyLabels(p)[..i] == KeyLabels(p[..i]);
  }

  lemma PathLabel(p: seq<string>, k: nat)
    requires PatternPath(p) && k < |p| && p[k] != ""
    ensures PatternLabel(p[k])
  {
    if !PatternLabels(p) { assert p[..|p| - 1][k] == p[k]; }
  }

  lemma DotIsLast(p: seq<string>, i: nat)
    requires PatternPath(p) && i < |p|
    ensures p[i] == "" ==> i == |p| - 1 && PatternLabels(p[..|p| - 1])
  {
    var init := p[..|p| - 1];
    assert PatternLabels(init);
    if i < |init| {
      assert init[i] == p[i];
      PatternHas(init[i]);
    }
  }

  /** What the keys accept, a stored path matches. */
  lemma GlobGivesPath<T>(n: DomainTrie.Node<T>, keys: seq<string>, labels: seq<string>) returns (p: seq<string>)
    requires PatternTrie(n) && KeyListOf(n, keys) && labels != [] && PlainLabels(labels) && Words(KeyLabels(labels))
    requires AbovePlus(Join(KeyLabels(labels))) && Join(KeyLabels(labels)) != ""
    requires GlobAccepts(keys, Join(KeyLabels(labels)))
    ensures p != [""] && Lookup(n, p).Some? && PathMatches(p, labels)
  {
    var q := Join(KeyLabels(labels));
    if k :| k in keys && Consume(k, q) == Some(|q|) {
      p :| p != [] && Lookup(n, p).Some? && k == RevKey(p);
      KeyGivesMatch(p, labels);
    } else {
      var b :| PlusAfter(keys, q, b);
      p := PlusGivesPath(n, keys, labels, b);
    }
  }

  lemma PlusGivesPath<T>(n: DomainTrie.Node<T>, keys: seq<string>, labels: seq<string>, b: string)
    returns (p: seq<string>)
    requires PatternTrie(n) && KeyListOf(n, keys) && labels != [] && PlainLabels(labels) && Words(KeyLabels(labels))
    requires PlusAfter(keys, Join(KeyLabels(labels)), b)
    ensures |p| > 1 && Lookup(n, p).Some? && PathMatches(p, labels)
  {
    var x :| 0 <= x < |keys| && b + ['+'] <= keys[x];
    assert keys[x] in keys;
    p :| p != [] && Lookup(n, p).Some? && keys[x] == RevKey(p);
    var init := PlusBeginning(p, b);
    DotMatches(p, init, labels, b);
  }

  lemma DotMatches(p: seq<string>, init: seq<string>, labels: seq<string>, b: string)
    requires init != [] && PatternLabels(init) && labels != [] && PlainLabels(labels) && Words(KeyLabels(labels))
    requires p == init + [""] && b == Before(KeyLabels(init)) && Consume(b, Join(KeyLabels(labels))).Some?
    ensures PathMatches(p, labels)
  {
    DotGivesMatch(init, labels);
  }

  lemma DropLast(p: seq<string>, last: string) returns (init: seq<string>)
    requires p != [] && p[|p| - 1] == last
    ensures init == p[..|p| - 1] && p == init + [last]
  {
    init := p[..|p| - 1];
  }

  lemma PlusBeginning(p: seq<string>, b: string) returns (init: seq<string>)
    requires p != [] && PatternPath(p) && b + ['+'] <= RevKey(p)
    ensures init != [] && p == init + [""] && PatternLabels(init) && b == Before(KeyLabels(init))
  {
    BeginsThrough(b, '+', RevKey(p));
    PlusCloses(p, |b|);
    init := DropLast(p, "");
  }

  /** What a stored path matches, the keys accept, except for the lone pattern `+`. */
  lemma PathGivesGlob<T>(n: DomainTrie.Node<T>, keys: seq<string>, labels: seq<string>, p: seq<string>)
    requires PatternTrie(n) && KeyListOf(n, keys) && labels != [] && PlainLabels(labels) && Words(KeyLabels(labels))
    requires AbovePlus(Join(KeyLabels(labels))) && Join(KeyLabels(labels)) != ""
    requires p != [""] && Lookup(n, p).Some? && PathMatches(p, labels)
    ensures GlobAccepts(keys, Join(KeyLabels(labels)))
  {
    assert RevKey(p) in keys;
    if p[|p| - 1] == "" {
      var init := LeadingDot(p);
      DotAccepts(keys, init, labels);
    } else {
      KeyGivesMatch(p, labels);
    }
  }

  lemma LeadingDot(p: seq<string>) returns (init: seq<string>)
    requires p != [] && p != [""] && PatternPath(p) && p[|p| - 1] == ""
    ensures init != [] && PatternLabels(init) && p == init + [""]
  {
    DotIsLast(p, |p| - 1);
    init := DropLast(p, "");
  }

  lemma DotAccepts(keys: seq<string>, init: seq<string>, labels: seq<string>)
    requires init != [] && PatternLabels(init) && labels != [] && PlainLabels(labels) && Words(KeyLabels(labels))
    requires RevKey(init + [""]) in keys && PathMatches(init + [""], labels)
    ensures GlobAccepts(keys, Join(KeyLabels(labels)))
  {
    DotGivesMatch(init, labels);
    DottedJoin(init);
    KeyBegins(keys, RevKey(init + [""]));
    assert PlusAfter(keys, Join(KeyLabels(labels)), Before(KeyLabels(init)));
  }

  // ---------------------------------------------------------------- agreement

  // The lone pattern `+`, which is stored as one empty label.
  ghost predicate HoldsLonePlus<T>(n: DomainTrie.Node<T>) {
    Lookup(n, [""]).Some?
  }

  lemma SearchIsMatch<T>(n: DomainTrie.Node<T>, d: string)
    requires DotsHoldData(n) && PlainDomain(d)
    ensures Search(n, d).Some? <==> exists p :: PathMatches(p, Reverse(ValidAndSplit(d).value)) && Lookup(n, p).Some?
  {
    var parts := ValidAndSplit(d).value;
    ReverseTwice(parts);
    SearchInnerFinds(n, Reverse(parts));
  }

  /** The keys stand for a plain domain exactly if the trie finds it, unless the trie holds
      the lone pattern `+`. */
  lemma AgreeOn<T>(n: DomainTrie.Node<T>, keys: seq<string>, d: string)
    requires PatternTrie(n) && DotsHoldData(n) && KeyListOf(n, keys) && PlainDomain(d)
    requires !HoldsLonePlus(n)
    ensures GlobAccepts(keys, Lower(Reverse(d))) <==> Search(n, d).Some?
  {
    var labels := Reverse(ValidAndSplit(d).value);
    QueryShape(d);
    SearchIsMatch(n, d);
    if GlobAccepts(keys, Lower(Reverse(d))) {
      var p := GlobGivesPath(n, keys, labels);
    }
    if p :| PathMatches(p, labels) && Lookup(n, p).Some? {
      PathGivesGlob(n, keys, labels, p);
    }
  }

  /** In two stored paths a `*` never stands beside a label. */
  ghost predicate PathsApart(p: seq<string>, r: seq<string>) {
    forall i :: 0 <= i < |p| && i < |r| && p[i] == "*" && r[..i] == p[..i] ==> r[i] == "*" || r[i] == ""
  }

  ghost predicate StarsApart<T>(n: DomainTrie.Node<T>) {
    forall p, r :: Lookup(n, p).Some? && Lookup(n, r).Some? ==> PathsApart(p, r)
  }

  // The second path shares the labels of the first up to i, and goes on.
  predicate GoesOnAfter(p: seq<string>, r: seq<string>, i: nat) {
    i < |p| && i + 1 < |r| && r[..i + 1] == p[..i + 1]
  }

  // The path matches the first labels up to a `*` at i, and more labels follow.
  predicate PassesStar(p: seq<string>, labels: seq<string>, i: nat) {
    i < |p| && i + 1 < |labels| && p[i] == "*" && LabelsMatch(p[..i + 1], labels[..i + 1])
  }

  /** Some stored path goes on after every `*` that the labels run past. */
  ghost predicate StarsInner<T>(n: DomainTrie.Node<T>, labels: seq<string>) {
    forall p, i: nat :: Lookup(n, p).Some? && PassesStar(p, labels, i) ==>
      exists r :: Lookup(n, r).Some? && GoesOnAfter(p, r, i)
  }

  // A key that goes on after some whole labels: the next label, and how it begins.
  lemma KeyAfter(r: seq<string>, ls: seq<string>, c: char)
    requires r != [] && PatternPath(r) && AllDotFree(ls) && Before(ls) + [c] <= RevKey(r)
    ensures r != [""] && |ls| < |r| && KeyLabels(r)[..|ls|] == ls
    ensures KeyLabels(r)[|ls|] != "" && c == KeyLabels(r)[|ls|][0]
  {
    assert RevKey([""]) == "";
    KeyIsJoin(r);
    KeyLabelWords(r);
    JoinAfter(KeyLabels(r), ls, c);
  }

  lemma KeyLabelWords(r: seq<string>)
    requires PatternPath(r)
    ensures Words(KeyLabels(r)) && AllDotFree(KeyLabels(r))
  {
    forall i | 0 <= i < |r| ensures KeyLabels(r)[i] != "" && DotFree(KeyLabels(r)[i]) {
      if r[i] != "" { PathLabel(r, i); ReversedLabel(r[i]); }
    }
  }

  // A stored path whose key has a `*` after some labels has the label `*` there.
  lemma StarHere(r: seq<string>, ls: seq<string>)
    requires r != [] && PatternPath(r) && AllDotFree(ls) && Before(ls) + ['*'] <= RevKey(r)
    ensures |ls| < |r| && KeyLabels(r)[..|ls|] == ls && r[|ls|] == "*"
    ensures if |ls| + 1 < |r| then Before(ls) + ['*'] + ['.'] <= RevKey(r) else RevKey(r) == Before(ls) + ['*']
  {
    KeyAfter(r, ls, '*');
    KeyIsJoin(r);
    StarLabelIs(r, |ls|);
    StarInKey(KeyLabels(r), ls);
  }

  lemma StarInKey(ks: seq<string>, ls: seq<string>)
    requires |ls| < |ks| && ks[..|ls|] == ls && ks[|ls|] == "*"
    ensures if |ls| + 1 < |ks| then Before(ls) + ['*'] + ['.'] <= Join(ks) else Join(ks) == Before(ls) + ['*']
  {
    if |ls| + 1 < |ks| {
      StarContinues(ks, ls);
    } else {
      assert ks == ls + ["*"];
      JoinSnoc(ls, "*");
    }
  }

  lemma StarLabelIs(r: seq<string>, i: nat)
    requires PatternPath(r) && i < |r| && KeyLabels(r)[i] != "" && KeyLabels(r)[i][0] == '*'
    ensures r[i] == "*" && KeyLabels(r)[i] == "*"
  {
    if r[i] != "" { PathLabel(r, i); ReversedLabel(r[i]); }
    assert KeyLabels(r)[i][0] in KeyLabels(r)[i];
  }

  lemma StarContinues(ks: seq<string>, ls: seq<string>)
    requires |ls| + 1 < |ks| && ks[..|ls|] == ls && ks[|ls|] == "*"
    ensures Before(ls) + ['*'] + ['.'] <= Join(ks)
  {
    JoinSnoc(ls, "*");
    assert ks[..|ls| + 1] == ls + ["*"];
    JoinShortens(ls + ["*"], ks);
  }

  // Where a key has a `*`, the labels before it.
  lemma StarBegins(p: seq<string>, b: string) returns (ls: seq<string>)
    requires p != [] && PatternPath(p) && b + ['*'] <= RevKey(p)
    ensures AllDotFree(ls) && b == Before(ls)
  {
    assert RevKey([""]) == "";
    var k := RevKey(p);
    LongerPrefix(b, '*', k);
    KeyIsJoin(p);
    forall j | 0 <= j < |p| ensures KeyLabels(p)[j] == ['*'] || '*' !in KeyLabels(p)[j] {
      if p[j] != "" { PathLabel(p, j); ReversedLabel(p[j]); }
    }
    var i := SpecialAt(KeyLabels(p), |b|, '*');
    ls := KeyLabels(p)[..i];
    KeyLabelWords(p);
    assert k[..|b|] == b;
  }

  // Equal labels in keys are equal labels in paths.
  lemma {:induction false} SameLabels(p: seq<string>, r: seq<string>, i: nat)
    requires PatternPath(p) && PatternPath(r) && i <= |p| && i <= |r| && KeyLabels(p)[..i] == KeyLabels(r)[..i]
    ensures p[..i] == r[..i]
  {
    forall j | 0 <= j < i ensures p[j] == r[j] {
      assert KeyLabels(p)[..i][j] == KeyLabels(r)[..i][j];
      if p[j] != "" { PathLabel(p, j); }
      if r[j] != "" { PathLabel(r, j); }
      KeyLabelInjective(p[j], r[j]);
    }
  }

  // The stored path behind a key.
  lemma PathOf<T>(n: DomainTrie.Node<T>, keys: seq<string>, b: string) returns (p: seq<string>)
    requires KeyListOf(n, keys) && BeginsKey(keys, b)
    ensures p != [] && Lookup(n, p).Some? && b <= RevKey(p)
  {
    var x :| 0 <= x < |keys| && b <= keys[x];
    assert keys[x] in keys;
    p :| p != [] && Lookup(n, p).Some? && keys[x] == RevKey(p);
  }

  // A sibling of a `*` in the keys is a `*` or a `+`.
  lemma StarSibling<T>(n: DomainTrie.Node<T>, keys: seq<string>, p: seq<string>, ls: seq<string>, c: char)
    requires PatternTrie(n) && StarsApart(n) && KeyListOf(n, keys) && AllDotFree(ls) &&
      BeginsKey(keys, Before(ls) + [c])
    requires Lookup(n, p).Some? && |ls| < |p| && KeyLabels(p)[..|ls|] == ls && p[|ls|] == "*"
    ensures c == '*' || c == '+'
  {
    var r := PathOf(n, keys, Before(ls) + [c]);
    KeyAfter(r, ls, c);
    SameLabels(p, r, |ls|);
    assert PathsApart(p, r);
    assert KeyLabel("*") == "*";
  }

  /** In a trie whose `*` keep apart, the stars of the keys stand alone. */
  lemma ApartIsAlone<T>(n: DomainTrie.Node<T>, keys: seq<string>)
    requires PatternTrie(n) && StarsApart(n) && KeyListOf(n, keys)
    ensures StarsAlone(keys)
  {
    forall b ensures StarAlone(keys, b) {
      if BeginsKey(keys, b + ['*']) {
        StarIsAlone(n, keys, b);
      }
    }
  }

  lemma StarIsAlone<T>(n: DomainTrie.Node<T>, keys: seq<string>, b: string)
    requires PatternTrie(n) && StarsApart(n) && KeyListOf(n, keys) && BeginsKey(keys, b + ['*'])
    ensures StarAlone(keys, b)
  {
    var p := PathOf(n, keys, b + ['*']);
    var ls := StarBegins(p, b);
    StarHere(p, ls);
    forall c | BeginsKey(keys, b + [c]) ensures c == '*' || c == '+' {
      StarSibling(n, keys, p, ls, c);
    }
    forall c | BeginsKey(keys, b + ['*'] + [c]) ensures c == '.' {
      StarThenDot(n, keys, ls, c);
    }
  }

  lemma StarThenDot<T>(n: DomainTrie.Node<T>, keys: seq<string>, ls: seq<string>, c: char)
    requires PatternTrie(n) && KeyListOf(n, keys) && AllDotFree(ls) && BeginsKey(keys, Before(ls) + ['*'] + [c])
    ensures c == '.'
  {
    var b := Before(ls) + ['*'];
    var r := PathOf(n, keys, b + [c]);
    LongerPrefix(b, c, RevKey(r));
    StarHere(r, ls);
    LongerPrefix(b, '.', RevKey(r));
  }

  /** Where stored paths go on after every `*` that the labels run past, so do the keys. */
  lemma InnerGoesOn<T>(n: DomainTrie.Node<T>, keys: seq<string>, labels: seq<string>)
    requires PatternTrie(n) && StarsInner(n, labels) && KeyListOf(n, keys)
    requires labels != [] && PlainLabels(labels) && Words(KeyLabels(labels))
    ensures StarsGoOn(keys, Join(KeyLabels(labels)))
  {
    var q := Join(KeyLabels(labels));
    forall b | RunsPast(keys, q, b) ensures BeginsKey(keys, b + ['*'] + ['.']) {
      var p := PathOf(n, keys, b + ['*']);
      var ls := StarBegins(p, b);
      StarHere(p, ls);
      StarIsPassed(p, ls, labels);
      var r :| Lookup(n, r).Some? && GoesOnAfter(p, r, |ls|);
      OnwardKey(p, r, ls);
      assert RevKey(r) in keys;
      BeginsLonger(keys, RevKey(r), b + ['*'] + ['.']);
    }
  }

  // A query that runs past a `*` in the keys runs past it in the path.
  lemma StarIsPassed(p: seq<string>, ls: seq<string>, labels: seq<string>)
    requires PatternPath(p) && |ls| < |p| && KeyLabels(p)[..|ls|] == ls && p[|ls|] == "*"
    requires labels != [] && PlainLabels(labels) && Words(KeyLabels(labels))
    requires var q := Join(KeyLabels(labels)); var r := Consume(Before(ls), q);
      r.Some? && r.value < |q| && End(q, r.value) < |q|
    ensures PassesStar(p, labels, |ls|)
  {
    var init := p[..|ls|];
    forall i | 0 <= i < |init| ensures PatternLabel(init[i]) { DotIsLast(p, i); PathLabel(p, i); }
    assert KeyLabels(init) == ls;
    KeyWords(init);
    ConsumeBefore(ls, KeyLabels(labels));
    LabelAt(KeyLabels(labels), |ls|);
    FirstLabelsMatch(init, labels);
    StarMatchesNext(p, labels, |ls|);
  }

  lemma FirstLabelsMatch(init: seq<string>, labels: seq<string>)
    requires PatternLabels(init) && PlainLabels(labels) && |init| < |labels|
    ensures LabelsMatch(init, labels[..|init|]) <==> LabelsMatch(KeyLabels(init), KeyLabels(labels)[..|init|])
  {
    var some := labels[..|init|];
    MatchBoth(init, some);
    assert KeyLabels(some) == KeyLabels(labels)[..|init|];
  }

  lemma StarMatchesNext(p: seq<string>, labels: seq<string>, i: nat)
    requires i < |p| && i < |labels| && p[i] == "*" && LabelsMatch(p[..i], labels[..i])
    ensures LabelsMatch(p[..i + 1], labels[..i + 1])
  {
    var a, b := p[..i + 1], labels[..i + 1];
    forall j | 0 <= j < |a| ensures a[j] == b[j] || a[j] == "*" {
      if j < i { assert p[..i][j] == a[j] && labels[..i][j] == b[j]; }
    }
  }

  lemma OnwardKey(p: seq<string>, r: seq<string>, ls: seq<string>)
    requires PatternPath(r) && GoesOnAfter(p, r, |ls|) && KeyLabels(p)[..|ls|] == ls && p[|ls|] == "*"
    ensures Before(ls) + ['*'] + ['.'] <= RevKey(r)
  {
    assert KeyLabel("*") == "*";
    SameKeyLabels(p, r, |ls|);
    StarContinues(KeyLabels(r), ls);
    KeyIsJoin(r);
  }

  lemma SameKeyLabels(p: seq<string>, r: seq<string>, i: nat)
    requires GoesOnAfter(p, r, i)
    ensures KeyLabels(r)[..i] == KeyLabels(p)[..i] && KeyLabels(r)[i] == KeyLabel(p[i])
  {
    forall j | 0 <= j <= i ensures r[j] == p[j] {
      assert r[..i + 1][j] == p[..i + 1][j];
    }
  }

  // ---------------------------------------------------------------- whole runs

  // A pattern of plain labels and `*`, perhaps after a leading dot or `+.`; a rejected one
  // counts too since it stores nothing.
  predicate PlainPattern(pattern: string) {
    ValidAndSplit(pattern).Some? ==>
      var parts := ValidAndSplit(pattern).value;
      |parts| > 0 && PatternLabels(parts[1..]) && (parts[0] == "+" || parts[0] == "" || PatternLabel(parts[0]))
  }

  // In the patterns of a run a `*` never stands beside a label.
  ghost predicate PatternsApart<T>(history: seq<(string, T)>) {
    forall k, j, p, r ::
      0 <= k < |history| && 0 <= j < |history| && p in PathsOf(history[k].0) && r in PathsOf(history[j].0) ==>
        PathsApart(p, r)
  }

  // Some pattern of the run goes on after every `*` that the labels run past.
  ghost predicate PatternsInner<T>(history: seq<(string, T)>, labels: seq<string>) {
    forall k, p, i: nat :: 0 <= k < |history| && p in PathsOf(history[k].0) && PassesStar(p, labels, i) ==>
      exists j, r :: 0 <= j < |history| && r in PathsOf(history[j].0) && GoesOnAfter(p, r, i)
  }

  lemma PlainPatternPaths(pattern: string, p: seq<string>)
    requires PlainPattern(pattern) && p in PathsOf(pattern)
    ensures PatternPath(p)
  {
    var parts := ValidAndSplit(pattern).value;
    var rest := parts[1..];
    if parts[0] == "+" || parts[0] == "" {
      assert p == Reverse(rest) || p == Reverse(rest) + [""];
      if p == Reverse(rest) + [""] { assert p[..|p| - 1] == Reverse(rest); }
    } else {
      assert parts == [parts[0]] + rest;
      assert PatternLabels(parts);
    }
  }

  lemma LonePlusPath(pattern: string)
    ensures [""] in PathsOf(pattern) <==> pattern == "+"
  {
    ValidParts(pattern);
    SplitLabel("+");
    if ValidAndSplit(pattern).Some? {
      JoinSplit(pattern);
      LonePlusParts(ValidAndSplit(pattern).value);
    }
  }

  lemma LonePlusParts(parts: seq<string>)
    requires parts != [] && parts != [""] && forall i :: 1 <= i < |parts| ==> parts[i] != ""
    ensures parts[0] != "+" ==> Reverse(parts) != [""]
    ensures Reverse(parts[1..]) != [""]
    ensures parts[0] == "+" ==> (Reverse([""] + parts[1..]) == [""] <==> parts == ["+"])
  {
    ReverseOne(parts);
    ReverseOne(parts[1..]);
    ReverseOne([""] + parts[1..]);
    assert |parts| > 1 ==> parts[1..][0] == parts[1] != "";
    assert |[""] + parts[1..]| == |parts| && (|parts| == 1 ==> [""] + parts[1..] == [""] && parts == [parts[0]]);
  }

  lemma ReverseOne(s: seq<string>)
    ensures Reverse(s) == [""] <==> s == [""]
  {
    ReverseTwice(s);
    assert Reverse([""]) == [""];
  }

  // A path with data was stored by some pattern of the run, and the other way around.
  lemma RunPath<T>(n: DomainTrie.Node<T>, history: seq<(string, T)>, p: seq<string>)
    requires Stores(n, history)
    ensures Lookup(n, p).Some? <==> exists k :: 0 <= k < |history| && p in PathsOf(history[k].0)
  {
    LastForExists(history, p);
    assert Lookup(n, p) == LastFor(history, p);
  }

  lemma RunIsPattern<T>(n: DomainTrie.Node<T>, history: seq<(string, T)>)
    requires Stores(n, history) && forall k :: 0 <= k < |history| ==> PlainPattern(history[k].0)
    ensures PatternTrie(n)
    ensures HoldsLonePlus(n) <==> exists k :: 0 <= k < |history| && history[k].0 == "+"
  {
    forall p | Lookup(n, p).Some? ensures PatternPath(p) {
      RunPath(n, history, p);
      var k :| 0 <= k < |history| && p in PathsOf(history[k].0);
      PlainPatternPaths(history[k].0, p);
    }
    RunPath(n, history, [""]);
    forall k | 0 <= k < |history| ensures [""] in PathsOf(history[k].0) <==> history[k].0 == "+" {
      LonePlusPath(history[k].0);
    }
  }

  lemma RunIsApart<T>(n: DomainTrie.Node<T>, history: seq<(string, T)>)
    requires Stores(n, history) && PatternsApart(history)
    ensures StarsApart(n)
  {
    forall p | Lookup(n, p).Some? ensures exists k :: 0 <= k < |history| && p in PathsOf(history[k].0) {
      RunPath(n, history, p);
    }
  }

  lemma RunStoresSome<T>(n: DomainTrie.Node<T>, history: seq<(string, T)>, k: nat)
    requires Stores(n, history) && k < |history| && ValidAndSplit(history[k].0).Some?
    ensures exists p :: p != [] && Lookup(n, p).Some?
  {
    var parts := ValidAndSplit(history[k].0).value;
    ValidParts(history[k].0);
    var p := if parts[0] == "+" then Reverse([""] + parts[1..]) else Reverse(parts);
    LastForExists(history, p);
    assert p in PathsOf(history[k].0) && |p| > 0;
    assert Lookup(n, p).Some?;
  }

  lemma RunIsInner<T>(n: DomainTrie.Node<T>, history: seq<(string, T)>, labels: seq<string>)
    requires Stores(n, history) && PatternsInner(history, labels)
    ensures StarsInner(n, labels)
  {
    forall p, i: nat | Lookup(n, p).Some? && PassesStar(p, labels, i)
      ensures exists r :: Lookup(n, r).Some? && GoesOnAfter(p, r, i)
    {
      RunPath(n, history, p);
      var k :| 0 <= k < |history| && p in PathsOf(history[k].0);
      var j, r :| 0 <= j < |history| && r in PathsOf(history[j].0) && GoesOnAfter(p, r, i);
      RunPath(n, history, r);
    }
  }

  /** For every run of insertions of plain patterns whose `*` keep apart, and without the
      lone `+`: the trie finds a plain domain exactly if some pattern matches, and the set
      built from it, asked for the domain in any mixture of cases, never misses one; it
      accepts no other unless the domain runs past a `*` that no pattern goes on after. */
  method AgreesOverRun<T>(trie: StringTrie<T>, d: string, typed: string) returns (inSet: bool, inTrie: bool)
    requires trie.Valid() && PlainDomain(d) && SameButCase(typed, d) && PatternsApart(trie.history)
    requires forall k :: 0 <= k < |trie.history| ==> PlainPattern(trie.history[k].0) && trie.history[k].0 != "+"
    requires exists k :: 0 <= k < |trie.history| && ValidAndSplit(trie.history[k].0).Some?
    requires forall keys :: KeyListOf(trie.root, keys) ==> Fits(keys)
    ensures inTrie <==> exists k :: 0 <= k < |trie.history| && Matches(trie.history[k].0, d)
    ensures inTrie ==> inSet
    ensures PatternsInner(trie.history, Reverse(ValidAndSplit(d).value)) ==> inSet == inTrie
  {
    var root := trie.root;
    ghost var history := trie.history;
    RunIsPattern(root, history);
    RunIsApart(root, history);
    ghost var k :| 0 <= k < |history| && ValidAndSplit(history[k].0).Some?;
    RunStoresSome(root, history, k);
    PatternsFit(root);
    var ds := FromTrie(trie);
    ghost var keys :| KeyListOf(root, keys) && Represents(ds, keys);
    inSet := Has(ds, typed, keys);
    inTrie := Search(root, d).Some?;
    ApartIsAlone(root, keys);
    LowerIgnoresCase(typed, d);
    QueryShape(d);
    ghost var labels := Reverse(ValidAndSplit(d).value);
    if PatternsInner(history, labels) {
      RunIsInner(root, history, labels);
      InnerGoesOn(root, keys, labels);
    }
    AgreeOn(root, keys, d);
    SearchMeansMatch(root, history, d);
  }
}
