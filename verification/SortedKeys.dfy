/** Key lists in byte order, and the prefixes of their keys. */
module SortedKeys {
  import opened Basics


  // The first n characters agree, and there a ends or has the smaller character.
  predicate DiffAt(a: string, b: string, n: nat) {
    n <= |a| && n < |b| && a[..n] == b[..n] && (n == |a| || a[n] < b[n])
  }

  ghost predicate Less(a: string, b: string) {
    exists n: nat :: DiffAt(a, b, n)
  }

  ghost predicate StrictlySorted(keys: seq<string>) {
    forall i, j :: 0 <= i < j < |keys| ==> Less(keys[i], keys[j])
  }

  predicate Ascii(s: string) {
    forall i :: 0 <= i < |s| ==> s[i] < 128 as char
  }

  predicate AsciiKeys(keys: seq<string>) {
    forall k :: 0 <= k < |keys| ==> Ascii(keys[k])
  }

  // p begins some key.
  ghost predicate BeginsKey(keys: seq<string>, p: string) {
    exists k :: 0 <= k < |keys| && p <= keys[k]
  }

  // The lists hold the same keys.
  ghost predicate SameKeys(keys: seq<string>, ks: seq<string>) {
    forall k :: k in keys <==> k in ks
  }

  ghost function Prefixes(keys: seq<string>): set<string> {
    set k, n | 0 <= k < |keys| && 0 <= n <= |keys[k]| :: keys[k][..n]
  }

  lemma PrefixesAreBeginnings(keys: seq<string>, p: string)
    ensures p in Prefixes(keys) <==> BeginsKey(keys, p)
  {
    if BeginsKey(keys, p) {
      var k :| 0 <= k < |keys| && p <= keys[k];
      assert p == keys[k][..|p|];
    }
  }

  lemma SharedAt(a: string, b: string, n: nat, i: nat)
    requires i < n <= |a| && n <= |b| && a[..n] == b[..n]
    ensures a[i] == b[i]
  {
    assert a[..n][i] == b[..n][i];
  }

  lemma LongerPrefix(p: string, c: char, s: string)
    ensures p + [c] <= s <==> p <= s && |p| < |s| && s[|p|] == c
  {
    if p <= s && |p| < |s| && s[|p|] == c {
      assert s[..|p| + 1] == p + [c];
    }
    assert (p + [c])[..|p|] == p;
  }

  lemma BeginsThrough(b: string, c: char, k: string)
    requires b + [c] <= k
    ensures |b| < |k| && k[|b|] == c && k[..|b|] == b
  {
    LongerPrefix(b, c, k);
  }

  // Two keys in order that share their first n characters are in order at n.
  lemma LessAfterPrefix(a: string, b: string, n: nat)
    requires Less(a, b) && n <= |a| && n <= |b| && a[..n] == b[..n]
    ensures n < |b| && (n < |a| ==> a[n] <= b[n])
  {
    var d: nat :| DiffAt(a, b, d);
    if d < n { SharedAt(a, b, n, d); }
    if n < d { SharedAt(a, b, d, n); }
  }

  // The first position where the strings differ or one ends.
  function FirstDiff(a: string, b: string): (n: nat)
    ensures n <= |a| && n <= |b| && a[..n] == b[..n]
    ensures n < |a| && n < |b| ==> a[n] != b[n]
  {
    if a == "" || b == "" || a[0] != b[0] then 0
    else
      var n := FirstDiff(a[1..], b[1..]);
      assert a[..n + 1] == [a[0]] + a[1..][..n] && b[..n + 1] == [b[0]] + b[1..][..n];
      n + 1
  }

  lemma LessTransitive(a: string, b: string, c: string)
    requires Less(a, b) && Less(b, c)
    ensures Less(a, c)
  {
    var i: nat :| DiffAt(a, b, i);
    var j: nat :| DiffAt(b, c, j);
    var n := if i < j then i else j;
    assert a[..n] == b[..i][..n] == b[..n] && b[..n] == c[..j][..n] == c[..n] by {
      assert a[..i][..n] == a[..n] && b[..i][..n] == b[..n] && b[..j][..n] == b[..n] && c[..j][..n] == c[..n];
    }
    if i < j { SharedAt(b, c, j, i); } else if j < i { SharedAt(a, b, i, j); }
    assert DiffAt(a, c, n);
  }

  lemma LessIsNotEqual(a: string, b: string)
    requires Less(a, b)
    ensures a != b
  {
    var n: nat :| DiffAt(a, b, n);
    if n < |a| { assert a[n] != b[n]; }
  }

  ghost predicate InOrder(a: string, b: string) {
    a == b || Less(a, b)
  }

  ghost predicate Sorted(keys: seq<string>) {
    forall i, j :: 0 <= i < j < |keys| ==> InOrder(keys[i], keys[j])
  }

  lemma {:induction false} DistinctCounts(s: seq<string>)
    ensures Distinct(s) <==> forall x :: multiset(s)[x] <= 1
  {
    if s != [] {
      var init, last := s[..|s| - 1], s[|s| - 1];
      assert s == init + [last];
      DistinctCounts(init);
      assert multiset(s)[last] == multiset(init)[last] + 1;
      assert last in init <==> last in multiset(init);
      if last in init {
        var i :| 0 <= i < |init| && init[i] == last;
        assert s[i] == s[|s| - 1];
      }
      if Distinct(s) {
        assert Distinct(init) && last !in init;
      }
      if forall x :: multiset(s)[x] <= 1 {
        forall x ensures multiset(init)[x] <= 1 { assert multiset(s)[x] <= 1; }
      }
    }
  }

  lemma InOrderTransitive(a: string, b: string, c: string)
    requires InOrder(a, b) && InOrder(b, c)
    ensures InOrder(a, c)
    ensures a == c ==> a == b
  {
    if Less(a, b) && Less(b, c) {
      LessTransitive(a, b, c);
      LessIsNotEqual(a, c);
    }
  }

  lemma BeginsLonger(keys: seq<string>, k: string, b: string)
    requires k in keys && b <= k
    ensures BeginsKey(keys, b)
  {
    var x :| 0 <= x < |keys| && keys[x] == k;
  }

  lemma BeginsShorter(keys: seq<string>, p: string, n: nat)
    requires BeginsKey(keys, p) && n <= |p|
    ensures BeginsKey(keys, p[..n])
  {
    var x :| 0 <= x < |keys| && p <= keys[x];
    assert p[..n] <= keys[x];
  }

  /** Distinct members of a finite set are no more than its size. */
  lemma {:induction false} DistinctFit(xs: seq<string>, all: set<string>)
    requires forall i :: 0 <= i < |xs| ==> xs[i] in all
    requires forall i, j :: 0 <= i < j < |xs| ==> xs[i] != xs[j]
    ensures |xs| <= |all|
    ensures (forall x :: x in all ==> x in xs) ==> |xs| == |all|
  {
    if xs == [] {
      if forall x :: x in all ==> x in xs {
        assert all == {};
      }
    } else {
      var last := xs[|xs| - 1];
      var init := xs[..|xs| - 1];
      DistinctFit(init, all - {last});
      if forall x :: x in all ==> x in xs {
        forall x | x in all - {last} ensures x in init {
          var i :| 0 <= i < |xs| && xs[i] == x;
          assert init[i] == x;
        }
      }
    }
  }
}
