/** What a list of reversed patterns with `*` stands for, character by character: a `*` uses
    up the rest of a label, and a `+` after a beginning that the query matches accepts it. */
module KeyGlob {
  import opened Basics
  import opened SortedKeys

  // Where the label that holds position i ends.
  function End(q: string, i: nat): (j: nat)
    requires i <= |q|
    ensures i <= j <= |q| && (j < |q| ==> q[j] == '.') && forall k :: i <= k < j ==> q[k] != '.'
    decreases |q| - i
  {
    if i == |q| || q[i] == '.' then i else End(q, i + 1)
  }

  function Use(c: char, q: string, i: nat): Option<nat>
    requires i <= |q|
  {
    if i == |q| then None
    else if c == '*' then Some(End(q, i))
    else if q[i] == c then Some(i + 1) else None
  }

  // Where the query stands after these characters of a key, from position i on.
  function ConsumeFrom(p: string, q: string, i: nat): (r: Option<nat>)
    requires i <= |q|
    ensures r.Some? ==> r.value <= |q|
    decreases |p|
  {
    if p == "" then Some(i)
    else
      match Use(p[0], q, i)
      case None => None
      case Some(j) => ConsumeFrom(p[1..], q, j)
  }

  /** How much of the query the beginning p of a key uses up, if it matches. */
  function Consume(p: string, q: string): (r: Option<nat>)
    ensures r.Some? ==> r.value <= |q|
  {
    ConsumeFrom(p, q, 0)
  }

  lemma {:induction false} ConsumeConcat(p: string, s: string, q: string, i: nat)
    requires i <= |q|
    ensures ConsumeFrom(p + s, q, i) ==
      match ConsumeFrom(p, q, i) { case None => None case Some(j) => ConsumeFrom(s, q, j) }
    decreases |p|
  {
    if p == "" {
      assert p + s == s;
    } else {
      assert (p + s)[1..] == p[1..] + s && (p + s)[0] == p[0];
      match Use(p[0], q, i)
      case None =>
      case Some(j) => ConsumeConcat(p[1..], s, q, j);
    }
  }

  // A `+` that the query reaches with something left.
  ghost predicate PlusAfter(keys: seq<string>, q: string, p: string) {
    BeginsKey(keys, p + ['+']) && Consume(p, q).Some? && Consume(p, q).value < |q|
  }

  ghost predicate GlobAccepts(keys: seq<string>, q: string) {
    (exists k :: k in keys && Consume(k, q) == Some(|q|)) || (exists p :: PlusAfter(keys, q, p))
  }

  /** A `*` after p has no sibling but `+`, and nothing but a dot after it: patterns in which
      a `*` never competes with a label. */
  ghost predicate StarAlone(keys: seq<string>, p: string) {
    BeginsKey(keys, p + ['*']) ==>
      && (forall c :: BeginsKey(keys, p + [c]) ==> c == '*' || c == '+')
      && (forall c :: BeginsKey(keys, p + ['*'] + [c]) ==> c == '.')
  }

  ghost predicate StarsAlone(keys: seq<string>) {
    forall p {:trigger StarAlone(keys, p)} :: StarAlone(keys, p)
  }

  // The query runs past the label of the `*` that follows p.
  ghost predicate RunsPast(keys: seq<string>, q: string, p: string) {
    && BeginsKey(keys, p + ['*']) && Consume(p, q).Some?
    && Consume(p, q).value < |q| && End(q, Consume(p, q).value) < |q|
  }

  /** Some key goes on after every `*` that the query runs past. */
  ghost predicate StarsGoOn(keys: seq<string>, q: string) {
    forall p {:trigger RunsPast(keys, q, p)} :: RunsPast(keys, q, p) ==> BeginsKey(keys, p + ['*'] + ['.'])
  }

  predicate AbovePlus(q: string) {
    forall i :: 0 <= i < |q| ==> '+' < q[i]
  }

  lemma ConsumeOne(c: char, q: string, i: nat)
    requires i <= |q|
    ensures ConsumeFrom([c], q, i) == Use(c, q, i)
  {
    assert [c][1..] == "";
  }

  lemma ConsumeStep(p: string, c: char, q: string)
    ensures Consume(p + [c], q) == if Consume(p, q).Some? then Use(c, q, Consume(p, q).value) else None
  {
    ConsumeConcat(p, [c], q, 0);
    if Consume(p, q).Some? { ConsumeOne(c, q, Consume(p, q).value); }
  }

  // Every proper beginning of what matches matches, with something left.
  lemma ConsumeShorter(p: string, q: string, n: nat)
    requires Consume(p, q).Some? && n < |p|
    ensures Consume(p[..n], q).Some? && Consume(p[..n], q).value < |q|
  {
    assert p == p[..n] + p[n..];
    ConsumeConcat(p[..n], p[n..], q, 0);
  }

  lemma LeavesSome(p: string, q: string, k: string)
    requires Consume(p, q).Some? && k <= p
    ensures k == p || (Consume(k, q).Some? && Consume(k, q).value < |q|)
  {
    assert p[..|k|] == k;
    if |k| < |p| { ConsumeShorter(p, q, |k|); }
  }

  /** Where stars stand alone, the query decides the way: of two beginnings that it matches
      one begins the other. */
  lemma OneWay(keys: seq<string>, q: string, a: string, b: string)
    requires StarsAlone(keys) && AbovePlus(q)
    requires BeginsKey(keys, a) && BeginsKey(keys, b) && Consume(a, q).Some? && Consume(b, q).Some?
    ensures a <= b || b <= a
  {
    var n := FirstDiff(a, b);
    if n < |a| && n < |b| {
      var r := a[..n];
      SplitOff(keys, q, a, n);
      SplitOff(keys, q, b, n);
      NoFork(keys, q, r, a[n], b[n]);
    }
  }

  lemma SplitOff(keys: seq<string>, q: string, a: string, n: nat)
    requires BeginsKey(keys, a) && Consume(a, q).Some? && n < |a|
    ensures BeginsKey(keys, a[..n] + [a[n]]) && Consume(a[..n] + [a[n]], q).Some?
  {
    assert a[..n + 1] == a[..n] + [a[n]];
    BeginsShorter(keys, a, n + 1);
    if n + 1 < |a| { ConsumeShorter(a, q, n + 1); } else { assert a[..n + 1] == a; }
  }

  lemma NoFork(keys: seq<string>, q: string, r: string, x: char, y: char)
    requires StarsAlone(keys) && AbovePlus(q)
    requires BeginsKey(keys, r + [x]) && BeginsKey(keys, r + [y])
    requires Consume(r + [x], q).Some? && Consume(r + [y], q).Some?
    ensures x == y
  {
    ConsumeStep(r, x, q);
    ConsumeStep(r, y, q);
    assert StarAlone(keys, r);
  }

  // The walk has reached p after i characters, and met no `+` before.
  ghost predicate Tracks(keys: seq<string>, q: string, p: string, i: nat) {
    && BeginsKey(keys, p) && Consume(p, q) == Some(i)
    && forall n :: 0 <= n < |p| ==> !PlusAfter(keys, q, p[..n])
  }

  lemma TrackNext(keys: seq<string>, q: string, p: string, i: nat, c: char)
    requires Tracks(keys, q, p, i) && i < |q| && BeginsKey(keys, p + [c]) && Use(c, q, i).Some?
    requires !BeginsKey(keys, p + ['+'])
    ensures Tracks(keys, q, p + [c], Use(c, q, i).value)
  {
    ConsumeStep(p, c, q);
    var next := p + [c];
    forall n | 0 <= n < |next| ensures !PlusAfter(keys, q, next[..n]) {
      if n < |p| { assert next[..n] == p[..n]; } else { assert next[..n] == p; }
    }
  }

  // No `+` that the query reaches lies before p or at it.
  lemma NoPlusUpTo(keys: seq<string>, q: string, p: string, i: nat, r: string)
    requires Tracks(keys, q, p, i) && r <= p && (i == |q| || !BeginsKey(keys, p + ['+']))
    ensures !PlusAfter(keys, q, r)
  {
    if |r| < |p| { assert r == p[..|r|]; } else { assert r == p; }
  }

  // If nothing goes on from p for this query, nothing is accepted beyond it.
  lemma NothingBeyond(keys: seq<string>, q: string, p: string, i: nat, r: string)
    requires StarsAlone(keys) && AbovePlus(q) && Tracks(keys, q, p, i)
    requires i == |q| || (forall c :: BeginsKey(keys, p + [c]) ==> Use(c, q, i).None?)
    requires BeginsKey(keys, r) && Consume(r, q).Some?
    ensures r <= p
  {
    OneWay(keys, q, p, r);
    if p <= r && |p| < |r| {
      SplitOff(keys, q, r, |p|);
      assert r[..|p|] == p;
      ConsumeStep(p, r[|p|], q);
    }
  }

  /** The query ends at p: it is accepted exactly if p is a key. */
  lemma AtEnd(keys: seq<string>, q: string, p: string)
    requires StarsAlone(keys) && AbovePlus(q) && Tracks(keys, q, p, |q|)
    ensures GlobAccepts(keys, q) <==> p in keys
  {
    forall k | k in keys && Consume(k, q) == Some(|q|) ensures k == p {
      KeyBegins(keys, k);
      NothingBeyond(keys, q, p, |q|, k);
      LeavesSome(p, q, k);
    }
    NoPlusAnywhere(keys, q, p, |q|);
  }

  lemma KeyBegins(keys: seq<string>, k: string)
    requires k in keys
    ensures BeginsKey(keys, k)
  {
    var x :| 0 <= x < |keys| && keys[x] == k;
    assert k <= keys[x];
  }

  lemma NoPlusAnywhere(keys: seq<string>, q: string, p: string, i: nat)
    requires StarsAlone(keys) && AbovePlus(q) && Tracks(keys, q, p, i)
    requires i == |q| || !BeginsKey(keys, p + ['+'])
    requires i == |q| || (forall c :: BeginsKey(keys, p + [c]) ==> Use(c, q, i).None?)
    ensures forall r :: !PlusAfter(keys, q, r)
  {
    forall r ensures !PlusAfter(keys, q, r) {
      if BeginsKey(keys, r + ['+']) && Consume(r, q).Some? {
        assert (r + ['+'])[..|r|] == r;
        BeginsShorter(keys, r + ['+'], |r|);
        NothingBeyond(keys, q, p, i, r);
        NoPlusUpTo(keys, q, p, i, r);
      }
    }
  }

  /** The query goes on but no label of p does: it is not accepted. */
  lemma AtDeadEnd(keys: seq<string>, q: string, p: string, i: nat)
    requires StarsAlone(keys) && AbovePlus(q) && Tracks(keys, q, p, i) && i < |q|
    requires !BeginsKey(keys, p + ['+']) && !BeginsKey(keys, p + ['*']) && !BeginsKey(keys, p + [q[i]])
    ensures !GlobAccepts(keys, q)
  {
    NoPlusAnywhere(keys, q, p, i);
    forall k | k in keys ensures Consume(k, q) != Some(|q|) {
      KeyBegins(keys, k);
      if Consume(k, q).Some? {
        NothingBeyond(keys, q, p, i, k);
        LeavesSome(p, q, k);
      }
    }
  }
}
