/** Patterns label by label and patterns character by character mean the same. */
module LabelGlob {
  import opened Basics
  import opened DomainNames
  import opened SortedKeys
  import opened KeyGlob
  import opened DomainTrie

  // The labels joined, with a dot after them; nothing for no labels.
  function Before(ls: seq<string>): string {
    if ls == [] then "" else Join(ls) + "."
  }

  lemma JoinSnoc(init: seq<string>, last: string)
    ensures Join(init + [last]) == Before(init) + last
    ensures Before(init + [last]) == Before(init) + last + "."
  {
    if init == [] {
      assert init + [last] == [last];
    } else {
      JoinConcat(init, [last]);
    }
  }

  predicate Words(ls: seq<string>) {
    forall i :: 0 <= i < |ls| ==> ls[i] != "" && DotFree(ls[i])
  }

  // A label of a pattern is `*` or holds none.
  predicate PatternWords(ls: seq<string>) {
    Words(ls) && forall i :: 0 <= i < |ls| ==> ls[i] == "*" || '*' !in ls[i]
  }

  // Where label m of a query starts.
  function At(qs: seq<string>, m: nat): nat
    requires m <= |qs|
    decreases m
  {
    if m == 0 then 0 else |qs[0]| + 1 + At(qs[1..], m - 1)
  }

  lemma {:induction false} AtNext(qs: seq<string>, m: nat)
    requires m < |qs|
    ensures At(qs, m + 1) == At(qs, m) + |qs[m]| + 1
    decreases m
  {
    if m > 0 { AtNext(qs[1..], m - 1); }
  }

  lemma BeforeGrows(qs: seq<string>, m: nat)
    requires m < |qs| && |Before(qs[..m])| == At(qs, m)
    ensures |Before(qs[..m + 1])| == At(qs, m + 1)
  {
    JoinSnoc(qs[..m], qs[m]);
    assert qs[..m + 1] == qs[..m] + [qs[m]];
    AtNext(qs, m);
  }

  lemma {:induction false} BeforeLength(qs: seq<string>, m: nat)
    requires m <= |qs|
    ensures |Before(qs[..m])| == At(qs, m)
    decreases m
  {
    if m == 0 {
      assert qs[..0] == [];
    } else {
      BeforeLength(qs, m - 1);
      BeforeGrows(qs, m - 1);
    }
  }

  // The text from i up to the next dot or the end is x.
  predicate PieceAt(q: string, i: nat, x: string) {
    i + |x| <= |q| && q[i..i + |x|] == x && End(q, i) == i + |x|
  }

  lemma {:induction false} LabelAt(qs: seq<string>, m: nat)
    requires Words(qs) && m < |qs|
    ensures PieceAt(Join(qs), At(qs, m), qs[m])
    ensures m + 1 == |qs| <==> At(qs, m) + |qs[m]| == |Join(qs)|
    decreases m
  {
    if |qs| == 1 {
      FirstPiece(qs[0], "");
    } else {
      var u := Join(qs[1..]);
      assert Join(qs) == qs[0] + "." + u;
      if m == 0 {
        FirstPiece(qs[0], "." + u);
        assert qs[0] + ("." + u) == Join(qs);
      } else {
        LabelAt(qs[1..], m - 1);
        ShiftPiece(qs[0] + ".", u, At(qs[1..], m - 1), qs[m]);
      }
    }
  }

  lemma FirstPiece(x: string, rest: string)
    requires DotFree(x) && (rest != "" ==> rest[0] == '.')
    ensures PieceAt(x + rest, 0, x)
  {
    assert (x + rest)[0..0 + |x|] == x;
    EndIs(x + rest, 0, |x|);
  }

  lemma ShiftPiece(a: string, u: string, i: nat, x: string)
    requires PieceAt(u, i, x) && DotFree(x)
    ensures PieceAt(a + u, |a| + i, x)
  {
    var q := a + u;
    assert q[|a| + i..|a| + i + |x|] == u[i..i + |x|];
    EndIs(q, |a| + i, |x|);
  }

  lemma {:induction false} EndIs(q: string, i: nat, n: nat)
    requires i + n <= |q| && DotFree(q[i..i + n]) && (i + n < |q| ==> q[i + n] == '.')
    ensures End(q, i) == i + n
    decreases n
  {
    if n > 0 {
      assert q[i] == q[i..i + n][0] && q[i] in q[i..i + n];
      assert q[i + 1..i + n] == q[i..i + n][1..];
      EndIs(q, i + 1, n - 1);
    }
  }

  // ---------------------------------------------------------------- consuming

  lemma {:induction false} ConsumeText(s: string, q: string, i: nat)
    requires i <= |q| && '*' !in s
    ensures ConsumeFrom(s, q, i) == if i + |s| <= |q| && q[i..i + |s|] == s then Some(i + |s|) else None
    decreases |s|
  {
    if s != "" {
      assert s[0] in s;
      if i < |q| && q[i] == s[0] { ConsumeText(s[1..], q, i + 1); }
      SliceFirst(q, i, s);
    }
  }

  lemma SliceFirst(q: string, i: nat, s: string)
    requires s != "" && i <= |q|
    ensures i + |s| <= |q| && q[i..i + |s|] == s <==>
      i < |q| && q[i] == s[0] && i + |s| <= |q| && q[i + 1..i + |s|] == s[1..]
  {
    if i + |s| <= |q| {
      var t := q[i..i + |s|];
      assert t[0] == q[i] && t[1..] == q[i + 1..i + |s|];
      assert s == [s[0]] + s[1..] && t == [t[0]] + t[1..];
    }
  }

  // Two texts without dots that both run from i up to a dot or the end are the same.
  lemma TextAt(q: string, i: nat, x: string, l: string)
    requires DotFree(l) && PieceAt(q, i, x)
    ensures i + |l| <= |q| && q[i..i + |l|] == l && (i + |l| < |q| ==> q[i + |l|] == '.') <==> l == x
  {
    if i + |l| <= |q| && q[i..i + |l|] == l && (i + |l| < |q| ==> q[i + |l|] == '.') {
      EndIs(q, i, |l|);
    }
  }

  // One label of a pattern against one label of the query, with and without a dot after it.
  lemma ConsumeLabel(l: string, qs: seq<string>, m: nat)
    requires Words(qs) && m < |qs| && DotFree(l) && (l == "*" || '*' !in l)
    ensures At(qs, m) <= |Join(qs)|
    ensures ConsumeFrom(l, Join(qs), At(qs, m)) == Some(|Join(qs)|) <==> m + 1 == |qs| && (l == "*" || l == qs[m])
    ensures ConsumeFrom(l + ".", Join(qs), At(qs, m)) ==
      if m + 1 < |qs| && (l == "*" || l == qs[m]) then Some(At(qs, m + 1)) else None
  {
    LabelAt(qs, m);
    AtNext(qs, m);
    ConsumePiece(l, Join(qs), At(qs, m), qs[m]);
  }

  lemma ConsumePiece(l: string, q: string, i: nat, x: string)
    requires DotFree(l) && (l == "*" || '*' !in l) && x != "" && PieceAt(q, i, x)
    ensures ConsumeFrom(l, q, i) == Some(|q|) <==> i + |x| == |q| && (l == "*" || l == x)
    ensures ConsumeFrom(l + ".", q, i) == if i + |x| < |q| && (l == "*" || l == x) then Some(i + |x| + 1) else None
  {
    if l == "*" {
      ConsumeStar(q, i);
    } else {
      ConsumeWord(l, q, i, x);
    }
  }

  lemma ConsumeStar(q: string, i: nat)
    requires i < |q|
    ensures ConsumeFrom("*", q, i) == Some(End(q, i))
    ensures ConsumeFrom("*" + ".", q, i) == if End(q, i) < |q| then Some(End(q, i) + 1) else None
  {
    ConsumeOne('*', q, i);
    ConsumeConcat("*", ".", q, i);
    ConsumeOne('.', q, End(q, i));
  }

  // A word is consumed up to a dot or the end exactly if it is the word that is there.
  lemma ConsumeWord(l: string, q: string, i: nat, x: string)
    requires '*' !in l && DotFree(l) && PieceAt(q, i, x)
    ensures ConsumeFrom(l, q, i) == Some(|q|) <==> l == x && i + |x| == |q|
    ensures ConsumeFrom(l + ".", q, i) == if l == x && i + |x| < |q| then Some(i + |x| + 1) else None
  {
    ConsumeText(l, q, i);
    ConsumeConcat(l, ".", q, i);
    TextAt(q, i, x, l);
    if i + |l| <= |q| { ConsumeOne('.', q, i + |l|); }
  }

  /** Some labels and a dot are consumed exactly if they match the first labels of the query
      and more follow. */
  lemma {:induction false} ConsumeBefore(ps: seq<string>, qs: seq<string>)
    requires PatternWords(ps) && Words(qs) && qs != []
    ensures Consume(Before(ps), Join(qs)) ==
      if |ps| < |qs| && LabelsMatch(ps, qs[..|ps|]) then Some(At(qs, |ps|)) else None
    decreases |ps|
  {
    if ps != [] {
      var n := |ps| - 1;
      var init, l := ps[..n], ps[n];
      ConsumeBefore(init, qs);
      JoinSnoc(init, l);
      assert ps == init + [l];
      assert Before(ps) == Before(init) + (l + ".");
      ConsumeConcat(Before(init), l + ".", Join(qs), 0);
      if n < |qs| {
        ConsumeLabel(l, qs, n);
        MatchSnoc(ps, qs);
      }
    }
  }

  lemma MatchSnoc(ps: seq<string>, qs: seq<string>)
    requires ps != [] && |ps| <= |qs|
    ensures LabelsMatch(ps, qs[..|ps|]) <==>
      LabelsMatch(ps[..|ps| - 1], qs[..|ps| - 1]) && (ps[|ps| - 1] == "*" || ps[|ps| - 1] == qs[|ps| - 1])
  {
  }

  /** All labels are consumed with nothing left exactly if they match label by label. */
  lemma ConsumeJoin(ps: seq<string>, qs: seq<string>)
    requires PatternWords(ps) && Words(qs) && ps != [] && qs != []
    ensures Consume(Join(ps), Join(qs)) == Some(|Join(qs)|) <==> LabelsMatch(ps, qs)
  {
    var n := |ps| - 1;
    var init, l := ps[..n], ps[n];
    ConsumeBefore(init, qs);
    JoinSnoc(init, l);
    assert ps == init + [l];
    ConsumeConcat(Before(init), l, Join(qs), 0);
    if n < |qs| {
      ConsumeLabel(l, qs, n);
      MatchSnoc(ps, qs);
      if |ps| == |qs| { assert qs[..|ps|] == qs; }
    }
  }

  // A character that only ever is a label of its own marks where that label starts.
  lemma {:induction false} SpecialAt(ls: seq<string>, x: nat, c: char) returns (i: nat)
    requires ls != [] && c != '.' && forall k :: 0 <= k < |ls| ==> ls[k] == [c] || c !in ls[k]
    requires x < |Join(ls)| && Join(ls)[x] == c
    ensures i < |ls| && ls[i] == [c] && Join(ls)[..x] == Before(ls[..i])
    decreases |ls|
  {
    var n := |ls| - 1;
    var init, last := ls[..n], ls[n];
    JoinSnoc(init, last);
    assert ls == init + [last];
    var b := |Before(init)|;
    if x >= b {
      assert Join(ls)[x] == last[x - b] && last[x - b] in last;
      i := n;
      assert Join(ls)[..x] == Before(init);
    } else {
      assert Join(ls)[x] == Before(init)[x];
      i := SpecialAt(init, x, c);
      assert Join(ls)[..x] == Join(init)[..x];
      assert init[..i] == ls[..i];
    }
  }

  // A joined list that goes on after some whole labels: these are its first ones.
  lemma JoinAfter(ks: seq<string>, ls: seq<string>, c: char)
    requires ks != [] && Words(ks) && AllDotFree(ls) && Before(ls) + [c] <= Join(ks)
    ensures |ls| < |ks| && ks[..|ls|] == ls && c == ks[|ls|][0]
  {
    BeginsThrough(Before(ls), c, Join(ks));
    if ls != [] {
      var k, b := Join(ks), Before(ls);
      assert k == b + k[|b|..];
      JoinExtends(ls, ks, k[|b|..]);
    }
    BeforeLength(ks, |ls|);
    assert ks[..|ls|] == ls;
    LabelStarts(ks, |ls|);
  }

  lemma LabelStarts(ks: seq<string>, m: nat)
    requires Words(ks) && m < |ks|
    ensures At(ks, m) < |Join(ks)| && Join(ks)[At(ks, m)] == ks[m][0]
  {
    LabelAt(ks, m);
    PieceStarts(Join(ks), At(ks, m), ks[m]);
  }

  lemma PieceStarts(q: string, i: nat, x: string)
    requires PieceAt(q, i, x) && x != ""
    ensures i < |q| && q[i] == x[0]
  {
    assert q[i..i + |x|][0] == q[i];
  }
}
