/** Domain names as lists of labels: `valid_and_split_domain` of
    clash-lib/src/common/trie.rs, and joining labels back with dots. */
module DomainNames {
  import opened Basics

  // `split(".")`
  function Split(s: string): (parts: seq<string>)
    ensures parts != []
  {
    if s == "" then [""]
    else
      var rest := Split(s[1..]);
      if s[0] == '.' then [""] + rest else [[s[0]] + rest[0]] + rest[1..]
  }

  // `join(".")`
  function Join(parts: seq<string>): string
    requires parts != []
  {
    if |parts| == 1 then parts[0] else parts[0] + "." + Join(parts[1..])
  }

  predicate DotFree(s: string) {
    '.' !in s
  }

  predicate AllDotFree(parts: seq<string>) {
    forall i :: 0 <= i < |parts| ==> DotFree(parts[i])
  }

  function ValidAndSplit(domain: string): Option<seq<string>> {
    if domain != "" && domain[|domain| - 1] == '.' then None
    else
      var parts := Split(domain);
      if |parts| == 1 then
        if parts[0] == "" then None else Some(parts)
      else if exists i :: 1 <= i < |parts| && parts[i] == "" then None
      else Some(parts)
  }

  // A dot at the end, or one followed by another.
  predicate EmptyLabelAfterDot(s: string) {
    exists i :: 0 <= i < |s| && s[i] == '.' && (i + 1 == |s| || s[i + 1] == '.')
  }

  lemma {:induction false} EmptyParts(s: string)
    ensures Split(s)[0] == "" <==> s == "" || s[0] == '.'
    ensures (exists i :: 1 <= i < |Split(s)| && Split(s)[i] == "") <==> EmptyLabelAfterDot(s)
  {
    if s != "" {
      var t := s[1..];
      EmptyParts(t);
      AfterFirst(s);
      if s[0] == '.' {
        assert forall i :: 1 <= i < |Split(s)| ==> Split(s)[i] == Split(t)[i - 1];
        assert forall i :: 0 <= i < |Split(t)| ==> Split(t)[i] == Split(s)[i + 1];
      } else {
        assert forall i :: 1 <= i < |Split(s)| ==> Split(s)[i] == Split(t)[i];
        assert forall i :: 1 <= i < |Split(t)| ==> Split(t)[i] == Split(s)[i];
      }
    }
  }

  lemma AfterFirst(s: string)
    requires s != ""
    ensures EmptyLabelAfterDot(s) <==>
      EmptyLabelAfterDot(s[1..]) || (s[0] == '.' && (s[1..] == "" || s[1..][0] == '.'))
  {
    var t := s[1..];
    if EmptyLabelAfterDot(s) {
      var i :| 0 <= i < |s| && s[i] == '.' && (i + 1 == |s| || s[i + 1] == '.');
      if i > 0 { assert t[i - 1] == '.' && (i == |t| || t[i] == '.'); }
    }
    if EmptyLabelAfterDot(t) {
      var i :| 0 <= i < |t| && t[i] == '.' && (i + 1 == |t| || t[i + 1] == '.');
      assert s[i + 1] == '.' && (i + 2 == |s| || s[i + 2] == '.');
    }
  }

  /** A domain is accepted exactly if it is not empty, does not end in a dot and has no two
      dots in a row.  Its labels then hold no dots and are not empty, except perhaps the
      first of several. */
  lemma ValidIff(domain: string)
    ensures ValidAndSplit(domain).Some? <==> domain != "" && !EmptyLabelAfterDot(domain)
    ensures ValidAndSplit(domain).Some? ==>
      var parts := ValidAndSplit(domain).value;
      Join(parts) == domain && AllDotFree(parts) && parts != [""] && forall i :: 1 <= i < |parts| ==> parts[i] != ""
  {
    EmptyParts(domain);
    SplitDotFree(domain);
    if domain != "" && domain[|domain| - 1] == '.' {
      assert EmptyLabelAfterDot(domain);
    }
    JoinSplit(domain);
  }

  lemma ValidParts(domain: string)
    ensures match ValidAndSplit(domain) {
      case None => true
      case Some(parts) =>
        parts == Split(domain) && parts != [""] && forall i :: 1 <= i < |parts| ==> parts[i] != ""
    }
  {
  }

  lemma {:induction false} SplitDotFree(s: string)
    ensures AllDotFree(Split(s))
  {
    if s != "" { SplitDotFree(s[1..]); }
  }

  lemma {:induction false} JoinSplit(s: string)
    ensures Join(Split(s)) == s
  {
    if s != "" {
      var rest := Split(s[1..]);
      JoinSplit(s[1..]);
      if s[0] == '.' {
        assert ([""] + rest)[1..] == rest;
      } else {
        var parts := [[s[0]] + rest[0]] + rest[1..];
        assert parts[1..] == rest[1..];
        assert s == [s[0]] + Join(rest);
      }
    }
  }

  lemma {:induction false} SplitLabel(x: string)
    requires DotFree(x)
    ensures Split(x) == [x]
  {
    if x != "" {
      SplitLabel(x[1..]);
      assert x[0] in x && [x[0]] + x[1..] == x;
    }
  }

  lemma {:induction false} SplitAtDot(s: string, t: string)
    ensures Split(s + "." + t) == Split(s) + Split(t)
  {
    var all := s + "." + t;
    if s == "" {
      assert all == "." + t && all[1..] == t;
    } else {
      assert all[1..] == s[1..] + "." + t && all[0] == s[0];
      SplitAtDot(s[1..], t);
    }
  }

  /** Splitting undoes joining labels that hold no dots, so joining is injective. */
  lemma {:induction false} SplitJoin(parts: seq<string>)
    requires parts != [] && AllDotFree(parts)
    ensures Split(Join(parts)) == parts
  {
    SplitLabel(parts[0]);
    if |parts| > 1 {
      SplitJoin(parts[1..]);
      SplitAtDot(parts[0], Join(parts[1..]));
    }
  }

  // Joined labels are an accepted domain, and are cut where they were joined.
  lemma JoinIsValid(parts: seq<string>)
    requires parts != [] && parts != [""] && AllDotFree(parts) && forall i :: 1 <= i < |parts| ==> parts[i] != ""
    ensures ValidAndSplit(Join(parts)) == Some(parts)
  {
    SplitJoin(parts);
    EmptyParts(Join(parts));
    ValidIff(Join(parts));
    assert |parts| == 1 ==> parts == [parts[0]];
  }

  lemma {:induction false} JoinConcat(a: seq<string>, b: seq<string>)
    requires a != [] && b != []
    ensures Join(a + b) == Join(a) + "." + Join(b)
  {
    if |a| == 1 {
      assert (a + b)[1..] == b;
    } else {
      assert (a + b)[1..] == a[1..] + b;
      JoinConcat(a[1..], b);
    }
  }

  // A joined list followed by a dot begins another joined list exactly when the first
  // list is a proper beginning of the second.
  lemma JoinShortens(a: seq<string>, b: seq<string>)
    requires a != [] && |a| < |b| && a == b[..|a|]
    ensures Join(a) + "." <= Join(b)
  {
    assert b == a + b[|a|..];
    JoinConcat(a, b[|a|..]);
  }

  lemma JoinExtends(a: seq<string>, b: seq<string>, rest: string)
    requires a != [] && b != [] && AllDotFree(a) && AllDotFree(b)
    requires Join(b) == Join(a) + "." + rest
    ensures |a| < |b| && a == b[..|a|]
  {
    SplitAtDot(Join(a), rest);
    SplitJoin(a);
    SplitJoin(b);
    assert b == a + Split(rest);
  }
}
