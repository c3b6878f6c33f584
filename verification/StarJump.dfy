/** Where the search for the dot after a `*` leaves the node it belongs to.

    A `*` that no key goes on after has no dot of its own.  `has` then takes the next dot
    among the labels of later nodes, but counts positions as if they were its own. */
module StarJump {
  import opened Basics
  import opened Bitmap
  import opened SortedKeys
  import opened KeyGlob
  import opened Louds
  import opened SuccinctSet
  import opened SetLookup

  // ---------------------------------------------------------------- the layout

  predicate Increasing(menu: seq<char>) {
    forall i, j :: 0 <= i < j < |menu| ==> menu[i] < menu[j]
  }

  lemma HasMember(a: seq<char>)
    ensures a != [] ==> exists c :: c in a
  {
    if a != [] { assert a[0] in a; }
  }

  lemma {:induction false} SameMenu(a: seq<char>, b: seq<char>)
    requires Increasing(a) && Increasing(b) && forall c :: c in a <==> c in b
    ensures a == b
    decreases |a|
  {
    HasMember(a);
    HasMember(b);
    if a != [] && b != [] {
      assert a[0] in b && b[0] in a;
      assert a[0] == b[0];
      forall c ensures c in a[1..] <==> c in b[1..] {
        SplitHead(a, c);
        SplitHead(b, c);
      }
      SameMenu(a[1..], b[1..]);
      assert a == [a[0]] + a[1..] && b == [b[0]] + b[1..];
    }
  }

  lemma SplitHead(a: seq<char>, c: char)
    requires a != [] && Increasing(a)
    ensures c in a[1..] <==> c in a && c != a[0]
  {
    if c in a && c != a[0] {
      var i :| 0 <= i < |a| && a[i] == c;
      assert a[1..][i - 1] == c;
    }
  }

  // The continuations of a node number its children.
  lemma MenuGives(ds: DomainSet, keys: seq<string>, nodes: seq<Node>, cum: seq<nat>, k: nat, menu: seq<char>)
    requires Encodes(ds, keys, nodes, cum) && k < |nodes| && IsMenu(keys, nodes[k].prefix, menu)
    ensures First(cum, k) + |menu| == cum[k] + 1 <= |nodes| == |cum|
    ensures forall x :: 0 <= x < |menu| ==> ds.labels[First(cum, k) - 1 + x] == menu[x]
    ensures forall x {:trigger menu[x]} :: 0 <= x < |menu| ==>
      nodes[First(cum, k) + x].prefix == nodes[k].prefix + [menu[x]]
  {
    MenuOf(ds, keys, nodes, cum, k);
    SameMenu(Menu(ds, cum, k), menu);
    forall x | 0 <= x < |menu|
      ensures ds.labels[First(cum, k) - 1 + x] == menu[x] &&
        nodes[First(cum, k) + x].prefix == nodes[k].prefix + [menu[x]]
    {
      assert Menu(ds, cum, k)[x] == ds.labels[First(cum, k) - 1 + x];
      MenuContinues(ds, keys, nodes, cum, k, First(cum, k) + x);
    }
  }

  /** The node after one without continuations starts with a label and a dot: the dot is
      taken for that of the node before, and its position is that of the other label. */
  lemma DotOfNext(ds: DomainSet, keys: seq<string>, nodes: seq<Node>, cum: seq<nat>, k: nat, x: char)
    requires Encodes(ds, keys, nodes, cum) && k + 1 < |nodes| && x != '.'
    requires IsMenu(keys, nodes[k].prefix, []) && IsMenu(keys, nodes[k + 1].prefix, [x, '.'])
    ensures FirstDot(ds, cum, k, Start(cum, k + 1)) && !InBlock(cum, k, Start(cum, k + 1))
    ensures InBlock(cum, k + 1, Start(cum, k + 1)) && Start(cum, k + 1) < k + 1 + cum[k + 1]
  {
    MenuGives(ds, keys, nodes, cum, k, []);
    MenuGives(ds, keys, nodes, cum, k + 1, [x, '.']);
    var p := Start(cum, k + 1);
    assert First(cum, k + 1) == First(cum, k);
    assert p == Start(cum, k) + 1;
    assert ds.labels[First(cum, k + 1) - 1 + 0] == [x, '.'][0];
    assert ds.labels[First(cum, k + 1) - 1 + 1] == [x, '.'][1];
  }

  // ---------------------------------------------------------------- single rounds

  // The state stands at the start of the node of this prefix, with this stack.
  ghost predicate StandsAt(nodes: seq<Node>, cum: seq<nat>, s: Look, prefix: string, stack: seq<Cursor>) {
    && s.stack == stack && s.nodeId < |nodes| == |cum| && nodes[s.nodeId].prefix == prefix
    && s.bmIdx == Start(cum, s.nodeId) && InBlock(cum, s.nodeId, s.bmIdx)
  }

  predicate Readable(key: string) {
    AbovePlus(key) && Bytes(key) == key
  }

  // Whatever the loop ends with from this state, it is r.
  ghost predicate Says(ds: DomainSet, keys: seq<string>, nodes: seq<Node>, cum: seq<nat>, key: string, s: Look, r: bool)
    requires cum != [] && |nodes| == |cum|
  {
    forall n: nat, q :: Decides(ds, keys, nodes, cum, key, s, n, q) ==> q == r
  }

  ghost predicate SaysAt(ds: DomainSet, keys: seq<string>, nodes: seq<Node>, cum: seq<nat>, key: string, i: nat,
                         prefix: string, stack: seq<Cursor>, r: bool)
    requires cum != [] && |nodes| == |cum|
  {
    forall s: Look {:trigger StandsAt(nodes, cum, s, prefix, stack)} ::
      s.i == i && StandsAt(nodes, cum, s, prefix, stack) ==> Says(ds, keys, nodes, cum, key, s, r)
  }

  lemma SaysThere(ds: DomainSet, keys: seq<string>, nodes: seq<Node>, cum: seq<nat>, key: string, s: Look,
                  i: nat, prefix: string, stack: seq<Cursor>, r: bool)
    requires cum != [] && |nodes| == |cum| && SaysAt(ds, keys, nodes, cum, key, i, prefix, stack, r)
    requires s.i == i && StandsAt(nodes, cum, s, prefix, stack)
    ensures Says(ds, keys, nodes, cum, key, s, r)
  {
  }

  // One round that can only lead to a state that says r, or that says it itself.
  lemma SaysBefore(ds: DomainSet, keys: seq<string>, nodes: seq<Node>, cum: seq<nat>, key: string, s: Look, r: bool)
    requires cum != [] && |nodes| == |cum| && s.i < |key|
    requires forall outcome, p, verdict, t :: OneRound(ds, keys, nodes, cum, key, s, outcome, p, verdict, t) ==>
      LeadsOn(ds, keys, nodes, cum, key, verdict, t, r)
    ensures Says(ds, keys, nodes, cum, key, s, r)
  {
  }

  ghost predicate LeadsOn(ds: DomainSet, keys: seq<string>, nodes: seq<Node>, cum: seq<nat>, key: string,
                          verdict: Option<bool>, t: Look, r: bool)
    requires cum != [] && |nodes| == |cum|
  {
    match verdict
    case Some(v) => v == r
    case None => Says(ds, keys, nodes, cum, key, t, r)
  }

  /** The next character continues a key and nothing stands in its way. */
  lemma GoesDown(ds: DomainSet, keys: seq<string>, nodes: seq<Node>, cum: seq<nat>, key: string, i: nat, prefix: string,
                 menu: seq<char>, stack: seq<Cursor>, r: bool)
    requires Encodes(ds, keys, nodes, cum) && Readable(key) && i < |key|
    requires IsMenu(keys, prefix, menu) && key[i] in menu && '+' !in menu && '*' !in menu
    requires SaysAt(ds, keys, nodes, cum, key, i + 1, prefix + [key[i]], stack, r)
    ensures SaysAt(ds, keys, nodes, cum, key, i, prefix, stack, r)
  {
    forall s: Look | s.i == i && StandsAt(nodes, cum, s, prefix, stack) ensures Says(ds, keys, nodes, cum, key, s, r) {
      forall outcome, p, verdict, t | OneRound(ds, keys, nodes, cum, key, s, outcome, p, verdict, t)
        ensures LeadsOn(ds, keys, nodes, cum, key, verdict, t, r)
      {
        RoundDown(ds, keys, nodes, cum, key, s, prefix, outcome, p, verdict, t);
        SaysThere(ds, keys, nodes, cum, key, t, i + 1, prefix + [key[i]], stack, r);
      }
      SaysBefore(ds, keys, nodes, cum, key, s, r);
    }
  }

  lemma RoundDown(ds: DomainSet, keys: seq<string>, nodes: seq<Node>, cum: seq<nat>, key: string, s: Look,
                  prefix: string, outcome: Scan, p: nat, verdict: Option<bool>, t: Look)
    requires Encodes(ds, keys, nodes, cum) && Readable(key) && s.i < |key| && StandsAt(nodes, cum, s, prefix, s.stack)
    requires BeginsKey(keys, prefix + [key[s.i]]) && !BeginsKey(keys, prefix + ['+']) &&
      !BeginsKey(keys, prefix + ['*'])
    requires OneRound(ds, keys, nodes, cum, key, s, outcome, p, verdict, t)
    ensures verdict.None? && t.i == s.i + 1 && StandsAt(nodes, cum, t, prefix + [key[s.i]], s.stack)
  {
    ScanGoesDown(ds, keys, nodes, cum, key, s, outcome, p);
    NoStarHere(ds, keys, nodes, cum, s.nodeId, p, s.i);
    assert s.stack + Stars(ds, s.nodeId, s.i, s.bmIdx, p) == s.stack;
  }

  lemma ScanGoesDown(ds: DomainSet, keys: seq<string>, nodes: seq<Node>, cum: seq<nat>, key: string, s: Look,
                     outcome: Scan, p: nat)
    requires Encodes(ds, keys, nodes, cum) && Readable(key) && s.i < |key| && s.nodeId < |nodes|
    requires StandsAt(nodes, cum, s, nodes[s.nodeId].prefix, s.stack) && Scanned(ds, cum, key, s, outcome, p)
    requires var prefix := nodes[s.nodeId].prefix;
      BeginsKey(keys, prefix + [key[s.i]]) && !BeginsKey(keys, prefix + ['+'])
    ensures outcome.Match? && InBlock(cum, s.nodeId, p) && p - s.nodeId + 1 < |nodes|
    ensures nodes[p - s.nodeId + 1].prefix == nodes[s.nodeId].prefix + [key[s.i]]
  {
    ScanShows(ds, keys, nodes, cum, key, s, outcome, p);
  }

  /** A `*` stands beside the next character: it is remembered, and the walk goes down. */
  lemma GoesDownBeside(ds: DomainSet, keys: seq<string>, nodes: seq<Node>, cum: seq<nat>, key: string, i: nat,
                       prefix: string, k: nat, stack: seq<Cursor>, r: bool)
    requires Encodes(ds, keys, nodes, cum) && Readable(key) && i < |key| && IsMenu(keys, prefix, ['*', key[i]])
    requires k < |nodes| == |cum| && nodes[k].prefix == prefix
    requires SaysAt(ds, keys, nodes, cum, key, i + 1, prefix + [key[i]], stack + [Cursor(Start(cum, k), i)], r)
    ensures SaysAt(ds, keys, nodes, cum, key, i, prefix, stack, r)
  {
    var more := stack + [Cursor(Start(cum, k), i)];
    forall s: Look | s.i == i && StandsAt(nodes, cum, s, prefix, stack) ensures Says(ds, keys, nodes, cum, key, s, r) {
      assert s.nodeId == k;
      forall outcome, p, verdict, t | OneRound(ds, keys, nodes, cum, key, s, outcome, p, verdict, t)
        ensures LeadsOn(ds, keys, nodes, cum, key, verdict, t, r)
      {
        RoundBeside(ds, keys, nodes, cum, key, s, prefix, outcome, p, verdict, t);
        SaysThere(ds, keys, nodes, cum, key, t, i + 1, prefix + [key[i]], more, r);
      }
      SaysBefore(ds, keys, nodes, cum, key, s, r);
    }
  }

  lemma RoundBeside(ds: DomainSet, keys: seq<string>, nodes: seq<Node>, cum: seq<nat>, key: string, s: Look,
                    prefix: string, outcome: Scan, p: nat, verdict: Option<bool>, t: Look)
    requires Encodes(ds, keys, nodes, cum) && Readable(key) && s.i < |key| && StandsAt(nodes, cum, s, prefix, s.stack)
    requires IsMenu(keys, prefix, ['*', key[s.i]]) && OneRound(ds, keys, nodes, cum, key, s, outcome, p, verdict, t)
    ensures verdict.None? && t.i == s.i + 1
    ensures StandsAt(nodes, cum, t, prefix + [key[s.i]], s.stack + [Cursor(s.bmIdx, s.i)])
  {
    var k, menu := s.nodeId, ['*', key[s.i]];
    assert key[s.i] in menu && '+' !in menu;
    ScanGoesDown(ds, keys, nodes, cum, key, s, outcome, p);
    MenuGives(ds, keys, nodes, cum, k, menu);
    assert menu[0] == '*' && menu[1] == key[s.i];
    SecondLabel(ds, cum, key, s, outcome, p);
    OneStarBefore(ds, k, s.i, s.bmIdx);
  }

  // The scan stops at the second label of the block.
  lemma SecondLabel(ds: DomainSet, cum: seq<nat>, key: string, s: Look, outcome: Scan, p: nat)
    requires cum != [] && s.i < |key| && s.nodeId < |cum| && s.bmIdx == Start(cum, s.nodeId) >= s.nodeId
    requires Scanned(ds, cum, key, s, outcome, p) && outcome.Match? && AsByte(key[s.i]) == key[s.i] != '*'
    requires First(cum, s.nodeId) < |ds.labels|
    requires ds.labels[First(cum, s.nodeId) - 1] == '*' && ds.labels[First(cum, s.nodeId)] == key[s.i]
    ensures p == s.bmIdx + 1 && IsStar(ds, s.nodeId, s.bmIdx)
  {
    assert p > s.bmIdx + 1 ==> Passed(ds, key[s.i], s.nodeId, s.bmIdx + 1);
  }

  lemma OneStarBefore(ds: DomainSet, k: nat, i: nat, at: nat)
    requires IsStar(ds, k, at)
    ensures Stars(ds, k, i, at, at + 1) == [Cursor(at, i)]
  {
    assert Stars(ds, k, i, at, at) == [];
  }

  /** Only a `*` goes on, and a dot follows in the query: the state jumps to the first dot. */
  lemma OverStar(ds: DomainSet, keys: seq<string>, nodes: seq<Node>, cum: seq<nat>, key: string, i: nat,
                 prefix: string, k: nat, at: nat, stack: seq<Cursor>, r: bool)
    requires Encodes(ds, keys, nodes, cum) && Readable(key) && i < |key| && IsMenu(keys, prefix, ['*']) &&
      End(key, i) < |key|
    requires k < |nodes| == |cum| && nodes[k].prefix == prefix && First(cum, k) < |cum| &&
      FirstDot(ds, cum, First(cum, k), at)
    requires key[i] != '*' && Says(ds, keys, nodes, cum, key, Look(End(key, i), First(cum, k), at, stack), r)
    ensures SaysAt(ds, keys, nodes, cum, key, i, prefix, stack, r)
  {
    forall s: Look | s.i == i && StandsAt(nodes, cum, s, prefix, stack) ensures Says(ds, keys, nodes, cum, key, s, r) {
      assert s.nodeId == k;
      forall outcome, p, verdict, t | OneRound(ds, keys, nodes, cum, key, s, outcome, p, verdict, t)
        ensures LeadsOn(ds, keys, nodes, cum, key, verdict, t, r)
      {
        var back, nodeId, bmIdx := RoundStar(ds, keys, nodes, cum, key, s, prefix, outcome, p, verdict, t);
        DotIsFirst(ds, cum, First(cum, k), at, bmIdx, back);
      }
      SaysBefore(ds, keys, nodes, cum, key, s, r);
    }
  }

  /** No dot is left to jump to: the answer is no, whatever other `*` are remembered. */
  lemma NothingOverStar(ds: DomainSet, keys: seq<string>, nodes: seq<Node>, cum: seq<nat>, key: string, i: nat,
                        prefix: string, k: nat, stack: seq<Cursor>)
    requires Encodes(ds, keys, nodes, cum) && Readable(key) && i < |key| && IsMenu(keys, prefix, ['*']) &&
      End(key, i) < |key| && key[i] != '*'
    requires k < |nodes| == |cum| && nodes[k].prefix == prefix && First(cum, k) < |cum|
    requires forall p :: !FirstDot(ds, cum, First(cum, k), p)
    ensures SaysAt(ds, keys, nodes, cum, key, i, prefix, stack, false)
  {
    forall s: Look | s.i == i && StandsAt(nodes, cum, s, prefix, stack)
      ensures Says(ds, keys, nodes, cum, key, s, false)
    {
      assert s.nodeId == k;
      forall outcome, p, verdict, t | OneRound(ds, keys, nodes, cum, key, s, outcome, p, verdict, t)
        ensures LeadsOn(ds, keys, nodes, cum, key, verdict, t, false)
      {
        var back, nodeId, bmIdx := RoundStar(ds, keys, nodes, cum, key, s, prefix, outcome, p, verdict, t);
      }
      SaysBefore(ds, keys, nodes, cum, key, s, false);
    }
  }

  // A round that goes back to the only label of a node, a `*`.
  lemma RoundStar(ds: DomainSet, keys: seq<string>, nodes: seq<Node>, cum: seq<nat>, key: string, s: Look,
                  prefix: string, outcome: Scan, p: nat, verdict: Option<bool>, t: Look)
    returns (back: Back, nodeId: nat, bmIdx: nat)
    requires Encodes(ds, keys, nodes, cum) && Readable(key) && s.i < |key| && StandsAt(nodes, cum, s, prefix, s.stack)
    requires IsMenu(keys, prefix, ['*']) && key[s.i] != '*' && End(key, s.i) < |key|
    requires OneRound(ds, keys, nodes, cum, key, s, outcome, p, verdict, t)
    ensures nodeId == First(cum, s.nodeId) < |cum| && !back.Found? && !back.Again?
    ensures back.Jump? ==>
      verdict.None? && t == Look(End(key, s.i), nodeId, bmIdx, s.stack) && FirstDot(ds, cum, nodeId, bmIdx)
    ensures back.Exhausted? ==> verdict == Some(false) && forall q :: !FirstDot(ds, cum, nodeId, q)
  {
    ScanShows(ds, keys, nodes, cum, key, s, outcome, p);
    assert '+' !in ['*'] && key[s.i] !in ['*'];
    OnlyStar(ds, keys, nodes, cum, s.nodeId, p, s.i);
    var c := Cursor(s.bmIdx, s.i);
    assert s.stack + Stars(ds, s.nodeId, s.i, s.bmIdx, p) == s.stack + [c];
    var i;
    back, nodeId, bmIdx, i := RoundGoesBack(ds, keys, nodes, cum, key, s, p, verdict, t, s.stack, c);
    LeadsToOne(ds, keys, nodes, cum, s.nodeId, c.bmIdx, nodeId);
  }

  lemma OnlyStar(ds: DomainSet, keys: seq<string>, nodes: seq<Node>, cum: seq<nat>, k: nat, p: nat, i: nat)
    requires Encodes(ds, keys, nodes, cum) && k < |nodes| && IsMenu(keys, nodes[k].prefix, ['*']) && p == k + cum[k] &&
      InBlock(cum, k, p)
    ensures Stars(ds, k, i, Start(cum, k), p) == [Cursor(Start(cum, k), i)] && InBlock(cum, k, Start(cum, k))
  {
    MenuOf(ds, keys, nodes, cum, k);
    SameMenu(Menu(ds, cum, k), ['*']);
    MenuStars(ds, keys, nodes, cum, k, p, i);
  }

  /** A dot read outside the node's own block: the state goes down from the node whose
      position it is. */
  lemma Elsewhere(ds: DomainSet, keys: seq<string>, nodes: seq<Node>, cum: seq<nat>, key: string, s: Look,
                  owner: nat, r: bool)
    requires Encodes(ds, keys, nodes, cum) && Readable(key) && s.i < |key| && key[s.i] == '.'
    requires DotAt(ds, s.nodeId, s.bmIdx) && !InBlock(cum, s.nodeId, s.bmIdx)
    requires InBlock(cum, owner, s.bmIdx) && s.bmIdx < owner + cum[owner] && 0 <= s.bmIdx - owner + 1 < |nodes|
    requires SaysAt(ds, keys, nodes, cum, key, s.i + 1, nodes[s.bmIdx - owner + 1].prefix, s.stack, r)
    ensures Says(ds, keys, nodes, cum, key, s, r)
  {
    forall outcome, p, verdict, t | OneRound(ds, keys, nodes, cum, key, s, outcome, p, verdict, t)
      ensures LeadsOn(ds, keys, nodes, cum, key, verdict, t, r)
    {
      RoundElsewhere(ds, keys, nodes, cum, key, s, owner, outcome, p, verdict, t);
      SaysThere(ds, keys, nodes, cum, key, t, s.i + 1, nodes[s.bmIdx - owner + 1].prefix, s.stack, r);
    }
    SaysBefore(ds, keys, nodes, cum, key, s, r);
  }

  lemma RoundElsewhere(ds: DomainSet, keys: seq<string>, nodes: seq<Node>, cum: seq<nat>, key: string, s: Look,
                       owner: nat, outcome: Scan, p: nat, verdict: Option<bool>, t: Look)
    requires Encodes(ds, keys, nodes, cum) && Readable(key) && s.i < |key| && key[s.i] == '.'
    requires DotAt(ds, s.nodeId, s.bmIdx) && !InBlock(cum, s.nodeId, s.bmIdx)
    requires InBlock(cum, owner, s.bmIdx) && s.bmIdx < owner + cum[owner]
    requires OneRound(ds, keys, nodes, cum, key, s, outcome, p, verdict, t)
    ensures verdict.None? && t.i == s.i + 1 && t.nodeId == s.bmIdx - owner + 1 < |nodes| &&
      StandsAt(nodes, cum, t, nodes[t.nodeId].prefix, s.stack)
  {
    BlockBits(ds, keys, nodes, cum, owner, s.bmIdx);
    assert Bytes(key)[s.i] == key[s.i];
    NotPassed(ds, key, s);
    assert p == s.bmIdx;
    assert outcome.Match?;
    assert Stars(ds, s.nodeId, s.i, p, p) == [] && s.stack + [] == s.stack;
    LeadsToOne(ds, keys, nodes, cum, owner, p, t.nodeId);
  }

  // A scan does not pass the dot it looks for.
  lemma NotPassed(ds: DomainSet, key: string, s: Look)
    requires s.i < |key| && key[s.i] == '.' == AsByte(key[s.i]) && DotAt(ds, s.nodeId, s.bmIdx)
    ensures !Passed(ds, key[s.i], s.nodeId, s.bmIdx)
  {
  }

  /** The query ends at a key. */
  lemma EndsAtKey(ds: DomainSet, keys: seq<string>, nodes: seq<Node>, cum: seq<nat>, key: string, prefix: string)
    requires Encodes(ds, keys, nodes, cum) && prefix in keys
    ensures SaysAt(ds, keys, nodes, cum, key, |key|, prefix, [], true)
  {
    forall s: Look | s.i == |key| && StandsAt(nodes, cum, s, prefix, [])
      ensures Says(ds, keys, nodes, cum, key, s, true)
    {
      assert NodeOk(keys, nodes[s.nodeId]);
      LeafIsKey(keys, nodes[s.nodeId]);
    }
  }

  // ---------------------------------------------------------------- one run

  predicate Continues(k: string, prefix: string, c: char) {
    prefix <= k && |prefix| < |k| && k[|prefix|] == c
  }

  // The continuations of a prefix among three keys.
  lemma MenuOfThree(keys: seq<string>, x: string, y: string, z: string, prefix: string, menu: seq<char>)
    requires SameKeys(keys, [x, y, z]) && Increasing(menu)
    requires forall c :: c in menu <==> Continues(x, prefix, c) || Continues(y, prefix, c) || Continues(z, prefix, c)
    ensures IsMenu(keys, prefix, menu)
  {
    assert x in [x, y, z] && y in [x, y, z] && z in [x, y, z];
    forall c ensures c in menu <==> BeginsKey(keys, prefix + [c]) {
      LongerPrefix(prefix, c, x);
      LongerPrefix(prefix, c, y);
      LongerPrefix(prefix, c, z);
      if Continues(x, prefix, c) { BeginsLonger(keys, x, prefix + [c]); }
      if Continues(y, prefix, c) { BeginsLonger(keys, y, prefix + [c]); }
      if Continues(z, prefix, c) { BeginsLonger(keys, z, prefix + [c]); }
      if BeginsKey(keys, prefix + [c]) {
        var k :| 0 <= k < |keys| && prefix + [c] <= keys[k];
        assert keys[k] in keys;
      }
    }
  }

  ghost predicate ThreeKeys(keys: seq<string>) {
    SameKeys(keys, ["c.*", "cdd-k", "cdd.k"])
  }

  lemma MenusUpToStar(keys: seq<string>)
    requires ThreeKeys(keys)
    ensures IsMenu(keys, "", ['c']) && IsMenu(keys, "c", ['.', 'd']) && IsMenu(keys, "c.", ['*'])
  {
    MenuOfThree(keys, "c.*", "cdd-k", "cdd.k", "", ['c']);
    MenuOfThree(keys, "c.*", "cdd-k", "cdd.k", "c", ['.', 'd']);
    MenuOfThree(keys, "c.*", "cdd-k", "cdd.k", "c.", ['*']);
  }

  lemma MenusBeyond(keys: seq<string>)
    requires ThreeKeys(keys)
    ensures IsMenu(keys, "cd", ['d']) && IsMenu(keys, "c.*", [])
  {
    assert "cd" <= "cdd-k" && "cd" <= "cdd.k" && "c.*"[1] == '.' && !("cd" <= "c.*");
    MenuOfThree(keys, "c.*", "cdd-k", "cdd.k", "cd", ['d']);
    MenuOfThree(keys, "c.*", "cdd-k", "cdd.k", "c.*", []);
  }

  lemma MenusOfOther(keys: seq<string>)
    requires ThreeKeys(keys)
    ensures IsMenu(keys, "cdd", ['-', '.']) && IsMenu(keys, "cdd-", ['k'])
  {
    assert "cdd" <= "cdd-k" && "cdd" <= "cdd.k" && "cdd-" <= "cdd-k";
    MenuOfThree(keys, "c.*", "cdd-k", "cdd.k", "cdd", ['-', '.']);
    MenuOfThree(keys, "c.*", "cdd-k", "cdd.k", "cdd-", ['k']);
  }

  lemma OneChild(ds: DomainSet, keys: seq<string>, nodes: seq<Node>, cum: seq<nat>, k: nat, c: char)
    requires Encodes(ds, keys, nodes, cum) && k < |nodes| && IsMenu(keys, nodes[k].prefix, [c])
    ensures |cum| == |nodes| && First(cum, k + 1) == First(cum, k) + 1 <= |nodes|
    ensures nodes[First(cum, k)].prefix == nodes[k].prefix + [c]
  {
    MenuGives(ds, keys, nodes, cum, k, [c]);
    assert [c][0] == c;
  }

  lemma TwoChildren(ds: DomainSet, keys: seq<string>, nodes: seq<Node>, cum: seq<nat>, k: nat, c: char, d: char)
    requires Encodes(ds, keys, nodes, cum) && k < |nodes| && IsMenu(keys, nodes[k].prefix, [c, d])
    ensures |cum| == |nodes| && First(cum, k + 1) == First(cum, k) + 2 <= |nodes|
    ensures nodes[First(cum, k)].prefix == nodes[k].prefix + [c] &&
      nodes[First(cum, k) + 1].prefix == nodes[k].prefix + [d]
  {
    MenuGives(ds, keys, nodes, cum, k, [c, d]);
    assert [c, d][0] == c && [c, d][1] == d;
  }

  // One node after the other, breadth first.
  lemma LayoutUpToStar(ds: DomainSet, keys: seq<string>, nodes: seq<Node>, cum: seq<nat>)
    requires Encodes(ds, keys, nodes, cum) && ThreeKeys(keys)
    ensures |nodes| == |cum| > 4 && First(cum, 2) == 4 && First(cum, 3) == 5
    ensures nodes[2].prefix == "c." && nodes[3].prefix == "cd" && nodes[4].prefix == "c.*"
  {
    MenusUpToStar(keys);
    OneChild(ds, keys, nodes, cum, 0, 'c');
    assert nodes[1].prefix == "c";
    TwoChildren(ds, keys, nodes, cum, 1, '.', 'd');
    assert nodes[2].prefix == "c." && nodes[3].prefix == "cd";
    OneChild(ds, keys, nodes, cum, 2, '*');
  }

  lemma LayoutBeyond(ds: DomainSet, keys: seq<string>, nodes: seq<Node>, cum: seq<nat>)
    requires Encodes(ds, keys, nodes, cum) && ThreeKeys(keys)
    ensures |nodes| == |cum| > 6 && First(cum, 5) == 6 && nodes[4].prefix == "c.*"
    ensures nodes[5].prefix == "cdd" && nodes[6].prefix == "cdd-"
  {
    LayoutUpToStar(ds, keys, nodes, cum);
    MenusBeyond(keys);
    MenusOfOther(keys);
    OneChild(ds, keys, nodes, cum, 3, 'd');
    assert nodes[5].prefix == "cdd";
    MenuGives(ds, keys, nodes, cum, 4, []);
    TwoChildren(ds, keys, nodes, cum, 5, '-', '.');
  }

  // From the dot of `cdd.`, taken at the place of `cdd-`.
  lemma YesFromOther(ds: DomainSet, keys: seq<string>, nodes: seq<Node>, cum: seq<nat>)
    requires Encodes(ds, keys, nodes, cum) && ThreeKeys(keys) && |nodes| == |cum| > 6
    ensures FirstDot(ds, cum, 4, Start(cum, 5))
    ensures Says(ds, keys, nodes, cum, "c.b.k", Look(3, 4, Start(cum, 5), []), true)
  {
    LayoutBeyond(ds, keys, nodes, cum);
    MenusBeyond(keys);
    MenusOfOther(keys);
    assert "cdd-k" in ["c.*", "cdd-k", "cdd.k"];
    EndsAtKey(ds, keys, nodes, cum, "c.b.k", "cdd-k");
    Spelled();
    GoesDown(ds, keys, nodes, cum, "c.b.k", 4, "cdd-", ['k'], [], true);
    DotOfNext(ds, keys, nodes, cum, 4, '-');
    Elsewhere(ds, keys, nodes, cum, "c.b.k", Look(3, 4, Start(cum, 5), []), 5, true);
  }

  lemma YesFromStar(ds: DomainSet, keys: seq<string>, nodes: seq<Node>, cum: seq<nat>)
    requires Encodes(ds, keys, nodes, cum) && ThreeKeys(keys) && |nodes| == |cum| > 6
    ensures SaysAt(ds, keys, nodes, cum, "c.b.k", 2, "c.", [], true)
  {
    LayoutUpToStar(ds, keys, nodes, cum);
    MenusUpToStar(keys);
    YesFromOther(ds, keys, nodes, cum);
    assert End("c.b.k", 2) == 3;
    OverStar(ds, keys, nodes, cum, "c.b.k", 2, "c.", 2, Start(cum, 5), [], true);
  }

  lemma YesFromRoot(ds: DomainSet, keys: seq<string>, nodes: seq<Node>, cum: seq<nat>)
    requires Encodes(ds, keys, nodes, cum) && ThreeKeys(keys)
    requires SaysAt(ds, keys, nodes, cum, "c.b.k", 2, "c.", [], true)
    ensures SaysAt(ds, keys, nodes, cum, "c.b.k", 0, "", [], true)
  {
    MenusUpToStar(keys);
    Spelled();
    GoesDown(ds, keys, nodes, cum, "c.b.k", 1, "c", ['.', 'd'], [], true);
    GoesDown(ds, keys, nodes, cum, "c.b.k", 0, "", ['c'], [], true);
  }

  lemma Spelled()
    ensures Readable("c.b.k") && "" + ['c'] == "c" && "c" + ['.'] == "c." && "cdd-" + ['k'] == "cdd-k"
    ensures "c.b.k"[0] == 'c' && "c.b.k"[1] == '.' && "c.b.k"[2] == 'b' && "c.b.k"[3] == '.' && "c.b.k"[4] == 'k'
  {
    assert Bytes("c.b.k") == "c.b.k";
  }

  /** The keys `c.*`, `cdd-k` and `cdd.k` make the set accept `c.b.k`: down to the `*`, over
      the `b`, on at the dot of `cdd.`, but from the place of `cdd-`, to the key `cdd-k`. */
  lemma AnswersYes(ds: DomainSet, keys: seq<string>, r: bool)
    requires ThreeKeys(keys) && Answers(ds, keys, "c.b.k", r)
    ensures r
  {
    var nodes, cum, n: nat :| Encodes(ds, keys, nodes, cum) &&
      Decides(ds, keys, nodes, cum, "c.b.k", Look(0, 0, 0, []), n, r);
    LayoutBeyond(ds, keys, nodes, cum);
    YesFromStar(ds, keys, nodes, cum);
    YesFromRoot(ds, keys, nodes, cum);
    RootState(ds, keys, nodes, cum, "c.b.k");
    assert StandsAt(nodes, cum, Look(0, 0, 0, []), "", []);
  }

  // ---------------------------------------------------------------- a run that gives up

  ghost predicate TwoKeys(keys: seq<string>) {
    SameKeys(keys, ["*.q.r", "a.*", "a.*"])
  }

  lemma FirstMenus(keys: seq<string>)
    requires TwoKeys(keys)
    ensures IsMenu(keys, "", ['*', 'a']) && IsMenu(keys, "a", ['.'])
  {
    assert !("a" <= "*.q.r") by { assert "a"[0] != "*.q.r"[0]; }
    MenuOfThree(keys, "*.q.r", "a.*", "a.*", "", ['*', 'a']);
    MenuOfThree(keys, "*.q.r", "a.*", "a.*", "a", ['.']);
  }

  lemma SecondMenus(keys: seq<string>)
    requires TwoKeys(keys)
    ensures IsMenu(keys, "*", ['.']) && IsMenu(keys, "*.", ['q'])
  {
    assert !("*" <= "a.*") && !("*." <= "a.*") by { assert "*"[0] != "a.*"[0] && "*."[0] != "a.*"[0]; }
    assert "*" <= "*.q.r" && "*." <= "*.q.r";
    MenuOfThree(keys, "*.q.r", "a.*", "a.*", "*", ['.']);
    MenuOfThree(keys, "*.q.r", "a.*", "a.*", "*.", ['q']);
  }

  lemma ThirdMenus(keys: seq<string>)
    requires TwoKeys(keys)
    ensures IsMenu(keys, "a.", ['*']) && IsMenu(keys, "a.*", [])
  {
    assert !("a." <= "*.q.r") && !("a.*" <= "*.q.r") by { assert "a."[0] != "*.q.r"[0] && "a.*"[0] != "*.q.r"[0]; }
    assert "a." <= "a.*";
    MenuOfThree(keys, "*.q.r", "a.*", "a.*", "a.", ['*']);
    MenuOfThree(keys, "*.q.r", "a.*", "a.*", "a.*", []);
  }

  lemma FourthMenus(keys: seq<string>)
    requires TwoKeys(keys)
    ensures IsMenu(keys, "*.q", ['.']) && IsMenu(keys, "*.q.", ['r']) && IsMenu(keys, "*.q.r", [])
  {
    assert !("*.q" <= "a.*") by { assert "*.q"[0] != "a.*"[0]; }
    assert "*.q" <= "*.q.r" && "*.q." <= "*.q.r";
    MenuOfThree(keys, "*.q.r", "a.*", "a.*", "*.q", ['.']);
    MenuOfThree(keys, "*.q.r", "a.*", "a.*", "*.q.", ['r']);
    MenuOfThree(keys, "*.q.r", "a.*", "a.*", "*.q.r", []);
  }

  lemma FirstLevels(ds: DomainSet, keys: seq<string>, nodes: seq<Node>, cum: seq<nat>)
    requires Encodes(ds, keys, nodes, cum) && TwoKeys(keys)
    ensures |nodes| == |cum| > 4 && First(cum, 3) == 5 && nodes[0].prefix == ""
    ensures nodes[3].prefix == "*." && nodes[4].prefix == "a."
  {
    FirstMenus(keys);
    SecondMenus(keys);
    TwoChildren(ds, keys, nodes, cum, 0, '*', 'a');
    assert nodes[1].prefix == "*" && nodes[2].prefix == "a";
    OneChild(ds, keys, nodes, cum, 1, '.');
    OneChild(ds, keys, nodes, cum, 2, '.');
  }

  lemma NextLevels(ds: DomainSet, keys: seq<string>, nodes: seq<Node>, cum: seq<nat>)
    requires Encodes(ds, keys, nodes, cum) && TwoKeys(keys)
    ensures |nodes| == |cum| > 6 && First(cum, 4) == 6 && First(cum, 5) == 7
    ensures nodes[5].prefix == "*.q" && nodes[6].prefix == "a.*"
  {
    FirstLevels(ds, keys, nodes, cum);
    SecondMenus(keys);
    ThirdMenus(keys);
    OneChild(ds, keys, nodes, cum, 3, 'q');
    OneChild(ds, keys, nodes, cum, 4, '*');
  }

  // After the node of the second `*` there is one more label, and it is no dot.
  lemma LastLevels(ds: DomainSet, keys: seq<string>, nodes: seq<Node>, cum: seq<nat>)
    requires Encodes(ds, keys, nodes, cum) && TwoKeys(keys)
    ensures |cum| == 9 && First(cum, 6) == 8 && |ds.labels| == 8 && ds.labels[7] == 'r'
  {
    NextLevels(ds, keys, nodes, cum);
    ThirdMenus(keys);
    FourthMenus(keys);
    OneChild(ds, keys, nodes, cum, 5, '.');
    MenuGives(ds, keys, nodes, cum, 6, []);
    assert nodes[7].prefix == "*.q.";
    MenuGives(ds, keys, nodes, cum, 7, ['r']);
    assert ['r'][0] == 'r' && nodes[8].prefix == "*.q.r";
    MenuGives(ds, keys, nodes, cum, 8, []);
    NoMoreNodes(ds, keys, nodes, cum, 9);
  }

  // Where all nodes so far are expanded and no more are begun, there are no others.
  lemma NoMoreNodes(ds: DomainSet, keys: seq<string>, nodes: seq<Node>, cum: seq<nat>, n: nat)
    requires Encodes(ds, keys, nodes, cum) && 0 < n <= |cum| && First(cum, n) == n
    ensures |nodes| == |cum| == n && |ds.labels| == n - 1
  {
    if n < |cum| { ChildrenAhead(ds, keys, nodes, cum, n); }
  }

  lemma ChildrenAhead(ds: DomainSet, keys: seq<string>, nodes: seq<Node>, cum: seq<nat>, k: nat)
    requires Encodes(ds, keys, nodes, cum) && k < |cum|
    ensures k < First(cum, k)
  {
    assert Family(keys, nodes, cum, k);
  }

  lemma NoDotLeft(ds: DomainSet, cum: seq<nat>, k: nat)
    requires k < |cum| && First(cum, k) == |ds.labels| > 0 && ds.labels[|ds.labels| - 1] != '.'
    ensures forall p :: !FirstDot(ds, cum, k, p)
  {
  }

  lemma SpelledToo()
    ensures Readable("a.q.r") && "" + ['a'] == "a" && "a" + ['.'] == "a." && End("a.q.r", 2) == 3
    ensures "a.q.r"[0] == 'a' && "a.q.r"[1] == '.' && "a.q.r"[2] == 'q'
  {
    assert Bytes("a.q.r") == "a.q.r";
  }

  /** The keys `*.q.r` and `a.*` make the set refuse `a.q.r`, for which the first of them
      stands: down to the second `*`, which is the last one remembered; no dot follows it, and
      with that the search is over, although the first `*` is still on the stack. */
  lemma AnswersNo(ds: DomainSet, keys: seq<string>, r: bool)
    requires TwoKeys(keys) && Answers(ds, keys, "a.q.r", r)
    ensures !r
  {
    var nodes, cum, n: nat :| Encodes(ds, keys, nodes, cum) &&
      Decides(ds, keys, nodes, cum, "a.q.r", Look(0, 0, 0, []), n, r);
    FirstLevels(ds, keys, nodes, cum);
    NoFromSecond(ds, keys, nodes, cum);
    FirstMenus(keys);
    SpelledToo();
    var stack := [Cursor(Start(cum, 0), 0)];
    GoesDown(ds, keys, nodes, cum, "a.q.r", 1, "a", ['.'], stack, false);
    assert [] + stack == stack;
    GoesDownBeside(ds, keys, nodes, cum, "a.q.r", 0, "", 0, [], false);
    RootState(ds, keys, nodes, cum, "a.q.r");
    assert StandsAt(nodes, cum, Look(0, 0, 0, []), "", []);
  }

  lemma NoFromSecond(ds: DomainSet, keys: seq<string>, nodes: seq<Node>, cum: seq<nat>)
    requires Encodes(ds, keys, nodes, cum) && TwoKeys(keys) && |nodes| == |cum| > 4
    ensures SaysAt(ds, keys, nodes, cum, "a.q.r", 2, "a.", [Cursor(Start(cum, 0), 0)], false)
  {
    FirstLevels(ds, keys, nodes, cum);
    NextLevels(ds, keys, nodes, cum);
    LastLevels(ds, keys, nodes, cum);
    NoDotLeft(ds, cum, 6);
    ThirdMenus(keys);
    SpelledToo();
    NothingOverStar(ds, keys, nodes, cum, "a.q.r", 2, "a.", 4, [Cursor(Start(cum, 0), 0)]);
  }
}
