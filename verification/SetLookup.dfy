/** Membership in the succinct set: `has` of clash-lib/src/common/succinct_set.rs.

    The methods state exactly what each round of the loop does, for every key list.  What
    the rounds add up to is proved in lemmas: on sets without `*`, and on sets whose `*`
    stand alone. */
module SetLookup {
  import opened Basics
  import opened Bitmap
  import opened SortedKeys
  import opened KeyGlob
  import opened Louds
  import opened SuccinctSet

  /** `to_ascii_lowercase` */
  function LowerChar(c: char): char {
    if 'A' <= c <= 'Z' then (c as int + 32) as char else c
  }

  function Lower(s: string): (r: string)
    ensures |r| == |s| && forall i :: 0 <= i < |s| ==> r[i] == LowerChar(s[i])
  {
    seq(|s|, i requires 0 <= i < |s| => LowerChar(s[i]))
  }

  function Bytes(s: string): (r: string)
    ensures |r| == |s| && forall i :: 0 <= i < |s| ==> r[i] == AsByte(s[i])
  {
    seq(|s|, i requires 0 <= i < |s| => AsByte(s[i]))
  }

  const Capitals: string := "ABCDEFGHIJKLMNOPQRSTUVWXYZ"
  const Smalls: string := "abcdefghijklmnopqrstuvwxyz"

  // The same character, or a letter in two cases.
  predicate SameLetter(c: char, d: char) {
    c == d || exists k :: 0 <= k < 26 && CaseOf(c, d, k)
  }

  predicate CaseOf(c: char, d: char, k: nat)
    requires k < 26
  {
    (c == Capitals[k] && d == Smalls[k]) || (c == Smalls[k] && d == Capitals[k])
  }

  predicate SameButCase(a: string, b: string) {
    |a| == |b| && forall i :: 0 <= i < |a| ==> SameLetter(a[i], b[i])
  }

  lemma Alphabet(k: nat)
    requires k < 26
    ensures Capitals[k] as int == 'A' as int + k && Smalls[k] as int == 'a' as int + k
  {
  }

  lemma CaseIsShift(c: char, d: char, k: nat)
    requires k < 26 && CaseOf(c, d, k)
    ensures ('A' <= c <= 'Z' && d as int == c as int + 32) || ('A' <= d <= 'Z' && c as int == d as int + 32)
  {
    Alphabet(k);
  }

  lemma LowerIsSame(c: char, d: char)
    requires SameLetter(c, d)
    ensures LowerChar(c) == LowerChar(d)
  {
    if c != d {
      var k :| 0 <= k < 26 && CaseOf(c, d, k);
      CaseIsShift(c, d, k);
    }
  }

  // Case is not looked at.
  lemma LowerIgnoresCase(a: string, b: string)
    requires SameButCase(a, b)
    ensures Lower(Reverse(a)) == Lower(Reverse(b))
  {
    forall i | 0 <= i < |a| ensures LowerChar(a[i]) == LowerChar(b[i]) { LowerIsSame(a[i], b[i]); }
    var x, y := Reverse(a), Reverse(b);
    forall i | 0 <= i < |x| ensures LowerChar(x[i]) == LowerChar(y[i]) {
      assert x[i] == a[|a| - 1 - i] && y[i] == b[|a| - 1 - i];
    }
    assert Lower(x) == Lower(y);
  }

  // The `+` that follows the first i characters of q is reached and accepted: a smaller
  // next character is looked at first, and wins if it continues a key.
  ghost predicate PlusAt(keys: seq<string>, q: string, i: nat)
    requires i < |q|
  {
    BeginsKey(keys, q[..i] + ['+']) && (q[i] >= '+' || !BeginsKey(keys, q[..i + 1]))
  }

  /** What `has` decides on sets without `*`, for a query reversed and in lower case. */
  ghost predicate Accepts(keys: seq<string>, q: string) {
    q in keys || exists i: nat :: i < |q| && PlusAt(keys, q, i)
  }

  ghost predicate StarFree(keys: seq<string>) {
    forall k :: 0 <= k < |keys| ==> '*' !in keys[k]
  }

  // The queries that never need the stack: no key has a `*`, or the query begins a key.
  ghost predicate WithoutStack(keys: seq<string>, q: string) {
    StarFree(keys) || (BeginsKey(keys, q) && '*' !in q)
  }

  datatype Cursor = Cursor(bmIdx: nat, index: nat)

  datatype Scan = Plus | Match | BlockEnd

  // Where the loop of `has` stands: the next character, the node, the position, the stack.
  datatype Look = Look(i: nat, nodeId: nat, bmIdx: nat, stack: seq<Cursor>)

  // ---------------------------------------------------------------- termination

  // A bound on the work that is left: positions only grow, and each one is put on the
  // stack at most once for every time it is passed.
  ghost function Potential(total: nat, bmIdx: nat, stack: seq<Cursor>): nat {
    (if bmIdx <= total then Pow2(total - bmIdx) else 0) + StackPotential(total, stack)
  }

  ghost function StackPotential(total: nat, stack: seq<Cursor>): nat {
    if stack == [] then 0
    else
      var c := stack[|stack| - 1];
      (if c.bmIdx < total then Pow2(total - c.bmIdx - 1) else 0) + StackPotential(total, stack[..|stack| - 1])
  }

  // Passing a position, with or without putting it on the stack, adds no work.
  lemma MovePotential(total: nat, p: nat, stack: seq<Cursor>, i: nat)
    requires p < total
    ensures Potential(total, p + 1, stack) < Potential(total, p, stack)
    ensures Potential(total, p + 1, stack + [Cursor(p, i)]) == Potential(total, p, stack)
  {
    var more := stack + [Cursor(p, i)];
    assert more[..|more| - 1] == stack;
  }

  // ---------------------------------------------------------------- one round

  ghost predicate CursorOk(ds: DomainSet, cum: seq<nat>, key: string, c: Cursor)
    requires cum != []
  {
    c.bmIdx <= LastBit(cum) && c.bmIdx < 64 * |ds.labelBitMap| && !Flat(ds.labelBitMap)[c.bmIdx] && c.index < |key|
  }

  ghost predicate StackOk(ds: DomainSet, cum: seq<nat>, key: string, stack: seq<Cursor>)
    requires cum != []
  {
    forall i :: 0 <= i < |stack| ==> CursorOk(ds, cum, key, stack[i])
  }

  // After a jump the position need not lie in the node's block, but the label read there
  // is the dot that the query has next.
  ghost predicate AtDot(ds: DomainSet, cum: seq<nat>, c: char, nodeId: nat, p: nat)
    requires cum != []
  {
    && c == '.' && nodeId < |cum| && nodeId <= p <= LastBit(cum) && p < 64 * |ds.labelBitMap|
    && p - nodeId < |ds.labels| && ds.labels[p - nodeId] == '.'
  }

  // Labels passed over by a scan.
  ghost predicate Passed(ds: DomainSet, c: char, nodeId: nat, p: nat) {
    && nodeId <= p && p - nodeId < |ds.labels| && p < 64 * |ds.labelBitMap| && !Flat(ds.labelBitMap)[p]
    && ds.labels[p - nodeId] != '+' && (ds.labels[p - nodeId] == '*' || ds.labels[p - nodeId] != AsByte(c))
  }

  // What holds of the state whenever a character is looked up.
  ghost predicate Sane(ds: DomainSet, cum: seq<nat>, key: string, s: Look)
    requires cum != []
  {
    && StackOk(ds, cum, key, s.stack) && s.i <= |key|
    && (InBlock(cum, s.nodeId, s.bmIdx) || (s.i < |key| && AtDot(ds, cum, key[s.i], s.nodeId, s.bmIdx)))
  }

  ghost predicate IsStar(ds: DomainSet, nodeId: nat, p: nat) {
    nodeId <= p && p - nodeId < |ds.labels| && ds.labels[p - nodeId] == '*'
  }

  // The cursors for the `*` labels between two positions.
  ghost function Stars(ds: DomainSet, nodeId: nat, i: nat, a: nat, b: nat): seq<Cursor> {
    if b <= a then []
    else Stars(ds, nodeId, i, a, b - 1) + if IsStar(ds, nodeId, b - 1) then [Cursor(b - 1, i)] else []
  }

  // What a scan has read where it ends.
  ghost predicate Decided(ds: DomainSet, cum: seq<nat>, c: char, nodeId: nat, p: nat, outcome: Scan)
    requires cum != []
  {
    && p <= LastBit(cum) && p < 64 * |ds.labelBitMap|
    && (outcome.BlockEnd? <==> Flat(ds.labelBitMap)[p] || ds.labels == [])
    && (!outcome.BlockEnd? ==>
          nodeId <= p && p - nodeId < |ds.labels| && (outcome.Plus? <==> ds.labels[p - nodeId] == '+') &&
          (outcome.Match? ==> ds.labels[p - nodeId] == AsByte(c) != '*'))
  }

  // The scan from the state ends at p with this outcome.
  ghost predicate Scanned(ds: DomainSet, cum: seq<nat>, key: string, s: Look, outcome: Scan, p: nat)
    requires cum != [] && s.i < |key|
  {
    && s.bmIdx <= p && Decided(ds, cum, key[s.i], s.nodeId, p, outcome)
    && (InBlock(cum, s.nodeId, s.bmIdx) ==> InBlock(cum, s.nodeId, p))
    && (!InBlock(cum, s.nodeId, p) ==> p == s.bmIdx)
    && forall r :: s.bmIdx <= r < p ==> Passed(ds, key[s.i], s.nodeId, r)
  }

  /** The innermost loop of `has`: reads the labels from a position on until one decides,
      and remembers each `*` it passes.  An empty label list ends it like the end of a
      block; nothing is on the stack then. */
  method ScanLabels(ds: DomainSet, key: string, s: Look, ghost keys: seq<string>, ghost nodes: seq<Node>,
                    ghost cum: seq<nat>)
    returns (outcome: Scan, bmIdx: nat, stack: seq<Cursor>)
    requires Encodes(ds, keys, nodes, cum) && s.i < |key| && Sane(ds, cum, key, s)
    ensures Scanned(ds, cum, key, s, outcome, bmIdx)
    ensures stack == s.stack + Stars(ds, s.nodeId, s.i, s.bmIdx, bmIdx)
    ensures StackOk(ds, cum, key, stack)
    ensures Potential(64 * |ds.labelBitMap|, bmIdx, stack) <= Potential(64 * |ds.labelBitMap|, s.bmIdx, s.stack)
  {
    bmIdx, stack, outcome := s.bmIdx, s.stack, BlockEnd;
    var done := false;
    while !done
      invariant ScanSoFar(ds, cum, key, s, bmIdx, stack)
      invariant done ==> Decided(ds, cum, key[s.i], s.nodeId, bmIdx, outcome)
      decreases 64 * |ds.labelBitMap| - bmIdx, !done
    {
      ghost var at, before := bmIdx, stack;
      done, outcome, bmIdx, stack := ScanStep(ds, key, s.i, s.nodeId, bmIdx, stack, keys, nodes, cum);
      if !done { ScanFurther(ds, cum, key, s, at, before, stack); }
      assert ScanSoFar(ds, cum, key, s, bmIdx, stack);
    }
    ScanEnds(ds, cum, key, s, bmIdx, stack, outcome);
  }

  // A scan that has passed all labels up to a position.
  ghost predicate ScanSoFar(ds: DomainSet, cum: seq<nat>, key: string, s: Look, at: nat, stack: seq<Cursor>)
    requires cum != [] && s.i < |key|
  {
    && s.bmIdx <= at && Sane(ds, cum, key, Look(s.i, s.nodeId, at, stack))
    && (InBlock(cum, s.nodeId, s.bmIdx) ==> InBlock(cum, s.nodeId, at))
    && (!InBlock(cum, s.nodeId, at) ==> at == s.bmIdx)
    && stack == s.stack + Stars(ds, s.nodeId, s.i, s.bmIdx, at)
    && Potential(64 * |ds.labelBitMap|, at, stack) <= Potential(64 * |ds.labelBitMap|, s.bmIdx, s.stack)
    && forall r :: s.bmIdx <= r < at ==> Passed(ds, key[s.i], s.nodeId, r)
  }

  lemma ScanEnds(ds: DomainSet, cum: seq<nat>, key: string, s: Look, at: nat, stack: seq<Cursor>, outcome: Scan)
    requires cum != [] && s.i < |key| && ScanSoFar(ds, cum, key, s, at, stack)
    requires Decided(ds, cum, key[s.i], s.nodeId, at, outcome)
    ensures Scanned(ds, cum, key, s, outcome, at) && StackOk(ds, cum, key, stack)
    ensures stack == s.stack + Stars(ds, s.nodeId, s.i, s.bmIdx, at)
    ensures Potential(64 * |ds.labelBitMap|, at, stack) <= Potential(64 * |ds.labelBitMap|, s.bmIdx, s.stack)
  {
  }

  lemma ScanFurther(ds: DomainSet, cum: seq<nat>, key: string, s: Look, at: nat, before: seq<Cursor>,
                    stack: seq<Cursor>)
    requires cum != [] && s.i < |key| && ScanSoFar(ds, cum, key, s, at, before)
    requires InBlock(cum, s.nodeId, at) && InBlock(cum, s.nodeId, at + 1) && Passed(ds, key[s.i], s.nodeId, at)
    requires stack == before + if IsStar(ds, s.nodeId, at) then [Cursor(at, s.i)] else []
    requires StackOk(ds, cum, key, stack)
    requires Potential(64 * |ds.labelBitMap|, at + 1, stack) <= Potential(64 * |ds.labelBitMap|, at, before)
    ensures ScanSoFar(ds, cum, key, s, at + 1, stack)
  {
  }

  // Reads one label: it decides, or is passed; a `*` is remembered.
  method ScanStep(ds: DomainSet, key: string, i: nat, nodeId: nat, at: nat, stack0: seq<Cursor>,
                  ghost keys: seq<string>, ghost nodes: seq<Node>, ghost cum: seq<nat>)
    returns (done: bool, outcome: Scan, bmIdx: nat, stack: seq<Cursor>)
    requires Encodes(ds, keys, nodes, cum) && i < |key| && Sane(ds, cum, key, Look(i, nodeId, at, stack0))
    ensures at < 64 * |ds.labelBitMap|
    ensures done ==> bmIdx == at && stack == stack0 && Decided(ds, cum, key[i], nodeId, at, outcome)
    ensures !done ==>
      bmIdx == at + 1 && InBlock(cum, nodeId, at) && InBlock(cum, nodeId, bmIdx) && Passed(ds, key[i], nodeId, at)
    ensures !done ==> stack == stack0 + if IsStar(ds, nodeId, at) then [Cursor(at, i)] else []
    ensures StackOk(ds, cum, key, stack)
    ensures Potential(64 * |ds.labelBitMap|, bmIdx, stack) <= Potential(64 * |ds.labelBitMap|, at, stack0)
  {
    ScanRange(ds, keys, nodes, cum, key[i], nodeId, at);
    done, outcome, bmIdx, stack := true, BlockEnd, at, stack0;
    if !GetBit(ds.labelBitMap, at) && |ds.labels| > 0 {
      var lab := ds.labels[at - nodeId];
      if lab == '+' {
        outcome := Plus;
      } else if lab != '*' && lab == AsByte(key[i]) {
        outcome := Match;
      } else {
        MovePotential(64 * |ds.labelBitMap|, at, stack, i);
        if lab == '*' { stack := stack + [Cursor(at, i)]; }
        done, bmIdx := false, at + 1;
      }
    }
  }

  // Where the scan stands, the bitmap and the labels can be read.
  lemma ScanRange(ds: DomainSet, keys: seq<string>, nodes: seq<Node>, cum: seq<nat>, c: char, k: nat, p: nat)
    requires Encodes(ds, keys, nodes, cum)
    requires InBlock(cum, k, p) || AtDot(ds, cum, c, k, p)
    ensures p <= LastBit(cum) && p < 64 * |ds.labelBitMap| && GetBit(ds.labelBitMap, p) == Flat(ds.labelBitMap)[p]
    ensures !Flat(ds.labelBitMap)[p] ==> k <= p && p - k < |ds.labels|
    ensures !Flat(ds.labelBitMap)[p] && InBlock(cum, k, p) ==> InBlock(cum, k, p + 1)
  {
    if InBlock(cum, k, p) { BlockBits(ds, keys, nodes, cum, k, p); }
    GetBitFlat(ds.labelBitMap, p);
  }

  datatype Back = Found | Exhausted | Again | Jump

  // A clear bit and the child it stands for.
  ghost predicate LeadsTo(cum: seq<nat>, p: nat, child: nat) {
    exists k: nat :: InBlock(cum, k, p) && p < k + cum[k] && child == p - k + 1
  }

  ghost predicate DotAt(ds: DomainSet, child: nat, p: nat) {
    child <= p && p - child < |ds.labels| && ds.labels[p - child] == '.'
  }

  // The label at p, read with the child's number, is the first dot from the child's block on.
  ghost predicate FirstDot(ds: DomainSet, cum: seq<nat>, child: nat, p: nat)
    requires child < |cum|
  {
    Start(cum, child) <= p && DotAt(ds, child, p) && forall r :: Start(cum, child) <= r < p ==> !DotAt(ds, child, r)
  }

  // Going back to a `*`: at the end of the query the child's leaf bit decides, before it the
  // next dot label does, wherever it is.
  ghost predicate GoesBack(ds: DomainSet, keys: seq<string>, nodes: seq<Node>, cum: seq<nat>, key: string, c: Cursor,
                           outcome: Back, nodeId: nat, bmIdx: nat, i: nat)
    requires |nodes| == |cum| && c.index <= |key|
  {
    && LeadsTo(cum, c.bmIdx, nodeId) && nodeId < |nodes| && nodes[nodeId].s < |keys| && i == End(key, c.index)
    && (outcome.Found? || outcome.Again? <==> i == |key|)
    && (i == |key| ==> (outcome.Found? <==> IsLeaf(keys, nodes[nodeId])))
    && (outcome.Jump? ==> FirstDot(ds, cum, nodeId, bmIdx))
    && (outcome.Exhausted? ==> forall p :: !FirstDot(ds, cum, nodeId, p))
  }

  /** Taking a cursor off the stack: the rest of `has` at the end of a block.  The scan
      for a dot does not stop at the end of the child's block. */
  method Backtrack(ds: DomainSet, key: string, stack0: seq<Cursor>, ghost at: nat,
                   ghost keys: seq<string>, ghost nodes: seq<Node>, ghost cum: seq<nat>)
    returns (outcome: Back, stack: seq<Cursor>, nodeId: nat, bmIdx: nat, i: nat)
    requires Encodes(ds, keys, nodes, cum)
    requires stack0 != [] && StackOk(ds, cum, key, stack0) && at <= 64 * |ds.labelBitMap|
    ensures stack == stack0[..|stack0| - 1] && StackOk(ds, cum, key, stack) && stack0[|stack0| - 1].index <= |key|
    ensures GoesBack(ds, keys, nodes, cum, key, stack0[|stack0| - 1], outcome, nodeId, bmIdx, i)
    ensures outcome.Again? ==>
      Potential(64 * |ds.labelBitMap|, at, stack) < Potential(64 * |ds.labelBitMap|, at, stack0)
    ensures outcome.Jump? ==> i < |key| && AtDot(ds, cum, key[i], nodeId, bmIdx)
    ensures outcome.Jump? ==>
      Potential(64 * |ds.labelBitMap|, bmIdx, stack) < Potential(64 * |ds.labelBitMap|, at, stack0)
  {
    var cursor := stack0[|stack0| - 1];
    stack := stack0[..|stack0| - 1];
    assert CursorOk(ds, cum, key, cursor);
    ghost var k;
    nodeId, bmIdx, k := GoDown(ds, cursor.bmIdx, keys, nodes, cum);
    assert LeadsTo(cum, cursor.bmIdx, nodeId);
    i := NextDot(key, cursor.index);
    if i >= |key| {
      var leaf := AtLeaf(ds, nodeId, keys, nodes, cum);
      outcome := if leaf then Found else Again;
      return;
    }
    var found;
    found, bmIdx := FindDot(ds, nodeId, bmIdx, keys, nodes, cum);
    outcome := if found then Jump else Exhausted;
    if found {
      LabelsEnd(ds, keys, nodes, cum);
      Pow2Monotone(64 * |ds.labelBitMap| - bmIdx, 64 * |ds.labelBitMap| - cursor.bmIdx - 1);
    }
  }

  method NextDot(key: string, from: nat) returns (i: nat)
    requires from <= |key|
    ensures i == End(key, from)
  {
    i := from;
    while i < |key| && key[i] != '.'
      invariant from <= i <= |key| && End(key, i) == End(key, from)
    {
      i := i + 1;
    }
  }

  method FindDot(ds: DomainSet, nodeId: nat, start: nat, ghost keys: seq<string>, ghost nodes: seq<Node>,
                 ghost cum: seq<nat>)
    returns (found: bool, bmIdx: nat)
    requires Encodes(ds, keys, nodes, cum) && nodeId < |cum| && start == Start(cum, nodeId) && nodeId <= start
    ensures nodes[nodeId].s < |keys|
    ensures found ==> FirstDot(ds, cum, nodeId, bmIdx)
    ensures !found ==> forall p :: !FirstDot(ds, cum, nodeId, p)
  {
    assert NodeOk(keys, nodes[nodeId]);
    bmIdx := start;
    while bmIdx - nodeId < |ds.labels|
      invariant start <= bmIdx
      invariant forall r :: start <= r < bmIdx ==> !DotAt(ds, nodeId, r)
    {
      if ds.labels[bmIdx - nodeId] == '.' { return true, bmIdx; }
      bmIdx := bmIdx + 1;
    }
    found := false;
  }

  lemma LabelsEnd(ds: DomainSet, keys: seq<string>, nodes: seq<Node>, cum: seq<nat>)
    requires Encodes(ds, keys, nodes, cum)
    ensures |nodes| + |ds.labels| - 1 == LastBit(cum) < 64 * |ds.labelBitMap|
  {
    LastIsLeaf(keys, nodes, cum);
    BlockCloses(Flat(ds.labelBitMap), cum, |cum| - 1);
  }

  // What one round makes of the state, given how its scan ended.
  ghost predicate RoundIs(ds: DomainSet, keys: seq<string>, nodes: seq<Node>, cum: seq<nat>, key: string,
                          s: Look, outcome: Scan, p: nat, verdict: Option<bool>, t: Look)
    requires |nodes| == |cum|
  {
    var stack := s.stack + Stars(ds, s.nodeId, s.i, s.bmIdx, p);
    match outcome
    case Plus => verdict == Some(true)
    case Match =>
      && verdict.None? && t.i == s.i + 1 && t.stack == stack
      && t.nodeId < |cum| && t.bmIdx == Start(cum, t.nodeId) && InBlock(cum, t.nodeId, t.bmIdx)
      && LeadsTo(cum, p, t.nodeId) && (InBlock(cum, s.nodeId, p) ==> t.nodeId == p - s.nodeId + 1)
    case BlockEnd =>
      if stack == [] then verdict == Some(false)
      else
        var c, rest := stack[|stack| - 1], stack[..|stack| - 1];
        exists back, nodeId, bmIdx, i ::
          && c.index <= |key| && GoesBack(ds, keys, nodes, cum, key, c, back, nodeId, bmIdx, i)
          && match back {
            case Found => verdict == Some(true)
            case Exhausted => verdict == Some(false)
            case Again => verdict.None? && t == Look(s.i, s.nodeId, p, rest)
            case Jump => verdict.None? && t == Look(i, nodeId, bmIdx, rest)
          }
  }

  /** One lookup of one character: the body of the two outer loops of `has`. */
  method Round(ds: DomainSet, key: string, s: Look, ghost keys: seq<string>, ghost nodes: seq<Node>,
               ghost cum: seq<nat>)
    returns (verdict: Option<bool>, t: Look, ghost outcome: Scan, ghost p: nat)
    requires Encodes(ds, keys, nodes, cum) && s.i < |key| && Sane(ds, cum, key, s)
    ensures Scanned(ds, cum, key, s, outcome, p)
    ensures RoundIs(ds, keys, nodes, cum, key, s, outcome, p, verdict, t)
    ensures verdict.None? ==> Sane(ds, cum, key, t)
    ensures verdict.None? ==>
      Potential(64 * |ds.labelBitMap|, t.bmIdx, t.stack) < Potential(64 * |ds.labelBitMap|, s.bmIdx, s.stack)
  {
    verdict, t := None, s;
    var scan, bmIdx, stack := ScanLabels(ds, key, s, keys, nodes, cum);
    outcome, p := scan, bmIdx;
    match scan {
      case Plus => verdict := Some(true);
      case Match =>
        var nodeId;
        nodeId, bmIdx := Descend(ds, bmIdx, s.nodeId, stack, keys, nodes, cum);
        t := Look(s.i + 1, nodeId, bmIdx, stack);
      case BlockEnd =>
        if stack == [] {
          verdict := Some(false);
        } else {
          var back, rest, nodeId, next, i := Backtrack(ds, key, stack, bmIdx, keys, nodes, cum);
          match back {
            case Found => verdict := Some(true);
            case Exhausted => verdict := Some(false);
            case Again => t := Look(s.i, s.nodeId, bmIdx, rest);
            case Jump => t := Look(i, nodeId, next, rest);
          }
        }
    }
  }

  // The step to the child whose label matched.
  method Descend(ds: DomainSet, at: nat, from: nat, ghost stack: seq<Cursor>,
                 ghost keys: seq<string>, ghost nodes: seq<Node>, ghost cum: seq<nat>)
    returns (nodeId: nat, bmIdx: nat)
    requires Encodes(ds, keys, nodes, cum)
    requires at <= LastBit(cum) && at < 64 * |ds.labelBitMap| && !Flat(ds.labelBitMap)[at]
    ensures InBlock(cum, nodeId, bmIdx) && bmIdx == Start(cum, nodeId)
    ensures LeadsTo(cum, at, nodeId) && (InBlock(cum, from, at) ==> nodeId == at - from + 1)
    ensures Potential(64 * |ds.labelBitMap|, bmIdx, stack) < Potential(64 * |ds.labelBitMap|, at, stack)
  {
    ghost var k;
    nodeId, bmIdx, k := GoDown(ds, at, keys, nodes, cum);
    assert Family(keys, nodes, cum, nodeId);
    BlockBits(ds, keys, nodes, cum, nodeId, bmIdx);
    Pow2Monotone(64 * |ds.labelBitMap| - bmIdx, 64 * |ds.labelBitMap| - at - 1);
    if InBlock(cum, from, at) { SameBlock(ds, keys, nodes, cum, k, from, at); }
  }

  // ---------------------------------------------------------------- the labels of a node

  // The labels of a node, in order, are its continuations.
  ghost predicate IsMenu(keys: seq<string>, prefix: string, menu: seq<char>) {
    && (forall i, j :: 0 <= i < j < |menu| ==> menu[i] < menu[j])
    && (forall c :: c in menu <==> BeginsKey(keys, prefix + [c]))
  }

  ghost function Menu(ds: DomainSet, cum: seq<nat>, k: nat): seq<char>
    requires k < |cum| && First(cum, k) <= cum[k] + 1 <= |ds.labels| + 1
  {
    ds.labels[First(cum, k) - 1..cum[k]]
  }

  lemma MenuBounds(ds: DomainSet, keys: seq<string>, nodes: seq<Node>, cum: seq<nat>, k: nat)
    requires Encodes(ds, keys, nodes, cum) && k < |nodes|
    ensures First(cum, k) <= cum[k] + 1 <= |ds.labels| + 1
  {
    assert Family(keys, nodes, cum, k);
  }

  lemma MenuOf(ds: DomainSet, keys: seq<string>, nodes: seq<Node>, cum: seq<nat>, k: nat)
    requires Encodes(ds, keys, nodes, cum) && k < |nodes|
    ensures First(cum, k) <= cum[k] + 1 <= |ds.labels| + 1
    ensures IsMenu(keys, nodes[k].prefix, Menu(ds, cum, k))
  {
    MenuBounds(ds, keys, nodes, cum, k);
    var menu, lo := Menu(ds, cum, k), First(cum, k);
    forall i, j | 0 <= i < j < |menu| ensures menu[i] < menu[j] {
      MenuIncreases(ds, keys, nodes, cum, k, lo + i, lo + j);
    }
    forall c | c in menu ensures BeginsKey(keys, nodes[k].prefix + [c]) {
      var i :| 0 <= i < |menu| && menu[i] == c;
      MenuContinues(ds, keys, nodes, cum, k, lo + i);
    }
    forall c | BeginsKey(keys, nodes[k].prefix + [c]) ensures c in menu {
      MenuComplete(ds, keys, nodes, cum, k, c);
    }
  }

  lemma MenuIncreases(ds: DomainSet, keys: seq<string>, nodes: seq<Node>, cum: seq<nat>, k: nat, i: nat, j: nat)
    requires Encodes(ds, keys, nodes, cum) && k < |nodes| && First(cum, k) <= i < j <= cum[k] < |nodes|
    ensures ds.labels[i - 1] < ds.labels[j - 1]
  {
    LabelsIncrease(keys, nodes, cum, k, i, j);
  }

  lemma MenuComplete(ds: DomainSet, keys: seq<string>, nodes: seq<Node>, cum: seq<nat>, k: nat, c: char)
    requires Encodes(ds, keys, nodes, cum) && k < |nodes| && BeginsKey(keys, nodes[k].prefix + [c])
    requires First(cum, k) <= cum[k] + 1 <= |ds.labels| + 1
    ensures c in Menu(ds, cum, k)
  {
    var j := ChildFor(keys, nodes, cum, k, c);
    assert Menu(ds, cum, k)[j - First(cum, k)] == c;
  }

  lemma StarLabel(ds: DomainSet, keys: seq<string>, nodes: seq<Node>, cum: seq<nat>, k: nat, p: nat)
    requires Encodes(ds, keys, nodes, cum) && k <= p && p - k < |ds.labels| && ds.labels[p - k] == '*'
    ensures !StarFree(keys)
  {
    var v := nodes[p - k + 1];
    assert NodeOk(keys, v) && v.prefix != "" && Label(v) == '*';
    assert v.prefix <= keys[v.s];
    assert keys[v.s][|v.prefix| - 1] == '*';
  }

  // ---------------------------------------------------------------- without the stack

  // The walk has read the first i characters, and no `+` was accepted on the way.
  ghost predicate Walked(keys: seq<string>, nodes: seq<Node>, cum: seq<nat>, q: string, i: nat, nodeId: nat) {
    && i <= |q| && nodeId < |nodes| == |cum| && nodes[nodeId].prefix == q[..i]
    && forall x: nat :: x < i ==> !PlusAt(keys, q, x)
  }

  // The first x labels of a menu are neither `+` nor the character looked for.
  ghost predicate Skipped(menu: seq<char>, c: char, x: nat) {
    x <= |menu| && forall y :: 0 <= y < x ==> menu[y] != '+' && menu[y] != c
  }

  lemma SkippedLabels(ds: DomainSet, keys: seq<string>, nodes: seq<Node>, cum: seq<nat>, c: char, k: nat, p: nat)
    requires Encodes(ds, keys, nodes, cum) && InBlock(cum, k, p) && (StarFree(keys) || AsByte(c) != '*')
    requires forall r :: Start(cum, k) <= r < p ==> Passed(ds, c, k, r)
    ensures First(cum, k) <= cum[k] + 1 <= |ds.labels| + 1
    ensures Skipped(Menu(ds, cum, k), AsByte(c), p - Start(cum, k))
    ensures p < k + cum[k] ==> k <= p && p - k < |ds.labels| && Menu(ds, cum, k)[p - Start(cum, k)] == ds.labels[p - k]
  {
    MenuBounds(ds, keys, nodes, cum, k);
    var menu := Menu(ds, cum, k);
    forall y | 0 <= y < p - Start(cum, k) ensures menu[y] != '+' && menu[y] != AsByte(c) {
      var r := Start(cum, k) + y;
      assert Passed(ds, c, k, r) && menu[y] == ds.labels[r - k];
      if ds.labels[r - k] == '*' { StarLabel(ds, keys, nodes, cum, k, r); }
    }
  }

  lemma PlusDecides(keys: seq<string>, q: string, i: nat, menu: seq<char>, x: nat)
    requires i < |q| && IsMenu(keys, q[..i], menu) && Skipped(menu, q[i], x) && x < |menu| && menu[x] == '+'
    ensures PlusAt(keys, q, i)
  {
    assert q[..i + 1] == q[..i] + [q[i]];
    assert '+' in menu;
    if q[i] in menu {
      var y :| 0 <= y < |menu| && menu[y] == q[i];
      assert x <= y;
    }
  }

  lemma MatchDecides(keys: seq<string>, q: string, i: nat, menu: seq<char>, x: nat)
    requires i < |q| && IsMenu(keys, q[..i], menu) && Skipped(menu, q[i], x) && x < |menu| && menu[x] == q[i] != '+'
    ensures !PlusAt(keys, q, i)
  {
    assert q[..i + 1] == q[..i] + [q[i]];
    assert q[i] in menu;
    if '+' in menu {
      var y :| 0 <= y < |menu| && menu[y] == '+';
      assert x < y;
    }
  }

  lemma EndDecides(keys: seq<string>, q: string, i: nat, menu: seq<char>)
    requires i < |q| && IsMenu(keys, q[..i], menu) && Skipped(menu, q[i], |menu|)
    requires forall x: nat :: x < i ==> !PlusAt(keys, q, x)
    ensures !Accepts(keys, q) && !BeginsKey(keys, q)
  {
    assert q[..i + 1] == q[..i] + [q[i]];
    assert '+' !in menu && q[i] !in menu;
    NoLongerBeginning(keys, q, i + 1);
  }

  // Once a beginning of q begins no key, neither does anything longer.
  lemma NoLongerBeginning(keys: seq<string>, q: string, n: nat)
    requires n <= |q| && !BeginsKey(keys, q[..n])
    ensures q !in keys && !BeginsKey(keys, q)
    ensures forall x: nat :: n <= x < |q| ==> !PlusAt(keys, q, x)
  {
    forall x: nat | n <= x < |q| ensures !BeginsKey(keys, q[..x] + ['+']) {
      forall k | 0 <= k < |keys| ensures !(q[..x] + ['+'] <= keys[k]) {
        LongerPrefix(q[..x], '+', keys[k]);
        ShorterPrefix(q, x, n, keys[k]);
      }
    }
    forall k | 0 <= k < |keys| ensures !(q <= keys[k]) {
      ShorterPrefix(q, |q|, n, keys[k]);
    }
  }

  lemma ShorterPrefix(q: string, x: nat, n: nat, s: string)
    requires n <= x <= |q|
    ensures q[..x] <= s ==> q[..n] <= s
    ensures q <= s ==> q[..n] <= s
  {
    assert q[..x][..n] == q[..n];
  }

  lemma LeafDecides(keys: seq<string>, nodes: seq<Node>, cum: seq<nat>, q: string, k: nat)
    requires StrictlySorted(keys) && NodesOk(keys, nodes) && Walked(keys, nodes, cum, q, |q|, k)
    ensures nodes[k].s < |keys| && (IsLeaf(keys, nodes[k]) <==> Accepts(keys, q))
  {
    assert NodeOk(keys, nodes[k]);
    assert q[..|q|] == q;
    LeafIsKey(keys, nodes[k]);
  }

  ghost predicate OnPath(keys: seq<string>, nodes: seq<Node>, cum: seq<nat>, key: string, i: nat, nodeId: nat,
                         bmIdx: nat) {
    && InBlock(cum, nodeId, bmIdx) && bmIdx == Start(cum, nodeId)
    && Walked(keys, nodes, cum, Bytes(key), i, nodeId)
  }

  // No `*` label, no cursor.
  lemma {:induction false} NoStars(ds: DomainSet, keys: seq<string>, nodes: seq<Node>, cum: seq<nat>, nodeId: nat,
                                   i: nat, a: nat, b: nat)
    requires Encodes(ds, keys, nodes, cum) && StarFree(keys)
    ensures Stars(ds, nodeId, i, a, b) == []
  {
    if b > a {
      NoStars(ds, keys, nodes, cum, nodeId, i, a, b - 1);
      if IsStar(ds, nodeId, b - 1) { StarLabel(ds, keys, nodes, cum, nodeId, b - 1); }
    }
  }

  // What each outcome of a scan from the start of a block says about the node's menu.
  lemma ScanMenu(ds: DomainSet, keys: seq<string>, nodes: seq<Node>, cum: seq<nat>, key: string, s: Look, outcome: Scan,
                 p: nat) returns (menu: seq<char>, x: nat)
    requires Encodes(ds, keys, nodes, cum) && s.i < |key| && Scanned(ds, cum, key, s, outcome, p)
    requires s.nodeId < |nodes| && InBlock(cum, s.nodeId, s.bmIdx) && s.bmIdx == Start(cum, s.nodeId)
    requires StarFree(keys) || AsByte(key[s.i]) != '*'
    ensures IsMenu(keys, nodes[s.nodeId].prefix, menu) && Skipped(menu, AsByte(key[s.i]), x)
    ensures outcome.Plus? ==> x < |menu| && menu[x] == '+'
    ensures outcome.Match? ==> x < |menu| && menu[x] == AsByte(key[s.i]) != '+'
    ensures outcome.Match? ==>
      p - s.nodeId + 1 < |nodes| && nodes[p - s.nodeId + 1].prefix == nodes[s.nodeId].prefix + [AsByte(key[s.i])]
    ensures outcome.BlockEnd? ==> x == |menu| && p == s.nodeId + cum[s.nodeId]
  {
    var k := s.nodeId;
    BlockBits(ds, keys, nodes, cum, k, p);
    SkippedLabels(ds, keys, nodes, cum, key[s.i], k, p);
    MenuOf(ds, keys, nodes, cum, k);
    menu, x := Menu(ds, cum, k), p - Start(cum, k);
    if outcome.Match? { MenuContinues(ds, keys, nodes, cum, k, p - k + 1); }
  }

  // What each outcome of a scan means for the query, where the stack is not needed.
  lemma ScanDecides(ds: DomainSet, keys: seq<string>, nodes: seq<Node>, cum: seq<nat>, key: string, s: Look,
                    outcome: Scan, p: nat)
    requires Encodes(ds, keys, nodes, cum) && s.i < |key| && Scanned(ds, cum, key, s, outcome, p)
    requires WithoutStack(keys, Bytes(key)) && OnPath(keys, nodes, cum, key, s.i, s.nodeId, s.bmIdx)
    ensures outcome.Plus? ==> Accepts(keys, Bytes(key))
    ensures outcome.BlockEnd? ==> !Accepts(keys, Bytes(key)) && StarFree(keys)
    ensures outcome.Match? ==>
      p - s.nodeId + 1 < |nodes| && Walked(keys, nodes, cum, Bytes(key), s.i + 1, p - s.nodeId + 1)
  {
    var q := Bytes(key);
    assert StarFree(keys) || AsByte(key[s.i]) != '*' by { assert q[s.i] in q; }
    var menu, x := ScanMenu(ds, keys, nodes, cum, key, s, outcome, p);
    MenuWalks(keys, nodes, cum, q, s.i, s.nodeId, menu, x, outcome, p - s.nodeId + 1);
  }

  lemma MenuWalks(keys: seq<string>, nodes: seq<Node>, cum: seq<nat>, q: string, i: nat, k: nat, menu: seq<char>,
                  x: nat, outcome: Scan, child: int)
    requires Walked(keys, nodes, cum, q, i, k) && i < |q| && k < |nodes| && (StarFree(keys) || BeginsKey(keys, q))
    requires IsMenu(keys, nodes[k].prefix, menu) && Skipped(menu, q[i], x)
    requires outcome.Plus? ==> x < |menu| && menu[x] == '+'
    requires outcome.Match? ==> x < |menu| && menu[x] == q[i] != '+'
    requires outcome.Match? ==> 0 <= child < |nodes| && nodes[child].prefix == nodes[k].prefix + [q[i]]
    requires outcome.BlockEnd? ==> x == |menu|
    ensures outcome.Plus? ==> Accepts(keys, q)
    ensures outcome.BlockEnd? ==> !Accepts(keys, q) && StarFree(keys)
    ensures outcome.Match? ==> Walked(keys, nodes, cum, q, i + 1, child)
  {
    MenuDecides(keys, q, i, menu, x, outcome);
    if outcome.Match? { WalkOn(keys, nodes, cum, q, i, k, child); }
  }

  lemma WalkOn(keys: seq<string>, nodes: seq<Node>, cum: seq<nat>, q: string, i: nat, k: nat, child: nat)
    requires Walked(keys, nodes, cum, q, i, k) && i < |q| && child < |nodes|
    requires !PlusAt(keys, q, i) && nodes[child].prefix == nodes[k].prefix + [q[i]]
    ensures Walked(keys, nodes, cum, q, i + 1, child)
  {
    assert q[..i + 1] == q[..i] + [q[i]];
  }

  lemma MenuDecides(keys: seq<string>, q: string, i: nat, menu: seq<char>, x: nat, outcome: Scan)
    requires i < |q| && IsMenu(keys, q[..i], menu) && Skipped(menu, q[i], x)
    requires outcome.Plus? ==> x < |menu| && menu[x] == '+'
    requires outcome.Match? ==> x < |menu| && menu[x] == q[i] != '+'
    requires outcome.BlockEnd? ==> x == |menu|
    requires forall x: nat :: x < i ==> !PlusAt(keys, q, x)
    ensures outcome.Plus? ==> Accepts(keys, q)
    ensures outcome.Match? ==> !PlusAt(keys, q, i) && q[..i + 1] == q[..i] + [q[i]]
    ensures outcome.BlockEnd? ==> !Accepts(keys, q) && !BeginsKey(keys, q)
  {
    match outcome {
      case Plus => PlusDecides(keys, q, i, menu, x);
      case Match => MatchDecides(keys, q, i, menu, x);
      case BlockEnd => EndDecides(keys, q, i, menu);
    }
  }

  // One round on the way: it gives the right verdict or stays on the way.
  lemma RoundOnPath(ds: DomainSet, keys: seq<string>, nodes: seq<Node>, cum: seq<nat>, key: string,
                    s: Look, outcome: Scan, p: nat, verdict: Option<bool>, t: Look)
    requires Encodes(ds, keys, nodes, cum) && s.i < |key|
    requires Scanned(ds, cum, key, s, outcome, p) && RoundIs(ds, keys, nodes, cum, key, s, outcome, p, verdict, t)
    requires WithoutStack(keys, Bytes(key)) && OnPath(keys, nodes, cum, key, s.i, s.nodeId, s.bmIdx)
    requires StarFree(keys) ==> s.stack == []
    ensures verdict.Some? ==> (verdict.value <==> Accepts(keys, Bytes(key)))
    ensures verdict.None? ==> OnPath(keys, nodes, cum, key, t.i, t.nodeId, t.bmIdx)
    ensures verdict.None? && StarFree(keys) ==> t.stack == []
  {
    ScanDecides(ds, keys, nodes, cum, key, s, outcome, p);
    if StarFree(keys) { NoStars(ds, keys, nodes, cum, s.nodeId, s.i, s.bmIdx, p); }
  }

  /** A query whose bytes are all at least `+` is accepted exactly when it is a key or a
      proper beginning of it followed by `+` begins a key. */
  lemma AcceptsPlainQuery(keys: seq<string>, q: string)
    requires forall i :: 0 <= i < |q| ==> q[i] >= '+'
    ensures Accepts(keys, q) <==> q in keys || exists i: nat :: i < |q| && BeginsKey(keys, q[..i] + ['+'])
  {
    if i: nat :| i < |q| && BeginsKey(keys, q[..i] + ['+']) {
      assert PlusAt(keys, q, i);
    }
  }

  // ---------------------------------------------------------------- stars that stand alone

  // Queries of bytes above `+`, on key lists whose `*` stand alone.
  ghost predicate OneWayQuery(keys: seq<string>, key: string) {
    StarsAlone(keys) && AbovePlus(key) && Bytes(key) == key
  }

  // The state follows the query through the tree; or it is at the end of a block, and no
  // key stands for the query.
  ghost predicate Follows(ds: DomainSet, keys: seq<string>, nodes: seq<Node>, cum: seq<nat>, key: string, s: Look) {
    && s.stack == [] && s.nodeId < |nodes| == |cum| && InBlock(cum, s.nodeId, s.bmIdx)
    && ( (s.bmIdx == Start(cum, s.nodeId) && Tracks(keys, key, nodes[s.nodeId].prefix, s.i))
      || (s.bmIdx == s.nodeId + cum[s.nodeId] && s.i < |key| && !GlobAccepts(keys, key)))
  }

  // Once the dot after a `*` is looked for beyond the node's own labels the state may be
  // anywhere, but no key stands for the query then.
  ghost predicate FollowsOrLost(ds: DomainSet, keys: seq<string>, nodes: seq<Node>, cum: seq<nat>, key: string,
                                s: Look) {
    Follows(ds, keys, nodes, cum, key, s) || (!GlobAccepts(keys, key) && !StarsGoOn(keys, key))
  }

  // A verdict that misses nothing, and is exact if keys go on after every `*` that the query
  // runs past.
  ghost predicate RightFor(keys: seq<string>, key: string, r: bool) {
    (GlobAccepts(keys, key) ==> r) && (StarsGoOn(keys, key) && r ==> GlobAccepts(keys, key))
  }

  lemma {:induction false} StarsNone(ds: DomainSet, nodeId: nat, i: nat, a: nat, b: nat)
    requires forall r :: a <= r < b ==> !IsStar(ds, nodeId, r)
    ensures Stars(ds, nodeId, i, a, b) == []
  {
    if b > a { StarsNone(ds, nodeId, i, a, b - 1); }
  }

  // The labels read in a block are those of the menu.
  lemma MenuStars(ds: DomainSet, keys: seq<string>, nodes: seq<Node>, cum: seq<nat>, k: nat, p: nat, i: nat)
    requires Encodes(ds, keys, nodes, cum) && k < |nodes| && InBlock(cum, k, p)
    ensures First(cum, k) <= cum[k] + 1 <= |ds.labels| + 1
    ensures '*' !in Menu(ds, cum, k) ==> Stars(ds, k, i, Start(cum, k), p) == []
    ensures Menu(ds, cum, k) == ['*'] && p == k + cum[k] ==>
      Stars(ds, k, i, Start(cum, k), p) == [Cursor(Start(cum, k), i)]
  {
    MenuBounds(ds, keys, nodes, cum, k);
    var menu, at := Menu(ds, cum, k), Start(cum, k);
    if '*' !in menu {
      forall r | at <= r < p ensures !IsStar(ds, k, r) {
        assert menu[r - at] == ds.labels[r - k] && menu[r - at] in menu;
      }
      StarsNone(ds, k, i, at, p);
    } else if menu == ['*'] && p == k + cum[k] {
      assert p == at + 1 && ds.labels[at - k] == menu[0];
      assert Stars(ds, k, i, at, at) == [];
    }
  }

  // A menu in which only one character may occur.
  lemma OnlyChoice(menu: seq<char>, c: char)
    requires forall i, j :: 0 <= i < j < |menu| ==> menu[i] < menu[j]
    requires c in menu && forall d :: d in menu ==> d == c
    ensures menu == [c]
  {
    assert |menu| > 1 ==> menu[0] < menu[1];
    forall i | 0 <= i < |menu| ensures menu[i] == c { assert menu[i] in menu; }
  }

  lemma LeadsToOne(ds: DomainSet, keys: seq<string>, nodes: seq<Node>, cum: seq<nat>, k: nat, p: nat, child: nat)
    requires Encodes(ds, keys, nodes, cum) && InBlock(cum, k, p) && LeadsTo(cum, p, child)
    ensures child == p - k + 1
  {
    var j: nat :| InBlock(cum, j, p) && p < j + cum[j] && child == p - j + 1;
    SameBlock(ds, keys, nodes, cum, k, j, p);
  }

  // A node whose only continuation is a dot: the first dot from its block on is its own.
  lemma OwnDot(ds: DomainSet, keys: seq<string>, nodes: seq<Node>, cum: seq<nat>, k: nat)
    requires Encodes(ds, keys, nodes, cum) && k < |nodes| && BeginsKey(keys, nodes[k].prefix + ['.'])
    requires forall c :: BeginsKey(keys, nodes[k].prefix + [c]) ==> c == '.'
    ensures FirstDot(ds, cum, k, Start(cum, k)) && InBlock(cum, k, Start(cum, k))
  {
    MenuOf(ds, keys, nodes, cum, k);
    var menu := Menu(ds, cum, k);
    OnlyChoice(menu, '.');
    assert ds.labels[First(cum, k) - 1] == menu[0];
  }

  // The cursor left by a `*` that stands alone, and the node it leads to.
  lemma StarNode(ds: DomainSet, keys: seq<string>, nodes: seq<Node>, cum: seq<nat>, k: nat, p: nat, i: nat)
    returns (child: nat)
    requires Encodes(ds, keys, nodes, cum) && k < |nodes| && StarsAlone(keys)
    requires BeginsKey(keys, nodes[k].prefix + ['*']) && !BeginsKey(keys, nodes[k].prefix + ['+']) &&
      p == k + cum[k] && InBlock(cum, k, p)
    ensures Stars(ds, k, i, Start(cum, k), p) == [Cursor(Start(cum, k), i)] && InBlock(cum, k, Start(cum, k))
    ensures child < |nodes| && nodes[child].prefix == nodes[k].prefix + ['*'] && child == Start(cum, k) - k + 1
    ensures nodes[child].s < |keys| && (IsLeaf(keys, nodes[child]) <==> nodes[child].prefix in keys)
    ensures BeginsKey(keys, nodes[child].prefix + ['.']) ==>
      FirstDot(ds, cum, child, Start(cum, child)) && InBlock(cum, child, Start(cum, child))
  {
    assert StarAlone(keys, nodes[k].prefix);
    MenuOf(ds, keys, nodes, cum, k);
    OnlyChoice(Menu(ds, cum, k), '*');
    MenuStars(ds, keys, nodes, cum, k, p, i);
    child := First(cum, k);
    assert Menu(ds, cum, k)[0] == ds.labels[child - 1];
    MenuContinues(ds, keys, nodes, cum, k, child);
    assert NodeOk(keys, nodes[child]);
    LeafIsKey(keys, nodes[child]);
    if BeginsKey(keys, nodes[child].prefix + ['.']) { OwnDot(ds, keys, nodes, cum, child); }
  }

  // What the scan shows about the continuations of the node.
  lemma ScanShows(ds: DomainSet, keys: seq<string>, nodes: seq<Node>, cum: seq<nat>, key: string, s: Look,
                  outcome: Scan, p: nat)
    requires Encodes(ds, keys, nodes, cum) && s.i < |key| && Scanned(ds, cum, key, s, outcome, p)
    requires AbovePlus(key) && Bytes(key) == key && s.nodeId < |nodes| && InBlock(cum, s.nodeId, s.bmIdx) &&
      s.bmIdx == Start(cum, s.nodeId)
    ensures var prefix, c := nodes[s.nodeId].prefix, key[s.i];
      && (outcome.Plus? <==> BeginsKey(keys, prefix + ['+']))
      && (outcome.Match? ==>
            && BeginsKey(keys, prefix + [c])
            && p - s.nodeId + 1 < |nodes| && nodes[p - s.nodeId + 1].prefix == prefix + [c])
      && (outcome.BlockEnd? ==> !BeginsKey(keys, prefix + [c]) && p == s.nodeId + cum[s.nodeId])
  {
    assert Bytes(key)[s.i] == key[s.i];
    var menu, x := ScanMenu(ds, keys, nodes, cum, key, s, outcome, p);
    MenuShows(menu, key[s.i], x);
  }

  lemma MenuShows(menu: seq<char>, c: char, x: nat)
    requires (forall i, j :: 0 <= i < j < |menu| ==> menu[i] < menu[j]) && '+' < c && Skipped(menu, c, x)
    ensures x < |menu| && menu[x] == '+' ==> '+' in menu
    ensures x < |menu| && menu[x] == c ==> '+' !in menu && c in menu
    ensures x == |menu| ==> '+' !in menu && c !in menu
  {
    if x < |menu| && menu[x] == c {
      forall y | 0 <= y < |menu| ensures menu[y] != '+' {}
    }
  }

  // One round where stars stand alone: the right verdict, or the state still follows.
  lemma RoundFollows(ds: DomainSet, keys: seq<string>, nodes: seq<Node>, cum: seq<nat>, key: string,
                     s: Look, outcome: Scan, p: nat, verdict: Option<bool>, t: Look)
    requires Encodes(ds, keys, nodes, cum) && s.i < |key|
    requires Scanned(ds, cum, key, s, outcome, p) && RoundIs(ds, keys, nodes, cum, key, s, outcome, p, verdict, t)
    requires OneWayQuery(keys, key) && Follows(ds, keys, nodes, cum, key, s)
    ensures verdict.Some? ==> RightFor(keys, key, verdict.value)
    ensures verdict.None? ==> FollowsOrLost(ds, keys, nodes, cum, key, t)
  {
    var k, prefix, c := s.nodeId, nodes[s.nodeId].prefix, key[s.i];
    if s.bmIdx == Start(cum, k) && Tracks(keys, key, prefix, s.i) {
      ScanShows(ds, keys, nodes, cum, key, s, outcome, p);
      assert StarAlone(keys, prefix);
      match outcome {
        case Plus => assert PlusAfter(keys, key, prefix);
        case Match =>
          NoStarHere(ds, keys, nodes, cum, k, p, s.i);
          TrackNext(keys, key, prefix, s.i, c);
        case BlockEnd =>
          if BeginsKey(keys, prefix + ['*']) {
            StarRound(ds, keys, nodes, cum, key, s, p, verdict, t);
          } else {
            NoStarHere(ds, keys, nodes, cum, k, p, s.i);
            AtDeadEnd(keys, key, prefix, s.i);
          }
      }
    } else {
      BlockBits(ds, keys, nodes, cum, k, p);
      assert p == s.bmIdx && Stars(ds, k, s.i, p, p) == [];
    }
  }

  lemma NoStarHere(ds: DomainSet, keys: seq<string>, nodes: seq<Node>, cum: seq<nat>, k: nat, p: nat, i: nat)
    requires Encodes(ds, keys, nodes, cum) && k < |nodes| && InBlock(cum, k, p) &&
      !BeginsKey(keys, nodes[k].prefix + ['*'])
    ensures Stars(ds, k, i, Start(cum, k), p) == []
  {
    MenuOf(ds, keys, nodes, cum, k);
    MenuStars(ds, keys, nodes, cum, k, p, i);
  }

  // The block held nothing but a `*`: back to it, over the rest of the label.
  lemma StarRound(ds: DomainSet, keys: seq<string>, nodes: seq<Node>, cum: seq<nat>, key: string, s: Look, p: nat,
                  verdict: Option<bool>, t: Look)
    requires Encodes(ds, keys, nodes, cum) && s.i < |key| && OneWayQuery(keys, key)
    requires RoundIs(ds, keys, nodes, cum, key, s, BlockEnd, p, verdict, t)
    requires s.stack == [] && s.nodeId < |nodes| && s.bmIdx == Start(cum, s.nodeId) && InBlock(cum, s.nodeId, p) &&
      p == s.nodeId + cum[s.nodeId]
    requires Tracks(keys, key, nodes[s.nodeId].prefix, s.i)
    requires BeginsKey(keys, nodes[s.nodeId].prefix + ['*']) && !BeginsKey(keys, nodes[s.nodeId].prefix + ['+'])
    ensures verdict.Some? ==> RightFor(keys, key, verdict.value)
    ensures verdict.None? ==> FollowsOrLost(ds, keys, nodes, cum, key, t)
  {
    var k := s.nodeId;
    var child := StarNode(ds, keys, nodes, cum, k, p, s.i);
    var c := Cursor(Start(cum, k), s.i);
    forall n | LeadsTo(cum, c.bmIdx, n) ensures n == child { LeadsToOne(ds, keys, nodes, cum, k, c.bmIdx, n); }
    assert s.stack + Stars(ds, k, s.i, s.bmIdx, p) == [c];
    StarLands(ds, keys, nodes, cum, key, s, p, verdict, t, c, child);
  }

  lemma StarLands(ds: DomainSet, keys: seq<string>, nodes: seq<Node>, cum: seq<nat>, key: string, s: Look, p: nat,
                  verdict: Option<bool>, t: Look, c: Cursor, child: nat)
    requires |nodes| == |cum| && OneWayQuery(keys, key) &&
      RoundIs(ds, keys, nodes, cum, key, s, BlockEnd, p, verdict, t)
    requires s.i == c.index < |key| && s.stack + Stars(ds, s.nodeId, s.i, s.bmIdx, p) == [c]
    requires s.nodeId < |nodes| && InBlock(cum, s.nodeId, p) && p == s.nodeId + cum[s.nodeId]
    requires var prefix := nodes[s.nodeId].prefix;
      Tracks(keys, key, prefix, s.i) && BeginsKey(keys, prefix + ['*']) && !BeginsKey(keys, prefix + ['+']) &&
      child < |nodes| && nodes[child].prefix == prefix + ['*'] && nodes[child].s < |keys| &&
        (IsLeaf(keys, nodes[child]) <==> prefix + ['*'] in keys)
    requires BeginsKey(keys, nodes[child].prefix + ['.']) ==>
      FirstDot(ds, cum, child, Start(cum, child)) && InBlock(cum, child, Start(cum, child))
    requires forall n :: LeadsTo(cum, c.bmIdx, n) ==> n == child
    ensures verdict.Some? ==> RightFor(keys, key, verdict.value)
    ensures verdict.None? ==> FollowsOrLost(ds, keys, nodes, cum, key, t)
  {
    var back, nodeId, bmIdx, i := RoundGoesBack(ds, keys, nodes, cum, key, s, p, verdict, t, [], c);
    assert nodeId == child;
    BackToStar(ds, keys, nodes, cum, key, nodes[s.nodeId].prefix, c, child, back, bmIdx, i);
  }

  // From a `*` that stands alone the walk goes on at the next dot, if keys go on there.
  lemma BackToStar(ds: DomainSet, keys: seq<string>, nodes: seq<Node>, cum: seq<nat>, key: string, prefix: string,
                   c: Cursor, child: nat, back: Back, bmIdx: nat, i: nat)
    requires |nodes| == |cum| && OneWayQuery(keys, key) && c.index < |key| && Tracks(keys, key, prefix, c.index)
    requires BeginsKey(keys, prefix + ['*']) && !BeginsKey(keys, prefix + ['+'])
    requires child < |nodes| && nodes[child].s < |keys| && (IsLeaf(keys, nodes[child]) <==> prefix + ['*'] in keys)
    requires BeginsKey(keys, prefix + ['*'] + ['.']) ==> FirstDot(ds, cum, child, Start(cum, child))
    requires GoesBack(ds, keys, nodes, cum, key, c, back, child, bmIdx, i)
    ensures back.Found? ==> GlobAccepts(keys, key)
    ensures back.Again? ==> !GlobAccepts(keys, key)
    ensures back.Jump? && BeginsKey(keys, prefix + ['*'] + ['.']) ==>
      bmIdx == Start(cum, child) && Tracks(keys, key, prefix + ['*'], i)
    ensures back.Exhausted? ==> !BeginsKey(keys, prefix + ['*'] + ['.'])
    ensures i < |key| && !BeginsKey(keys, prefix + ['*'] + ['.']) ==>
      !GlobAccepts(keys, key) && !StarsGoOn(keys, key)
  {
    TrackNext(keys, key, prefix, c.index, '*');
    assert StarAlone(keys, prefix);
    if i == |key| {
      AtEnd(keys, key, prefix + ['*']);
    } else if BeginsKey(keys, prefix + ['*'] + ['.']) {
      DotIsFirst(ds, cum, child, Start(cum, child), bmIdx, back);
    } else {
      AtDeadEnd(keys, key, prefix + ['*'], i);
      assert RunsPast(keys, key, prefix);
    }
  }

  // The witnesses of a round that goes back to the last cursor of its stack.
  lemma RoundGoesBack(ds: DomainSet, keys: seq<string>, nodes: seq<Node>, cum: seq<nat>, key: string,
                      s: Look, p: nat, verdict: Option<bool>, t: Look, rest: seq<Cursor>, c: Cursor)
    returns (back: Back, nodeId: nat, bmIdx: nat, i: nat)
    requires |nodes| == |cum| && RoundIs(ds, keys, nodes, cum, key, s, BlockEnd, p, verdict, t)
    requires s.stack + Stars(ds, s.nodeId, s.i, s.bmIdx, p) == rest + [c]
    ensures c.index <= |key| && GoesBack(ds, keys, nodes, cum, key, c, back, nodeId, bmIdx, i)
    ensures match back
      case Found => verdict == Some(true)
      case Exhausted => verdict == Some(false)
      case Again => verdict.None? && t == Look(s.i, s.nodeId, p, rest)
      case Jump => verdict.None? && t == Look(i, nodeId, bmIdx, rest)
  {
    var stack := s.stack + Stars(ds, s.nodeId, s.i, s.bmIdx, p);
    assert stack[|stack| - 1] == c && stack[..|stack| - 1] == rest;
    back, nodeId, bmIdx, i :| c.index <= |key| && GoesBack(ds, keys, nodes, cum, key, c, back, nodeId, bmIdx, i)
      && match back {
        case Found => verdict == Some(true)
        case Exhausted => verdict == Some(false)
        case Again => verdict.None? && t == Look(s.i, s.nodeId, p, rest)
        case Jump => verdict.None? && t == Look(i, nodeId, bmIdx, rest)
      };
  }

  lemma DotIsFirst(ds: DomainSet, cum: seq<nat>, child: nat, at: nat, bmIdx: nat, back: Back)
    requires child < |cum| && FirstDot(ds, cum, child, at) && !back.Found? && !back.Again?
    requires back.Jump? ==> FirstDot(ds, cum, child, bmIdx)
    requires back.Exhausted? ==> forall p :: !FirstDot(ds, cum, child, p)
    ensures back.Jump? && bmIdx == at
  {
  }

  // ---------------------------------------------------------------- has

  // The loop of `has` ends with r after n rounds from this state.
  ghost predicate Decides(ds: DomainSet, keys: seq<string>, nodes: seq<Node>, cum: seq<nat>, key: string, s: Look,
                          n: nat, r: bool)
    requires cum != [] && |nodes| == |cum|
    decreases n
  {
    if s.i >= |key| then s.nodeId < |nodes| && nodes[s.nodeId].s < |keys| && (r <==> IsLeaf(keys, nodes[s.nodeId]))
    else n > 0 && exists outcome, p, verdict, t ::
      && OneRound(ds, keys, nodes, cum, key, s, outcome, p, verdict, t)
      && if verdict.Some? then r == verdict.value else Decides(ds, keys, nodes, cum, key, t, n - 1, r)
  }

  ghost predicate OneRound(ds: DomainSet, keys: seq<string>, nodes: seq<Node>, cum: seq<nat>, key: string,
                           s: Look, outcome: Scan, p: nat, verdict: Option<bool>, t: Look)
    requires cum != [] && |nodes| == |cum| && s.i < |key|
  {
    Scanned(ds, cum, key, s, outcome, p) && RoundIs(ds, keys, nodes, cum, key, s, outcome, p, verdict, t)
  }

  // The rounds that the set makes from its root on this key end with r.
  ghost predicate Answers(ds: DomainSet, keys: seq<string>, key: string, r: bool) {
    exists nodes, cum, n: nat :: Encodes(ds, keys, nodes, cum) &&
      Decides(ds, keys, nodes, cum, key, Look(0, 0, 0, []), n, r)
  }

  // The rounds made so far lead from the root to this state.
  ghost predicate Came(ds: DomainSet, keys: seq<string>, nodes: seq<Node>, cum: seq<nat>, key: string, s: Look,
                       rounds: nat)
    requires cum != [] && |nodes| == |cum|
  {
    forall n: nat, r :: Decides(ds, keys, nodes, cum, key, s, n, r) ==>
      Decides(ds, keys, nodes, cum, key, Look(0, 0, 0, []), rounds + n, r)
  }

  lemma CameFurther(ds: DomainSet, keys: seq<string>, nodes: seq<Node>, cum: seq<nat>, key: string, s: Look,
                    rounds: nat, outcome: Scan, p: nat, verdict: Option<bool>, t: Look)
    requires cum != [] && |nodes| == |cum| && s.i < |key| && Came(ds, keys, nodes, cum, key, s, rounds)
    requires OneRound(ds, keys, nodes, cum, key, s, outcome, p, verdict, t)
    ensures verdict.None? ==> Came(ds, keys, nodes, cum, key, t, rounds + 1)
    ensures verdict.Some? ==> Decides(ds, keys, nodes, cum, key, Look(0, 0, 0, []), rounds + 1, verdict.value)
  {
    if verdict.None? {
      forall n: nat, r | Decides(ds, keys, nodes, cum, key, t, n, r)
        ensures Decides(ds, keys, nodes, cum, key, Look(0, 0, 0, []), rounds + 1 + n, r)
      {
        assert Decides(ds, keys, nodes, cum, key, s, n + 1, r);
      }
    } else {
      assert Decides(ds, keys, nodes, cum, key, s, 1, verdict.value);
    }
  }

  /** `has`.  It ends and stays in range for every key list.  Without `*` in the keys, or
      when the query begins a key, it accepts exactly `Accepts`.  Where stars stand alone,
      it misses nothing that the keys stand for, for queries of bytes above `+`, and is
      exact if keys go on after every `*` that the query runs past. */
  method Has(ds: DomainSet, query: string, ghost keys: seq<string>) returns (r: bool)
    requires Represents(ds, keys)
    ensures Answers(ds, keys, Lower(Reverse(query)), r)
    ensures var q := Bytes(Lower(Reverse(query)));
      WithoutStack(keys, q) ==> (r <==> Accepts(keys, q))
    ensures var key := Lower(Reverse(query));
      OneWayQuery(keys, key) ==> RightFor(keys, key, r)
  {
    ghost var nodes, cum :| Encodes(ds, keys, nodes, cum);
    var key := Lower(Reverse(query));
    var s := Look(0, 0, 0, []);
    RootState(ds, keys, nodes, cum, key);
    ghost var rounds: nat := 0;
    while s.i < |key|
      invariant Sane(ds, cum, key, s) && Came(ds, keys, nodes, cum, key, s, rounds)
      invariant StarFree(keys) ==> s.stack == []
      invariant WithoutStack(keys, Bytes(key)) ==> OnPath(keys, nodes, cum, key, s.i, s.nodeId, s.bmIdx)
      invariant OneWayQuery(keys, key) ==> FollowsOrLost(ds, keys, nodes, cum, key, s)
      decreases Potential(64 * |ds.labelBitMap|, s.bmIdx, s.stack)
    {
      var verdict, t, outcome, p := Round(ds, key, s, keys, nodes, cum);
      if WithoutStack(keys, Bytes(key)) { RoundOnPath(ds, keys, nodes, cum, key, s, outcome, p, verdict, t); }
      if OneWayQuery(keys, key) && Follows(ds, keys, nodes, cum, key, s) {
        RoundFollows(ds, keys, nodes, cum, key, s, outcome, p, verdict, t);
      }
      CameFurther(ds, keys, nodes, cum, key, s, rounds, outcome, p, verdict, t);
      if verdict.Some? { return verdict.value; }
      s, rounds := t, rounds + 1;
    }
    r := AtLeaf(ds, s.nodeId, keys, nodes, cum);
    assert Decides(ds, keys, nodes, cum, key, s, 0, r);
    if WithoutStack(keys, Bytes(key)) { LeafDecides(keys, nodes, cum, Bytes(key), s.nodeId); }
    if OneWayQuery(keys, key) && Follows(ds, keys, nodes, cum, key, s) { LeafIsMatch(keys, nodes, key, s.nodeId); }
  }

  lemma RootState(ds: DomainSet, keys: seq<string>, nodes: seq<Node>, cum: seq<nat>, key: string)
    requires Encodes(ds, keys, nodes, cum)
    ensures InBlock(cum, 0, 0) && OnPath(keys, nodes, cum, key, 0, 0, 0)
    ensures Follows(ds, keys, nodes, cum, key, Look(0, 0, 0, []))
  {
    assert Family(keys, nodes, cum, 0);
    assert NodeOk(keys, nodes[0]);
    assert "" <= keys[0];
  }

  lemma LeafIsMatch(keys: seq<string>, nodes: seq<Node>, key: string, k: nat)
    requires StrictlySorted(keys) && NodesOk(keys, nodes) && k < |nodes| && OneWayQuery(keys, key)
    requires Tracks(keys, key, nodes[k].prefix, |key|)
    ensures nodes[k].s < |keys| && (IsLeaf(keys, nodes[k]) <==> GlobAccepts(keys, key))
  {
    assert NodeOk(keys, nodes[k]);
    LeafIsKey(keys, nodes[k]);
    AtEnd(keys, key, nodes[k].prefix);
  }
}
