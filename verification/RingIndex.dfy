/** Positions in a ring, and the monotone counters they stand for. */
module RingIndex {

  // The ring position of a running count of bytes.
  function Pos(n: nat, cap: nat): (p: nat)
    requires cap > 0
    ensures p < cap
  {
    if n < cap then n else Pos(n - cap, cap)
  }

  lemma WrapOnce(x: nat, cap: nat)
    requires cap > 0 && x < 2 * cap
    ensures x % cap == if x < cap then x else x - cap
  {
    if x >= cap { assert x == cap * 1 + (x - cap); }
  }

  lemma {:induction false} PosAdd(n: nat, k: nat, cap: nat)
    requires cap > 0 && k <= cap
    ensures Pos(n + k, cap) == if Pos(n, cap) + k < cap then Pos(n, cap) + k else Pos(n, cap) + k - cap
  {
    if n >= cap { PosAdd(n - cap, k, cap); }
  }

  // Counts less than a whole ring apart have different positions.
  lemma PosDiffer(a: nat, b: nat, cap: nat)
    requires cap > 0 && a < b < a + cap
    ensures Pos(a, cap) != Pos(b, cap)
  {
    PosAdd(a, b - a, cap);
  }

  // How the source measures the distance between two positions.
  function Distance(from: nat, to: nat, cap: nat): int {
    if from <= to then to - from else cap - from + to
  }

  lemma PosDistance(a: nat, b: nat, cap: nat)
    requires cap > 0 && a <= b < a + cap
    ensures Distance(Pos(a, cap), Pos(b, cap), cap) == b - a
  {
    PosAdd(a, b - a, cap);
  }

  function Min(a: nat, b: nat): nat {
    if a <= b then a else b
  }

  // `(pos + n) % capacity`
  function Advance(pos: nat, n: nat, cap: nat): (p: nat)
    requires pos < cap && n <= cap
    ensures p == if pos + n < cap then pos + n else pos + n - cap
  {
    WrapOnce(pos + n, cap);
    (pos + n) % cap
  }

  // ---------------------------------------------------------------- ring contents

  // The ring holds the items from count `taken` on.
  ghost predicate Holds<T>(ring: seq<T>, items: seq<T>, taken: nat)
    requires |ring| > 0
  {
    forall k {:trigger items[k]} :: taken <= k < |items| ==> ring[Pos(k, |ring|)] == items[k]
  }

  // What slot i holds after a run of items was written from a position on, wrapping around.
  function Slot<T>(ring: seq<T>, at: nat, run: seq<T>, i: nat): T
    requires i < |ring| && at < |ring| && |run| <= |ring|
  {
    if at <= i < at + |run| then run[i - at]
    else if i + |ring| < at + |run| then run[i + |ring| - at]
    else ring[i]
  }

  function Written<T>(ring: seq<T>, at: nat, run: seq<T>): (r: seq<T>)
    requires at < |ring| && |run| <= |ring|
    ensures |r| == |ring| && forall i :: 0 <= i < |ring| ==> r[i] == Slot(ring, at, run, i)
  {
    seq(|ring|, i requires 0 <= i < |ring| => Slot(ring, at, run, i))
  }

  // The n items read from a position on, wrapping around.
  function ReadOut<T>(ring: seq<T>, at: nat, n: nat): (r: seq<T>)
    requires at < |ring| && n <= |ring|
    ensures |r| == n && forall k :: 0 <= k < n ==> r[k] == ring[Advance(at, k, |ring|)]
  {
    seq(n, k requires 0 <= k < n => ring[Advance(at, k, |ring|)])
  }

  // A held item is not in the slots that the next n items go to.
  lemma KeptSlot<T>(ring: seq<T>, run: seq<T>, k: nat, w: nat)
    requires |ring| > 0 && k < w && w + |run| < k + |ring|
    ensures Slot(ring, Pos(w, |ring|), run, Pos(k, |ring|)) == ring[Pos(k, |ring|)]
  {
    PosAdd(k, w - k, |ring|);
  }

  lemma NewSlot<T>(ring: seq<T>, run: seq<T>, w: nat, j: nat)
    requires j < |run| <= |ring|
    ensures Slot(ring, Pos(w, |ring|), run, Pos(w + j, |ring|)) == run[j]
  {
    PosAdd(w, j, |ring|);
  }

  /** Writing where the items end keeps what the ring holds and adds the run, as long as
      the total stays below a whole ring. */
  lemma WrittenHolds<T>(ring: seq<T>, items: seq<T>, taken: nat, run: seq<T>)
    requires |ring| > 0 && Holds(ring, items, taken) && taken <= |items| && |items| + |run| < taken + |ring|
    ensures Holds(Written(ring, Pos(|items|, |ring|), run), items + run, taken)
  {
    var ring', items' := Written(ring, Pos(|items|, |ring|), run), items + run;
    forall k | taken <= k < |items'| ensures ring'[Pos(k, |ring'|)] == items'[k] {
      WrittenAt(ring, items, taken, run, k);
    }
  }

  lemma WrittenAt<T>(ring: seq<T>, items: seq<T>, taken: nat, run: seq<T>, k: nat)
    requires |ring| > 0 && Holds(ring, items, taken) && taken <= |items| && |items| + |run| < taken + |ring|
    requires taken <= k < |items| + |run|
    ensures Written(ring, Pos(|items|, |ring|), run)[Pos(k, |ring|)] == (items + run)[k]
  {
    if k < |items| {
      KeptSlot(ring, run, k, |items|);
    } else {
      NewSlot(ring, run, |items|, k - |items|);
    }
  }

  lemma ReadOutIs<T>(ring: seq<T>, items: seq<T>, taken: nat, n: nat)
    requires |ring| > 0 && Holds(ring, items, taken) && taken + n <= |items| && n <= |ring|
    ensures ReadOut(ring, Pos(taken, |ring|), n) == items[taken..taken + n]
  {
    forall k | 0 <= k < n ensures ReadOut(ring, Pos(taken, |ring|), n)[k] == items[taken + k] {
      PosAdd(taken, k, |ring|);
    }
  }
}
