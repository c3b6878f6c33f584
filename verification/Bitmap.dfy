/** Bit vectors packed in 64-bit words, with the rank and select tables of
    clash-lib/src/common/succinct_set.rs.

    A word is a natural number below 2^64.  The word operators of the source are
    defined on halves, so that `And`, `Or` and `Shr` are the usual bitwise ones. */
module Bitmap {

  type Word = w: nat | w < 0x1_0000_0000_0000_0000

  /** The table entries are 32-bit signed integers. */
  type Int32 = x: int | -0x8000_0000 <= x < 0x8000_0000

  const MaxBits: nat := 0x8000_0000

  // ---------------------------------------------------------------- words

  function Pow2(k: nat): (p: nat)
    ensures p >= 1
  {
    if k == 0 then 1 else 2 * Pow2(k - 1)
  }

  function And(a: nat, b: nat): nat {
    if a == 0 || b == 0 then 0
    else (if a % 2 == 1 && b % 2 == 1 then 1 else 0) + 2 * And(a / 2, b / 2)
  }

  function Or(a: nat, b: nat): nat
    decreases a + b
  {
    if a == 0 then b
    else if b == 0 then a
    else (if a % 2 == 1 || b % 2 == 1 then 1 else 0) + 2 * Or(a / 2, b / 2)
  }

  function Shr(w: nat, k: nat): nat {
    if k == 0 then w else Shr(w / 2, k - 1)
  }

  /** `count_ones` */
  function Popcount(w: nat): nat {
    if w == 0 then 0 else w % 2 + Popcount(w / 2)
  }

  /** `trailing_zeros`, which is 64 on zero. */
  function TrailingZeros(w: nat): nat {
    if w == 0 then 64 else if w % 2 == 1 then 0 else 1 + TrailingZeros(w / 2)
  }

  // The bit a shift by k brings to the front.
  predicate Bit(w: nat, k: nat) {
    Shr(w, k) % 2 == 1
  }

  function ToNat(b: bool): nat {
    if b then 1 else 0
  }

  // How many of the k lowest bits are set.
  function Below(w: nat, k: nat): nat {
    if k == 0 then 0 else Below(w, k - 1) + ToNat(Bit(w, k - 1))
  }

  lemma {:induction false} AndPow2(w: nat, k: nat)
    ensures And(w, Pow2(k)) != 0 <==> Bit(w, k)
  {
    if w == 0 {
      ShrZero(k);
    } else if k == 0 {
      assert And(w / 2, 0) == 0;
    } else {
      AndPow2(w / 2, k - 1);
      assert Pow2(k) / 2 == Pow2(k - 1) && Pow2(k) % 2 == 0;
    }
  }

  lemma {:induction false} ShrZero(k: nat)
    ensures Shr(0, k) == 0
  {
    if k > 0 { ShrZero(k - 1); }
  }

  lemma {:induction false} OrPow2(w: nat, k: nat, j: nat)
    ensures Bit(Or(w, Pow2(k)), j) <==> Bit(w, j) || j == k
  {
    var p := Pow2(k);
    if w == 0 {
      Pow2Bit(k, j);
      ShrZero(j);
    } else {
      if k > 0 { assert p / 2 == Pow2(k - 1) && p % 2 == 0; }
      var r := Or(w, p);
      assert r / 2 == Or(w / 2, p / 2);
      if j > 0 {
        if k > 0 {
          OrPow2(w / 2, k - 1, j - 1);
        } else {
          assert r / 2 == w / 2;
        }
      }
    }
  }

  lemma {:induction false} Pow2Bit(k: nat, j: nat)
    ensures Bit(Pow2(k), j) <==> j == k
  {
    if k == 0 {
      if j > 0 { ShrZero(j - 1); }
    } else if j > 0 {
      assert Pow2(k) / 2 == Pow2(k - 1);
      Pow2Bit(k - 1, j - 1);
    }
  }

  lemma {:induction false} OrBound(w: nat, k: nat, n: nat)
    requires k < n && w < Pow2(n)
    ensures Or(w, Pow2(k)) < Pow2(n)
  {
    var p := Pow2(k);
    if w == 0 {
      Pow2Less(k, n);
    } else if k == 0 {
      assert Or(w / 2, 0) == w / 2;
    } else {
      assert p / 2 == Pow2(k - 1) && p % 2 == 0;
      OrBound(w / 2, k - 1, n - 1);
    }
  }

  lemma {:induction false} Pow2Less(k: nat, n: nat)
    requires k < n
    ensures Pow2(k) < Pow2(n)
  {
    if k + 1 < n { Pow2Less(k, n - 1); }
  }

  lemma {:induction false} Pow2Monotone(i: nat, j: nat)
    requires i <= j
    ensures Pow2(i) <= Pow2(j)
  {
    if i < j { Pow2Monotone(i, j - 1); }
  }

  lemma Pow2At64()
    ensures Pow2(64) == 0x1_0000_0000_0000_0000
  {
    assert Pow2(8) == 256;
    assert Pow2(16) == 65536;
    assert Pow2(24) == 0x100_0000;
    assert Pow2(32) == 0x1_0000_0000;
    assert Pow2(40) == 0x100_0000_0000;
    assert Pow2(48) == 0x1_0000_0000_0000;
    assert Pow2(56) == 0x100_0000_0000_0000;
  }

  // The k lowest bits, one bit off the bottom instead of off the top.
  lemma {:induction false} BelowHalf(w: nat, k: nat)
    requires k > 0
    ensures Below(w, k) == w % 2 + Below(w / 2, k - 1)
  {
    if k > 1 { BelowHalf(w, k - 1); }
  }

  lemma {:induction false} MaskedPopcount(w: nat, k: nat)
    ensures Popcount(And(w, Pow2(k) - 1)) == Below(w, k)
  {
    if w == 0 {
      BelowZero(k);
    } else if k > 0 {
      var m := Pow2(k) - 1;
      assert m / 2 == Pow2(k - 1) - 1 && m % 2 == 1;
      var r := And(w, m);
      assert r % 2 == w % 2 && r / 2 == And(w / 2, m / 2);
      MaskedPopcount(w / 2, k - 1);
      BelowHalf(w, k);
    }
  }

  lemma {:induction false} BelowZero(k: nat)
    ensures Below(0, k) == 0
  {
    if k > 0 {
      BelowZero(k - 1);
      ShrZero(k - 1);
    }
  }

  lemma {:induction false} FullPopcount(w: nat, k: nat)
    requires w < Pow2(k)
    ensures Popcount(w) == Below(w, k)
  {
    if w == 0 {
      BelowZero(k);
    } else {
      FullPopcount(w / 2, k - 1);
      BelowHalf(w, k);
    }
  }

  lemma {:induction false} ShrAdd(w: nat, j: nat, k: nat)
    ensures Shr(w, j + k) == Shr(Shr(w, j), k)
  {
    if j > 0 { ShrAdd(w / 2, j - 1, k); }
  }

  lemma {:induction false} ShrVanishes(w: nat, k: nat)
    requires w < Pow2(k)
    ensures Shr(w, k) == 0
  {
    if k > 0 { ShrVanishes(w / 2, k - 1); }
  }

  // Shifting out the trailing zeros skips only clear bits and stops at a set one.
  lemma {:induction false} SkipZeros(w: nat)
    requires w > 0
    ensures Bit(w, TrailingZeros(w))
    ensures forall j :: 0 <= j < TrailingZeros(w) ==> !Bit(w, j)
  {
    if w % 2 == 0 {
      SkipZeros(w / 2);
      forall j | 0 <= j < TrailingZeros(w) ensures !Bit(w, j) {
        if j > 0 { assert Bit(w, j) == Bit(w / 2, j - 1); }
      }
    }
  }

  // ---------------------------------------------------------------- bit sequences

  // The number of set positions below i.
  function Rank(s: seq<bool>, i: nat): nat
    requires i <= |s|
  {
    if i == 0 then 0 else Rank(s, i - 1) + ToNat(s[i - 1])
  }

  lemma {:induction false} RankMonotone(s: seq<bool>, i: nat, j: nat)
    requires i <= j <= |s|
    ensures Rank(s, i) <= Rank(s, j) <= Rank(s, i) + (j - i)
  {
    if i < j { RankMonotone(s, i, j - 1); }
  }

  lemma {:induction false} RankPrefix(s: seq<bool>, t: seq<bool>, i: nat)
    requires i <= |s| && i <= |t|
    requires forall k :: 0 <= k < i ==> s[k] == t[k]
    ensures Rank(s, i) == Rank(t, i)
  {
    if i > 0 { RankPrefix(s, t, i - 1); }
  }

  lemma {:induction false} RankOfZeros(s: seq<bool>, i: nat, j: nat)
    requires i <= j <= |s|
    requires forall k :: i <= k < j ==> !s[k]
    ensures Rank(s, j) == Rank(s, i)
  {
    if i < j { RankOfZeros(s, i, j - 1); }
  }

  // A set position is determined by its rank.
  lemma SelectUnique(s: seq<bool>, p: nat, q: nat, i: nat)
    requires p < |s| && s[p] && Rank(s, p) == i
    requires q < |s| && s[q] && Rank(s, q) == i
    ensures p == q
  {
    if p != q {
      var lo, hi := if p < q then p else q, if p < q then q else p;
      RankMonotone(s, lo + 1, hi);
    }
  }

  // The bits of a packed vector, lowest bit of the first word first.
  ghost function Flat(bm: seq<Word>): (s: seq<bool>)
    ensures |s| == 64 * |bm|
  {
    seq(64 * |bm|, i requires 0 <= i < 64 * |bm| => Bit(bm[i / 64], i % 64))
  }

  lemma {:induction false} RankInWord(bm: seq<Word>, wi: nat, k: nat)
    requires wi < |bm| && k <= 64
    ensures 64 * wi + k <= |Flat(bm)|
    ensures Rank(Flat(bm), 64 * wi + k) == Rank(Flat(bm), 64 * wi) + Below(bm[wi], k)
  {
    if k > 0 {
      RankInWord(bm, wi, k - 1);
      var i := 64 * wi + k - 1;
      assert i / 64 == wi && i % 64 == k - 1;
    }
  }

  lemma RankOfWord(bm: seq<Word>, wi: nat)
    requires wi < |bm|
    ensures 64 * (wi + 1) <= |Flat(bm)|
    ensures Rank(Flat(bm), 64 * (wi + 1)) == Rank(Flat(bm), 64 * wi) + Popcount(bm[wi])
  {
    Pow2At64();
    RankUpTo(bm, wi, 64, 64 * (wi + 1));
  }

  lemma RankUpTo(bm: seq<Word>, wi: nat, k: nat, at: nat)
    requires wi < |bm| && k <= 64 && bm[wi] < Pow2(k) && at == 64 * wi + k
    ensures at <= |Flat(bm)| && Rank(Flat(bm), at) == Rank(Flat(bm), 64 * wi) + Popcount(bm[wi])
  {
    RankInWord(bm, wi, k);
    FullPopcount(bm[wi], k);
  }

  // ---------------------------------------------------------------- operations

  predicate GetBit(bm: seq<Word>, i: nat)
    requires bm != [] ==> i < 64 * |bm|
  {
    bm != [] && And(bm[i / 64], Pow2(i % 64)) != 0
  }

  lemma GetBitFlat(bm: seq<Word>, i: nat)
    requires i < 64 * |bm|
    ensures GetBit(bm, i) == Flat(bm)[i]
  {
    AndPow2(bm[i / 64], i % 64);
  }

  // The loop of `set_bit`: zero words until position i exists.
  method Grow(bm: seq<Word>, i: nat) returns (r: seq<Word>)
    ensures |bm| <= |r| && i < 64 * |r|
    ensures |r| == |bm| || 64 * (|r| - 1) <= i
    ensures forall p :: 0 <= p < 64 * |r| ==> Flat(r)[p] == (p < 64 * |bm| && Flat(bm)[p])
  {
    r := bm;
    while i / 64 >= |r|
      invariant |bm| <= |r| && r[..|bm|] == bm
      invariant forall k :: |bm| <= k < |r| ==> r[k] == 0
      invariant |r| == |bm| || 64 * (|r| - 1) <= i
      decreases i / 64 + 1 - |r|
    {
      r := r + [0];
    }
    forall p | 0 <= p < 64 * |r| ensures Flat(r)[p] == (p < 64 * |bm| && Flat(bm)[p]) {
      if p >= 64 * |bm| { ShrZero(p % 64); }
    }
  }

  /** `set_bit`: grows the vector to hold position i, and sets the bit when v.  A bit
      that is already set stays set. */
  method SetBit(bm: seq<Word>, i: nat, v: bool) returns (r: seq<Word>)
    ensures |bm| <= |r| && i < 64 * |r|
    ensures |r| == |bm| || 64 * (|r| - 1) <= i
    ensures forall p :: 0 <= p < 64 * |r| ==> Flat(r)[p] == ((p < 64 * |bm| && Flat(bm)[p]) || (v && p == i))
  {
    r := Grow(bm, i);
    var wi, k := i / 64, i % 64;
    Pow2At64();
    OrBound(r[wi], k, 64);
    assert Or(r[wi], 0) == r[wi];
    ghost var grown := r;
    r := r[wi := Or(r[wi], if v then Pow2(k) else 0)];
    forall p | 0 <= p < 64 * |r| ensures Flat(r)[p] == (Flat(grown)[p] || (v && p == i)) {
      OrFlat(grown, wi, k, v, p);
    }
  }

  // Setting one bit of one word.
  lemma OrFlat(bm: seq<Word>, wi: nat, k: nat, v: bool, p: nat)
    requires wi < |bm| && k < 64 && p < 64 * |bm|
    requires Or(bm[wi], if v then Pow2(k) else 0) < 0x1_0000_0000_0000_0000
    ensures Flat(bm[wi := Or(bm[wi], if v then Pow2(k) else 0)])[p] == (Flat(bm)[p] || (v && p == 64 * wi + k))
  {
    assert Or(bm[wi], 0) == bm[wi];
    if p / 64 == wi && v { OrPow2(bm[wi], k, p % 64); }
  }

  // ---------------------------------------------------------------- tables

  ghost predicate RanksOk(bm: seq<Word>, ranks: seq<Int32>) {
    |ranks| == |bm| + 1 && forall k :: 0 <= k <= |bm| ==> ranks[k] == Rank(Flat(bm), 64 * k)
  }

  // Entry j is the position of set bit number 64 * j.
  ghost predicate SelectEntry(s: seq<bool>, at: int, j: nat) {
    0 <= at < |s| && s[at] && Rank(s, at) == 64 * j
  }

  ghost predicate SelectsOk(bm: seq<Word>, selects: seq<Int32>) {
    && (forall j :: 0 <= j < |selects| ==> SelectEntry(Flat(bm), selects[j], j))
    && 64 * |selects| >= Rank(Flat(bm), 64 * |bm|)
  }

  /** `init`, first loop: the number of set bits before each word. */
  method RankTable(bm: seq<Word>) returns (ranks: seq<Int32>)
    requires 64 * |bm| < MaxBits
    ensures RanksOk(bm, ranks)
  {
    ranks := [0];
    for i := 0 to |bm|
      invariant |ranks| == i + 1
      invariant forall k :: 0 <= k <= i ==> ranks[k] == Rank(Flat(bm), 64 * k)
    {
      RankOfWord(bm, i);
      RankMonotone(Flat(bm), 0, 64 * (i + 1));
      ranks := ranks + [ranks[|ranks| - 1] + Popcount(bm[i])];
    }
  }

  /** `init`, second loop: the position of every 64th set bit. */
  method SelectTable(bm: seq<Word>) returns (selects: seq<Int32>)
    requires 64 * |bm| < MaxBits
    ensures SelectsOk(bm, selects)
  {
    selects := [];
    var n := 0;
    for i := 0 to 64 * |bm|
      invariant n == Rank(Flat(bm), i)
      invariant 64 * |selects| >= n > 64 * (|selects| - 1)
      invariant forall j :: 0 <= j < |selects| ==> SelectEntry(Flat(bm), selects[j], j)
    {
      var isSet := Shr(bm[i / 64], i % 64) % 2 == 1;
      assert isSet == Flat(bm)[i];
      if isSet {
        if n % 64 == 0 {
          NextEntry(n, |selects|);
          assert SelectEntry(Flat(bm), i, |selects|);
          selects := selects + [i];
        }
        n := n + 1;
      }
    }
  }

  lemma NextEntry(n: nat, m: nat)
    requires n % 64 == 0 && 64 * m >= n > 64 * (m - 1)
    ensures n == 64 * m
  {
  }

  // `(w & ((1 << k) - 1)).count_ones()`
  function MaskedOnes(w: nat, k: nat): (n: nat)
    ensures n == Below(w, k)
  {
    MaskedPopcount(w, k);
    Popcount(And(w, Pow2(k) - 1))
  }

  /** `count_zeros(i)` is the number of clear bits below i. */
  function CountZeros(bm: seq<Word>, ranks: seq<Int32>, i: nat): (z: nat)
    requires i < 64 * |bm| && RanksOk(bm, ranks)
    ensures z == i - Rank(Flat(bm), i)
  {
    var wi, k := i / 64, i % 64;
    RankInWord(bm, wi, k);
    RankMonotone(Flat(bm), 0, i);
    i - ranks[wi] - MaskedOnes(bm[wi], k)
  }

  /** `select_ith_one`: the position of set bit number i, found from the nearest table
      entry.  The source's `unreachable!` is the loop's exit, which is never taken. */
  method SelectIthOne(bm: seq<Word>, ranks: seq<Int32>, selects: seq<Int32>, i: nat) returns (p: nat)
    requires 64 * |bm| < MaxBits && RanksOk(bm, ranks) && SelectsOk(bm, selects)
    requires i < Rank(Flat(bm), 64 * |bm|)
    ensures p < 64 * |bm| && Flat(bm)[p] && Rank(Flat(bm), p) == i
  {
    SelectBase(bm, ranks, selects, i);
    // the entry with its low six bits cleared is the start of this word
    var wi := selects[i / 64] / 64;
    var find := i - ranks[wi];
    while wi < |bm|
      invariant wi <= |bm| && find >= 0
      invariant find == i - Rank(Flat(bm), 64 * wi)
    {
      var found, at, left := ScanWord(bm, wi, find, i);
      if found { return 64 * wi + at; }
      find := left;
      wi := wi + 1;
    }
    assert false;
  }

  lemma SelectBase(bm: seq<Word>, ranks: seq<Int32>, selects: seq<Int32>, i: nat)
    requires RanksOk(bm, ranks) && SelectsOk(bm, selects) && i < Rank(Flat(bm), 64 * |bm|)
    ensures i / 64 < |selects| && 0 <= selects[i / 64] < 64 * |bm|
    ensures i >= ranks[selects[i / 64] / 64] == Rank(Flat(bm), 64 * (selects[i / 64] / 64))
  {
    var at := selects[i / 64];
    assert SelectEntry(Flat(bm), at, i / 64);
    RankMonotone(Flat(bm), 64 * (at / 64), at);
  }

  /** The inner loop of `select_ith_one`: skips over runs of clear bits of one word. */
  method ScanWord(bm: seq<Word>, wi: nat, start: nat, ghost i: nat) returns (found: bool, at: nat, left: nat)
    requires wi < |bm| && start == i - Rank(Flat(bm), 64 * wi)
    ensures found ==> at < 64 && Flat(bm)[64 * wi + at] && Rank(Flat(bm), 64 * wi + at) == i
    ensures !found ==> left == i - Rank(Flat(bm), 64 * (wi + 1))
  {
    var w: nat, find: int := bm[wi], start;
    at := 0;
    Pow2At64();
    ghost var orig: nat := bm[wi];
    while w > 0
      invariant w == Shr(orig, at)
      invariant find == start - Below(orig, at) >= 0
      decreases 64 - at
    {
      InsideWord(orig, at);
      find := find - w % 2;
      if find < 0 {
        FoundInWord(bm, wi, at);
        return true, at, 0;
      }
      var t0 := TrailingZeros(w - w % 2);
      SkipStep(orig, at, t0);
      w, at := Shr(w, t0), at + t0;
    }
    found, left := false, find;
    RankOfWord(bm, wi);
    FullPopcount(orig, 64);
    if at <= 64 { BelowTail(orig, at, 64); } else { ShrVanishes(orig, 64); BelowTail(orig, 64, at); }
  }

  lemma InsideWord(orig: nat, at: nat)
    requires orig < Pow2(64)
    ensures Shr(orig, at) > 0 ==> at < 64
  {
    if at >= 64 {
      ShrVanishes(orig, 64);
      ShrAdd(orig, 64, at - 64);
      ShrZero(at - 64);
    }
  }

  lemma FoundInWord(bm: seq<Word>, wi: nat, at: nat)
    requires wi < |bm| && at < 64
    ensures 64 * wi + at < |Flat(bm)| && Flat(bm)[64 * wi + at] == Bit(bm[wi], at)
    ensures Rank(Flat(bm), 64 * wi + at) == Rank(Flat(bm), 64 * wi) + Below(bm[wi], at)
  {
    RankInWord(bm, wi, at);
    assert (64 * wi + at) / 64 == wi && (64 * wi + at) % 64 == at;
  }

  // One round of ScanWord past a bit that is not the one looked for: the shift skips
  // clear bits only.
  lemma SkipStep(orig: nat, at: nat, t0: nat)
    requires t0 == TrailingZeros(Shr(orig, at) - Shr(orig, at) % 2)
    ensures t0 >= 1
    ensures Shr(Shr(orig, at), t0) == Shr(orig, at + t0)
    ensures Below(orig, at + t0) == Below(orig, at) + Shr(orig, at) % 2
  {
    ShrAdd(orig, at, t0);
    assert Below(orig, at + 1) == Below(orig, at) + Shr(orig, at) % 2;
    if Shr(orig, at) / 2 == 0 {
      NothingAbove(orig, at);
    } else {
      SkipSome(orig, at, t0);
    }
  }

  lemma NothingAbove(orig: nat, at: nat)
    requires Shr(orig, at) / 2 == 0
    ensures Below(orig, at + 64) == Below(orig, at + 1)
  {
    ShrAdd(orig, at, 1);
    BelowTail(orig, at + 1, at + 64);
  }

  lemma SkipSome(orig: nat, at: nat, t0: nat)
    requires Shr(orig, at) / 2 > 0 && t0 == TrailingZeros(Shr(orig, at) - Shr(orig, at) % 2)
    ensures t0 >= 1 && Below(orig, at + t0) == Below(orig, at + 1)
  {
    forall j | at + 1 <= j < at + t0 ensures !Bit(orig, j) {
      SkippedBit(orig, at, t0, j);
    }
    BelowGap(orig, at + 1, at + t0);
  }

  lemma SkippedBit(orig: nat, at: nat, t0: nat, j: nat)
    requires Shr(orig, at) / 2 > 0 && t0 == TrailingZeros(Shr(orig, at) - Shr(orig, at) % 2)
    requires at + 1 <= j < at + t0
    ensures !Bit(orig, j)
  {
    var w := Shr(orig, at);
    SkipZeros(w - w % 2);
    assert !Bit(w - w % 2, j - at);
    SameAboveFront(w, j - at);
    ShrAdd(orig, at, j - at);
  }

  lemma SameAboveFront(w: nat, j: nat)
    requires j > 0
    ensures Shr(w - w % 2, j) == Shr(w, j)
  {
    assert (w - w % 2) / 2 == w / 2;
  }

  lemma {:induction false} BelowGap(w: nat, i: nat, j: nat)
    requires i <= j && forall k :: i <= k < j ==> !Bit(w, k)
    ensures Below(w, j) == Below(w, i)
  {
    if i < j { BelowGap(w, i, j - 1); }
  }

  // Nothing is set above a position where the shifted word is zero.
  lemma {:induction false} BelowTail(w: nat, i: nat, j: nat)
    requires i <= j && Shr(w, i) == 0
    ensures Below(w, j) == Below(w, i)
  {
    if i < j {
      BelowTail(w, i, j - 1);
      ShrAdd(w, i, j - 1 - i);
      ShrZero(j - 1 - i);
    }
  }
}
