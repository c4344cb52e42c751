/**
  Fixed-size bit array of machine words, and its word-at-a-time search for a free bit.
  A set bit means "taken".
 */
module Bitmap {

  const WORD_BITS: nat := 64
  const INVALID: nat := 0xFFFF_FFFF_FFFF_FFFF

  function Index(k: nat): bv6
    requires k < WORD_BITS
  {
    k as bv6
  }

  predicate BitAt(w: bv64, k: bv6) {
    (w >> k) & 1 == 1
  }

  predicate Bit(w: bv64, k: nat)
    requires k < WORD_BITS
  {
    BitAt(w, Index(k))
  }

  predicate Test(bm: seq<bv64>, i: nat)
    requires i < WORD_BITS * |bm|
  {
    Bit(bm[i / WORD_BITS], i % WORD_BITS)
  }

  // The machine operations on one word.

  function One(k: bv6): bv64 {
    1 << k
  }

  function Or(w: bv64, v: bv64): bv64 {
    w | v
  }

  function And(w: bv64, v: bv64): bv64 {
    w & v
  }

  function Inverse(w: bv64): bv64 {
    !w
  }

  function WithBit(w: bv64, k: bv6): bv64 {
    Or(w, One(k))
  }

  function WithoutBit(w: bv64, k: bv6): bv64 {
    And(w, Inverse(One(k)))
  }

  function Mask(k: bv6): bv64 {
    (1 << k) - 1
  }

  function Below(w: bv64, k: bv6): bv64 {
    And(w, Mask(k))
  }

  function FromOn(w: bv64, k: bv6): bv64 {
    And(w, Inverse(Mask(k)))
  }

  lemma OneAt(k: bv6, j: bv6)
    ensures BitAt(One(k), j) == (j == k)
  {
  }

  lemma InverseAt(w: bv64, j: bv6)
    ensures BitAt(Inverse(w), j) == !BitAt(w, j)
  {
  }

  lemma AndAt(w: bv64, v: bv64, j: bv6)
    ensures BitAt(And(w, v), j) == (BitAt(w, j) && BitAt(v, j))
  {
  }

  lemma DeMorgan(w: bv64, v: bv64)
    ensures Or(w, v) == Inverse(And(Inverse(w), Inverse(v)))
  {
  }

  lemma OrAt(w: bv64, v: bv64, j: bv6)
    ensures BitAt(Or(w, v), j) == (BitAt(w, j) || BitAt(v, j))
  {
    hide BitAt, Or, And, Inverse;
    DeMorgan(w, v);
    InverseAt(And(Inverse(w), Inverse(v)), j);
    AndAt(Inverse(w), Inverse(v), j);
    InverseAt(w, j);
    InverseAt(v, j);
  }

  lemma MaskAt(k: bv6, j: bv6)
    ensures BitAt(Mask(k), j) == (j < k)
  {
  }

  lemma IndexValue(k: nat)
    requires k < WORD_BITS
    ensures Index(k) as int == k
  {
  }

  lemma IndexOrder(k: nat, j: nat)
    requires k < WORD_BITS && j < WORD_BITS
    ensures (Index(j) == Index(k)) == (j == k)
    ensures (Index(j) < Index(k)) == (j < k)
  {
    hide Index;
    IndexValue(k);
    IndexValue(j);
  }

  /** What each operation does to bit `j`. */
  lemma BitOps(w: bv64, k: nat, j: nat)
    requires k < WORD_BITS && j < WORD_BITS
    ensures Bit(WithBit(w, Index(k)), j) == (Bit(w, j) || j == k)
    ensures Bit(WithoutBit(w, Index(k)), j) == (Bit(w, j) && j != k)
    ensures Bit(Inverse(w), j) == !Bit(w, j)
    ensures Bit(Below(w, Index(k)), j) == (Bit(w, j) && j < k)
    ensures Bit(FromOn(w, Index(k)), j) == (Bit(w, j) && k <= j)
  {
    hide Index, BitAt, One, Or, And, Inverse, Mask;
    var k', j' := Index(k), Index(j);
    IndexOrder(k, j);
    OneAt(k', j');
    OrAt(w, One(k'), j');
    InverseAt(One(k'), j');
    AndAt(w, Inverse(One(k')), j');
    InverseAt(w, j');
    AndAt(w, Mask(k'), j');
    AndAt(w, Inverse(Mask(k')), j');
    InverseAt(Mask(k'), j');
    MaskAt(k', j');
  }

  lemma LowStep(w: bv64, k: bv6)
    requires k < 63 && Below(w, k) == 0 && !BitAt(w, k)
    ensures Below(w, k + 1) == 0
  {
  }

  lemma Successor(k: nat)
    requires k + 1 < WORD_BITS
    ensures Index(k) < 63 && Index(k + 1) == Index(k) + 1
  {
    hide Index;
    IndexValue(k);
    IndexValue(k + 1);
  }

  lemma LowEnd(w: bv64)
    ensures Below(w, Index(0)) == 0
  {
  }

  lemma {:induction false} LowClear(w: bv64, k: nat)
    requires k < WORD_BITS && forall j: nat | j < WORD_BITS :: !Bit(w, j)
    ensures Below(w, Index(k)) == 0
  {
    hide Index, BitAt, Below;
    if k == 0 {
      LowEnd(w);
    } else {
      LowClear(w, k - 1);
      assert !Bit(w, k - 1);
      Successor(k - 1);
      LowStep(w, Index(k - 1));
    }
  }

  lemma HighEnd(w: bv64)
    requires Below(w, Index(63)) == 0 && !Bit(w, 63)
    ensures w == 0
  {
  }

  /** A word without set bits is zero. */
  lemma NoBits(w: bv64)
    requires forall j: nat | j < WORD_BITS :: !Bit(w, j)
    ensures w == 0
  {
    hide Index, BitAt, Below;
    LowClear(w, 63);
    assert !Bit(w, 63);
    HighEnd(w);
  }

  lemma ZeroBits(w: bv64)
    requires w == 0
    ensures forall j: nat | j < WORD_BITS :: !Bit(w, j)
  {
    forall j: nat | j < WORD_BITS ensures !Bit(w, j) {
      ZeroBitAt(w, Index(j));
    }
  }

  lemma ZeroBitAt(w: bv64, k: bv6)
    requires w == 0
    ensures !BitAt(w, k)
  {
  }

  /** Index of the lowest set bit of a non-zero word. */
  method CountTrailingZeros(w: bv64) returns (k: nat)
    requires w != 0
    ensures k < WORD_BITS && Bit(w, k) && forall j: nat | j < k :: !Bit(w, j)
  {
    hide Bit;
    k := 0;
    while k < WORD_BITS && !Bit(w, k)
      invariant k <= WORD_BITS && forall j: nat | j < k :: !Bit(w, j)
    {
      k := k + 1;
    }
    if k == WORD_BITS {
      NoBits(w);
      assert false;
    }
  }

  lemma SetBitTest(bm: seq<bv64>, i: nat, j: nat)
    requires i < WORD_BITS * |bm| && j < WORD_BITS * |bm|
    ensures Test(bm[i / WORD_BITS := WithBit(bm[i / WORD_BITS], Index(i % WORD_BITS))], j) == (j == i || Test(bm, j))
    ensures Test(bm[i / WORD_BITS := WithoutBit(bm[i / WORD_BITS], Index(i % WORD_BITS))], j) == (j != i && Test(bm, j))
  {
    hide Bit, Index, WithBit, WithoutBit;
    BitOps(bm[i / WORD_BITS], i % WORD_BITS, j % WORD_BITS);
  }

  /** The words after bit `i` was set: every other bit is as before. */
  function SetBit(bm: seq<bv64>, i: nat): (r: seq<bv64>)
    requires i < WORD_BITS * |bm|
    ensures |r| == |bm| && forall j: nat | j < WORD_BITS * |bm| :: Test(r, j) == (j == i || Test(bm, j))
  {
    var r := bm[i / WORD_BITS := WithBit(bm[i / WORD_BITS], Index(i % WORD_BITS))];
    assert forall j: nat | j < WORD_BITS * |bm| :: Test(r, j) == (j == i || Test(bm, j)) by {
      hide Bit, Index, WithBit;
      forall j: nat | j < WORD_BITS * |bm| ensures Test(r, j) == (j == i || Test(bm, j)) {
        SetBitTest(bm, i, j);
      }
    }
    r
  }

  function ClearBit(bm: seq<bv64>, i: nat): (r: seq<bv64>)
    requires i < WORD_BITS * |bm|
    ensures |r| == |bm| && forall j: nat | j < WORD_BITS * |bm| :: Test(r, j) == (j != i && Test(bm, j))
  {
    var r := bm[i / WORD_BITS := WithoutBit(bm[i / WORD_BITS], Index(i % WORD_BITS))];
    assert forall j: nat | j < WORD_BITS * |bm| :: Test(r, j) == (j != i && Test(bm, j)) by {
      hide Bit, Index, WithoutBit;
      forall j: nat | j < WORD_BITS * |bm| ensures Test(r, j) == (j != i && Test(bm, j)) {
        SetBitTest(bm, i, j);
      }
    }
    r
  }

  method Set(bm: array<bv64>, i: nat)
    requires i < WORD_BITS * bm.Length
    modifies bm
    ensures bm[..] == SetBit(old(bm[..]), i)
  {
    hide Bit, Index;
    bm[i / WORD_BITS] := WithBit(bm[i / WORD_BITS], Index(i % WORD_BITS));
  }

  method Clear(bm: array<bv64>, i: nat)
    requires i < WORD_BITS * bm.Length
    modifies bm
    ensures bm[..] == ClearBit(old(bm[..]), i)
  {
    hide Bit, Index;
    bm[i / WORD_BITS] := WithoutBit(bm[i / WORD_BITS], Index(i % WORD_BITS));
  }

  /** Walking upwards from `start` and wrapping once, `j` is met before `r`. */
  predicate Precedes(start: nat, j: nat, r: nat) {
    if start <= r then start <= j < r else j < r || start <= j
  }

  predicate AllTaken(bm: seq<bv64>, count: nat)
    requires count <= WORD_BITS * |bm|
  {
    forall j: nat | j < count :: Test(bm, j)
  }

  /** `r` is the cyclically first free bit from `start`. */
  predicate FirstFree(bm: seq<bv64>, count: nat, start: nat, r: nat)
    requires count <= WORD_BITS * |bm|
  {
    && r < count && !Test(bm, r)
    && forall j: nat | j < count && Precedes(start, j, r) :: Test(bm, j)
  }

  function StartOf(count: nat, from: nat): nat {
    if from >= count then 0 else from
  }

  /** The bits below `count` that the first `i` probes from bit `start` have looked at. */
  predicate Probed(start: nat, nwords: nat, i: nat, j: nat) {
    var fw, fb, w := start / WORD_BITS, start % WORD_BITS, j / WORD_BITS;
    if w == fw then (if j % WORD_BITS >= fb then i > 0 else i > nwords)
    else if w > fw then w < fw + i else w + nwords < fw + i
  }

  /** The bits of its word that probe `i` looks at. */
  predicate InProbe(i: nat, nwords: nat, fb: nat, k: nat) {
    if i == 0 then fb <= k else if i == nwords then k < fb else true
  }

  predicate ProbeWord(start: nat, nwords: nat, i: nat, word: nat) {
    var w := start / WORD_BITS + i;
    word == if w >= nwords then w - nwords else w
  }

  lemma WordOfProbe(start: nat, nwords: nat, i: nat, word: nat)
    requires start / WORD_BITS < nwords && i <= nwords
    requires word == start / WORD_BITS + i - if start / WORD_BITS + i >= nwords then nwords else 0
    ensures ProbeWord(start, nwords, i, word)
  {
  }

  lemma NoneProbed(start: nat, nwords: nat, j: nat)
    requires start / WORD_BITS < nwords && j / WORD_BITS < nwords
    ensures !Probed(start, nwords, 0, j)
  {
  }

  lemma NewlyProbed(start: nat, nwords: nat, i: nat, word: nat, j: nat)
    requires start / WORD_BITS < nwords && j / WORD_BITS < nwords && i <= nwords && ProbeWord(start, nwords, i, word)
    ensures Probed(start, nwords, i + 1, j) ==>
      || Probed(start, nwords, i, j)
      || (j / WORD_BITS == word && InProbe(i, nwords, start % WORD_BITS, j % WORD_BITS))
  {
  }

  lemma ProbedFirst(start: nat, nwords: nat, i: nat, word: nat, r: nat, j: nat)
    requires start / WORD_BITS < nwords && j / WORD_BITS < nwords && i <= nwords && ProbeWord(start, nwords, i, word)
    requires r / WORD_BITS == word && InProbe(i, nwords, start % WORD_BITS, r % WORD_BITS) && Precedes(start, j, r)
    ensures
      || Probed(start, nwords, i, j)
      || (j / WORD_BITS == word && InProbe(i, nwords, start % WORD_BITS, j % WORD_BITS) && j % WORD_BITS < r % WORD_BITS)
  {
  }

  lemma AllProbed(start: nat, nwords: nat, j: nat)
    requires start / WORD_BITS < nwords && j / WORD_BITS < nwords
    ensures Probed(start, nwords, nwords + 1, j)
  {
  }

  /** The free bits of word `w` among those probe `i` looks at. */
  method ProbeBits(w: bv64, i: nat, nwords: nat, fb: nat) returns (inv: bv64)
    requires fb < WORD_BITS
    ensures forall k: nat | k < WORD_BITS :: Bit(inv, k) == (!Bit(w, k) && InProbe(i, nwords, fb, k))
  {
    hide Bit, Index, Inverse, Below, FromOn;
    inv := Inverse(w);
    ghost var whole := inv;
    if i == 0 {
      inv := FromOn(inv, Index(fb));
    } else if i == nwords {
      inv := Below(inv, Index(fb));
    }
    forall k: nat | k < WORD_BITS
      ensures Bit(inv, k) == (!Bit(w, k) && InProbe(i, nwords, fb, k))
    {
      BitOps(w, fb, k);
      BitOps(whole, fb, k);
    }
  }

  method FindFree(bm: seq<bv64>, count: nat, from: nat) returns (r: nat)
    requires count <= WORD_BITS * |bm| < INVALID
    ensures r == INVALID <==> AllTaken(bm, count)
    ensures r != INVALID ==> FirstFree(bm, count, StartOf(count, from), r)
  {
    hide Bit, Probed, InProbe, ProbeWord, Precedes;
    if count == 0 {
      return INVALID;
    }
    var start := if from >= count then 0 else from;
    var nwords := (count + WORD_BITS - 1) / WORD_BITS;
    var fw := start / WORD_BITS;
    var fb := start % WORD_BITS;
    var i := 0;
    forall j: nat | j < count ensures !Probed(start, nwords, 0, j) {
      NoneProbed(start, nwords, j);
    }
    while i <= nwords
      invariant i <= nwords + 1
      invariant forall j: nat | j < count && Probed(start, nwords, i, j) :: Test(bm, j)
    {
      var word := fw + i;
      if word >= nwords {
        word := word - nwords;
      }
      WordOfProbe(start, nwords, i, word);
      var inv := ProbeBits(bm[word], i, nwords, fb);
      var k := WORD_BITS;
      if inv != 0 {
        k := CountTrailingZeros(inv);
        var bit := word * WORD_BITS + k;
        if bit < count {
          assert bit / WORD_BITS == word && bit % WORD_BITS == k && !Test(bm, bit);
          forall j: nat | j < count && Precedes(start, j, bit) ensures Test(bm, j) {
            ProbedFirst(start, nwords, i, word, bit, j);
          }
          return bit;
        }
      } else {
        ZeroBits(inv);
      }
      forall j: nat | j < count && Probed(start, nwords, i + 1, j) ensures Test(bm, j) {
        NewlyProbed(start, nwords, i, word, j);
      }
      i := i + 1;
    }
    forall j: nat | j < count ensures Test(bm, j) {
      AllProbed(start, nwords, j);
    }
    r := INVALID;
  }
}
