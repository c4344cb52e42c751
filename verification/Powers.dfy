/** Powers of two, bits, and shifting right, with the facts the byte and bit routines rest on. */
module Powers {

  function Pow2(n: nat): (r: nat)
    ensures r >= 1
  {
    if n == 0 then 1 else 2 * Pow2(n - 1)
  }

  lemma {:induction false} Pow2Mono(a: nat, b: nat)
    requires a <= b
    ensures 1 <= Pow2(a) <= Pow2(b)
    decreases b
  {
    if b > 0 {
      Pow2Mono(if a < b then a else b - 1, b - 1);
    }
  }

  lemma {:induction false} Pow2Sum(a: nat, b: nat)
    ensures Pow2(a + b) == Pow2(a) * Pow2(b)
  {
    if a > 0 {
      Pow2Sum(a - 1, b);
      Associate(2, Pow2(a - 1), Pow2(b));
    }
  }

  lemma Associate(a: nat, b: nat, c: nat)
    ensures a * (b * c) == (a * b) * c
  {
  }

  lemma SquareMono(a: nat, b: nat)
    requires a <= b
    ensures a * a <= b * b
  {
  }

  /** `x >> s`. */
  function Shr(x: nat, s: nat): nat {
    if s == 0 then x else Shr(x / 2, s - 1)
  }

  /** The low `s` bits of `x`. */
  function Low(x: nat, s: nat): (r: nat)
    ensures r < Pow2(s)
  {
    if s == 0 then 0 else x % 2 + 2 * Low(x / 2, s - 1)
  }

  /** Bit `p` of `x`. */
  predicate BitOf(x: nat, p: nat) {
    Shr(x, p) % 2 == 1
  }

  lemma {:induction false} SplitAt(x: nat, s: nat)
    ensures x == Shr(x, s) * Pow2(s) + Low(x, s)
  {
    if s > 0 {
      SplitAt(x / 2, s - 1);
      var a, p, l := Shr(x / 2, s - 1), Pow2(s - 1), Low(x / 2, s - 1);
      assert Shr(x, s) == a && Pow2(s) == 2 * p && Low(x, s) == x % 2 + 2 * l;
      hide Shr, Pow2, Low;
      Double(a, p);
    }
  }

  lemma Double(a: nat, p: nat)
    ensures a * (2 * p) == 2 * (a * p)
  {
  }

  /** A number is put together from its high and low part in one way only. */
  lemma {:induction false} JoinAt(h: nat, l: nat, s: nat)
    requires l < Pow2(s)
    ensures Shr(h * Pow2(s) + l, s) == h && Low(h * Pow2(s) + l, s) == l
    decreases s
  {
    if s > 0 {
      var a := h * Pow2(s - 1);
      Double(h, Pow2(s - 1));
      Halve(a, l);
      JoinAt(h, l / 2, s - 1);
    }
  }

  lemma Halve(a: nat, l: nat)
    ensures (2 * a + l) / 2 == a + l / 2 && (2 * a + l) % 2 == l % 2
  {
  }

  lemma {:induction false} ShrShr(x: nat, s: nat, p: nat)
    ensures Shr(Shr(x, s), p) == Shr(x, s + p)
  {
    if s > 0 {
      ShrShr(x / 2, s - 1, p);
    }
  }

  /** One more bit. */
  lemma {:induction false} LowStep(x: nat, p: nat)
    ensures Low(x, p + 1) == Low(x, p) + if BitOf(x, p) then Pow2(p) else 0
  {
    if p > 0 {
      LowStep(x / 2, p - 1);
    }
  }

  /** Shifting and reducing are dividing by a power of two. */
  lemma ShrIsDiv(x: nat, s: nat)
    ensures Shr(x, s) == x / Pow2(s) && Low(x, s) == x % Pow2(s)
  {
    SplitAt(x, s);
    DivUnique(x, Pow2(s), Shr(x, s), Low(x, s));
  }

  lemma {:induction false} MulStep(d: nat, q: nat, q': nat)
    requires q < q'
    ensures d * q' >= d * q + d
    decreases q'
  {
    assert d * q' == d * (q' - 1) + d;
    if q + 1 < q' {
      MulStep(d, q, q' - 1);
    }
  }

  /** Quotient and remainder are the only ones. */
  lemma DivUnique(x: nat, d: nat, q: nat, r: nat)
    requires x == q * d + r && r < d
    ensures x / d == q && x % d == r
  {
    var q', r' := x / d, x % d;
    assert x == d * q' + r' && q * d == d * q;
    if q < q' {
      MulStep(d, q, q');
      assert false;
    }
    if q' < q {
      MulStep(d, q', q);
      assert false;
    }
  }

  lemma {:induction false} BitOfLow(x: nat, s: nat, p: nat)
    requires p < s
    ensures BitOf(Low(x, s), p) == BitOf(x, p)
  {
    if p > 0 {
      assert Low(x, s) / 2 == Low(x / 2, s - 1);
      BitOfLow(x / 2, s - 1, p - 1);
    }
  }

  lemma {:induction false} ShrSmall(x: nat, s: nat)
    requires x < Pow2(s)
    ensures Shr(x, s) == 0 && Low(x, s) == x
  {
    if s > 0 {
      ShrSmall(x / 2, s - 1);
    }
  }

  lemma {:induction false} ShrZero(p: nat)
    ensures Shr(0, p) == 0
  {
    if p > 0 {
      ShrZero(p - 1);
    }
  }

  /** A number below 2^n has no bits from `n` on. */
  lemma NoHighBits(x: nat, n: nat, p: nat)
    requires x < Pow2(n) && n <= p
    ensures !BitOf(x, p)
  {
    ShrSmall(x, n);
    ShrShr(x, n, p - n);
    ShrZero(p - n);
  }

  /** A set bit makes a number large. */
  lemma BitMakesLarge(x: nat, p: nat)
    requires BitOf(x, p)
    ensures x >= Pow2(p)
  {
    if x < Pow2(p) {
      ShrSmall(x, p);
    }
  }

  lemma DropTopBit(x: nat, n: nat)
    requires x < Pow2(n + 1) && !BitOf(x, n)
    ensures x < Pow2(n)
  {
    ShrSmall(x, n + 1);
    LowStep(x, n);
  }

  /** A number below 2^m whose bits from `n` to `m` are clear is below 2^n. */
  lemma {:induction false} DropTopBits(x: nat, n: nat, m: nat)
    requires n <= m && x < Pow2(m) && forall p | n <= p < m :: !BitOf(x, p)
    ensures x < Pow2(n)
    decreases m
  {
    if n < m {
      DropTopBit(x, m - 1);
      DropTopBits(x, n, m - 1);
    }
  }

  lemma {:induction false} ShrLess(x: nat, s: nat, n: nat)
    ensures Shr(x, s) < Pow2(n) <==> x < Pow2(s + n)
  {
    if s > 0 {
      ShrLess(x / 2, s - 1, n);
    }
  }

  /** There is room for one more power of two where a bit is clear. */
  lemma {:induction false} Room(x: nat, b: nat, n: nat)
    requires b < n && x < Pow2(n) && !BitOf(x, b)
    ensures x + Pow2(b) < Pow2(n)
    decreases b
  {
    assert Pow2(n) == 2 * Pow2(n - 1);
    if b > 0 {
      assert Pow2(b) == 2 * Pow2(b - 1) && BitOf(x, b) == BitOf(x / 2, b - 1);
      hide Pow2, BitOf;
      Room(x / 2, b - 1, n - 1);
    }
  }

  lemma {:induction false} LowLow(x: nat, s: nat, k: nat)
    requires k <= s
    ensures Low(Low(x, s), k) == Low(x, k)
  {
    if k > 0 {
      assert Low(x, s) / 2 == Low(x / 2, s - 1);
      LowLow(x / 2, s - 1, k - 1);
    }
  }

  lemma Unfold(x: nat, s: nat)
    ensures if s == 0 then Shr(x, s) == x && Pow2(s) == 1 && Low(x, s) == 0
      else Shr(x, s) == Shr(x / 2, s - 1) && Pow2(s) == 2 * Pow2(s - 1) && Low(x, s) == x % 2 + 2 * Low(x / 2, s - 1)
  {
  }

  lemma {:induction false} LowSplit(x: nat, s: nat, k: nat)
    ensures Low(x, s + k) == Low(Shr(x, s), k) * Pow2(s) + Low(x, s)
    decreases s
  {
    hide Low, Shr, Pow2;
    Unfold(x, s);
    if s > 0 {
      Unfold(x, s + k);
      assert s - 1 + k == s + k - 1;
      LowSplit(x / 2, s - 1, k);
      OneLower(x % 2, Low(Shr(x, s), k), Pow2(s - 1), Low(x / 2, s - 1));
    }
  }

  lemma OneLower(b: nat, h: nat, p: nat, l: nat)
    ensures b + 2 * (h * p + l) == h * (2 * p) + (b + 2 * l)
  {
    Double(h, p);
  }
}
