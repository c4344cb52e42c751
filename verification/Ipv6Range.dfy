/**
  Byte-wise 128-bit arithmetic on IPv6 addresses, and the ranges of equal-sized prefixes built on it.
  Addresses are big-endian sequences of 16 bytes; `Value` is the integer they stand for.
 */
module Ipv6Range {
  import opened Base
  import opened Powers
  import Bitmap
  import IpRange

  type Address = d: seq<Byte> | |d| == 16 witness seq(16, _ => 0)

  const INVALID: nat := Bitmap.INVALID
  const MAX_SHIFT: nat := 24
  const MAX_BITS: nat := IpRange.MAX_BITS

  function Value(d: seq<Byte>): (v: nat)
    ensures v < Pow2(8 * |d|)
  {
    if d == [] then 0
    else
      Pow2Byte(|d| - 1);
      Value(d[..|d| - 1]) * 256 + d[|d| - 1]
  }

  lemma Pow2Byte(n: nat)
    ensures Pow2(8 * (n + 1)) == 256 * Pow2(8 * n)
  {
    Pow2Sum(8, 8 * n);
    assert Pow2(8) == 256;
  }

  lemma MulOut(a: nat, b: nat, c: nat)
    ensures (a + b) * c == a * c + b * c
  {
  }

  /** The value of a concatenation. */
  lemma {:induction false} ValueConcat(a: seq<Byte>, b: seq<Byte>)
    ensures Value(a + b) == Value(a) * Pow2(8 * |b|) + Value(b)
    decreases |b|
  {
    if b == [] {
      assert a + b == a;
    } else {
      var b' := b[..|b| - 1];
      assert (a + b)[..|a + b| - 1] == a + b';
      ValueConcat(a, b');
      Pow2Byte(|b'|);
      MulOut(Value(a) * Pow2(8 * |b'|), Value(b'), 256);
      Associate(Value(a), Pow2(8 * |b'|), 256);
    }
  }

  lemma ValueFrom(d: seq<Byte>, k: nat)
    requires k < |d|
    ensures Value(d[k..]) == d[k] * Pow2(8 * (|d| - k - 1)) + Value(d[k + 1..])
  {
    assert d[k..] == [d[k]] + d[k + 1..];
    ValueConcat([d[k]], d[k + 1..]);
    assert Value([d[k]]) == d[k];
  }

  // ----- Comparison ----------------------------------------------------------------------------

  lemma Dominates(x: nat, y: nat, p: nat, u: nat, w: nat)
    requires x < y && u < p
    ensures x * p + u < y * p + w
  {
    MulStep(p, x, y);
  }

  /** The first differing byte decides. */
  lemma FirstDifference(a: Address, b: Address, k: nat)
    requires k < 16 && a[..k] == b[..k] && a[k] < b[k]
    ensures Value(a) < Value(b)
  {
    hide Value, Pow2;
    assert a == a[..k] + a[k..] && b == b[..k] + b[k..];
    ValueConcat(a[..k], a[k..]);
    ValueConcat(b[..k], b[k..]);
    ValueFrom(a, k);
    ValueFrom(b, k);
    Dominates(a[k], b[k], Pow2(8 * (15 - k)), Value(a[k + 1..]), Value(b[k + 1..]));
  }

  method Compare(a: Address, b: Address) returns (r: int)
    ensures r == if Value(a) < Value(b) then -1 else if Value(a) > Value(b) then 1 else 0
  {
    var i := 0;
    while i < 16
      invariant i <= 16 && a[..i] == b[..i]
    {
      if a[i] < b[i] {
        FirstDifference(a, b, i);
        return -1;
      }
      if a[i] > b[i] {
        FirstDifference(b, a, i);
        return 1;
      }
      assert a[..i + 1] == a[..i] + [a[i]] && b[..i + 1] == b[..i] + [b[i]];
      i := i + 1;
    }
    assert a == a[..16] && b == b[..16];
    r := 0;
  }

  // ----- Subtraction and addition --------------------------------------------------------------

  /** A carry or borrow of weight `p`. */
  function Carried(c: nat, p: nat): nat {
    c * p
  }

  /** `x` and `y` agree from byte `i` on with `o`, up to a carry out of that part: x + y = o + carry. */
  ghost predicate AddsUp(x: Address, y: Address, o: Address, i: nat, c: nat) {
    i <= 16 && Value(x[i..]) + Value(y[i..]) == Value(o[i..]) + Carried(c, Pow2(8 * (16 - i)))
  }

  lemma DigitSum(x: nat, y: nat, o: nat, c: nat, c': nat, p: nat)
    requires x + y + c == o + 256 * c'
    ensures x * p + y * p + Carried(c, p) == o * p + Carried(c', 256 * p)
  {
    MulOut(x, y, p);
    MulOut(x + y, c, p);
    MulOut(o, 256 * c', p);
    Associate(c', 256, p);
  }

  lemma AddsUpStep(x: Address, y: Address, o: Address, i: nat, c: nat, c': nat)
    requires i < 16 && AddsUp(x, y, o, i + 1, c) && x[i] + y[i] + c == o[i] + 256 * c'
    ensures AddsUp(x, y, o, i, c')
  {
    hide Value, Pow2, Carried;
    ValueFrom(x, i);
    ValueFrom(y, i);
    ValueFrom(o, i);
    Pow2Byte(15 - i);
    DigitSum(x[i], y[i], o[i], c, c', Pow2(8 * (15 - i)));
  }

  lemma AddsUpBase(x: Address, y: Address, o: Address)
    ensures AddsUp(x, y, o, 16, 0)
  {
    assert x[16..] == [] && y[16..] == [] && o[16..] == [];
  }

  lemma AddsUpSame(x: Address, y: Address, o: Address, o': Address, i: nat, c: nat)
    requires AddsUp(x, y, o, i, c) && o'[i..] == o[i..]
    ensures AddsUp(x, y, o', i, c)
  {
  }

  /** The whole sum: no carry means no wrap-around. */
  lemma AddsUpAll(x: Address, y: Address, o: Address, c: nat)
    requires AddsUp(x, y, o, 0, c) && c <= 1
    ensures Value(x) + Value(y) == Value(o) + if c == 1 then Pow2(128) else 0
    ensures c == 1 <==> Value(x) + Value(y) >= Pow2(128)
  {
    hide Value, Pow2;
    assert x[0..] == x && y[0..] == y && o[0..] == o;
  }

  /** o = a - b, modulo 2^128 when a < b. */
  method Subtract(a: Address, b: Address) returns (o: Address)
    ensures Value(o) + Value(b) == Value(a) + if Value(a) >= Value(b) then 0 else Pow2(128)
  {
    hide AddsUp, Value, Pow2;
    var out := new Byte[16];
    var borrow := 0;
    var i := 16;
    AddsUpBase(out[..], b, a);
    while i > 0
      invariant 0 <= i <= 16 && 0 <= borrow <= 1
      invariant AddsUp(out[..], b, a, i, borrow)
    {
      ghost var out0, borrow0 := out[..], borrow;
      i := i - 1;
      var v := a[i] as int - b[i] as int - borrow;
      if v < 0 {
        v := v + 256;
        borrow := 1;
      } else {
        borrow := 0;
      }
      out[i] := v;
      AddsUpFirst(out0, out[..], b, a, i + 1, borrow0);
      AddsUpStep(out[..], b, a, i, borrow0, borrow);
    }
    o := out[..];
    AddsUpAll(o, b, a, borrow);
  }

  lemma AddsUpFirst(x: Address, x': Address, y: Address, o: Address, i: nat, c: nat)
    requires AddsUp(x, y, o, i, c) && x'[i..] == x[i..]
    ensures AddsUp(x', y, o, i, c)
  {
  }

  // ----- Bits ----------------------------------------------------------------------------------

  /** Bit `p` of an address, found in the byte that holds it. */
  predicate ByteBit(d: Address, p: nat)
    requires p < 128
  {
    BitOf(d[15 - p / 8], p % 8)
  }

  lemma BitInLastByte(h: nat, l: nat, p: nat)
    requires p < 8 && l < 256
    ensures BitOf(h * 256 + l, p) == BitOf(l, p)
  {
    assert Pow2(8) == 256;
    JoinAt(h, l, 8);
    BitOfLow(h * 256 + l, 8, p);
  }

  lemma BitAboveLastByte(h: nat, l: nat, p: nat)
    requires 8 <= p && l < 256
    ensures BitOf(h * 256 + l, p) == BitOf(h, p - 8)
  {
    assert Pow2(8) == 256;
    JoinAt(h, l, 8);
    ShrShr(h * 256 + l, 8, p - 8);
  }

  lemma {:induction false} ByteOfBit(d: seq<Byte>, p: nat)
    requires p < 8 * |d|
    ensures BitOf(Value(d), p) == BitOf(d[|d| - 1 - p / 8], p % 8)
    decreases |d|
  {
    hide BitOf;
    var n := |d| - 1;
    if p < 8 {
      BitInLastByte(Value(d[..n]), d[n], p);
    } else {
      BitAboveLastByte(Value(d[..n]), d[n], p);
      ByteOfBit(d[..n], p - 8);
    }
  }

  lemma ByteBitIsBit(d: Address, p: nat)
    requires p < 128
    ensures ByteBit(d, p) == BitOf(Value(d), p)
  {
    hide BitOf, Value;
    ByteOfBit(d, p);
  }

  /** The address shifted right, if the result fits in 64 bits. */
  method ShiftRight(d: Address, shift: nat) returns (out: Option<nat>)
    requires shift <= 128
    ensures out == if Value(d) / Pow2(shift) < Pow2(64) then Some(Value(d) / Pow2(shift)) else None
  {
    hide BitOf, Value, Pow2, Shr, Low, ByteBit;
    ghost var x := Shr(Value(d), shift);
    ShrIsDiv(Value(d), shift);
    LowNothing(x);
    var v := 0;
    var p := 0;
    while p < 64
      invariant p <= 64 && v == Low(x, p)
    {
      var sp := shift + p;
      LowStep(x, p);
      ShiftedBit(Value(d), shift, p);
      if sp < 128 {
        ByteBitIsBit(d, sp);
        if ByteBit(d, sp) {
          v := v + Pow2(p);
        }
      } else {
        NoHighBits(Value(d), 128, sp);
      }
      p := p + 1;
    }
    ShrLess(Value(d), shift, 64);
    p := shift + 64;
    while p < 128
      invariant shift + 64 <= p
      invariant forall q | shift + 64 <= q < p && q < 128 :: !BitOf(Value(d), q)
    {
      ByteBitIsBit(d, p);
      if ByteBit(d, p) {
        BitMakesLarge(Value(d), p);
        Pow2Mono(shift + 64, p);
        return None;
      }
      p := p + 1;
    }
    if shift + 64 <= 128 {
      DropTopBits(Value(d), shift + 64, 128);
    } else {
      Pow2Mono(128, shift + 64);
    }
    ShrSmall(x, 64);
    out := Some(v);
  }

  lemma LowNothing(x: nat)
    ensures Low(x, 0) == 0
  {
  }

  lemma ShiftedBit(x: nat, s: nat, p: nat)
    ensures BitOf(Shr(x, s), p) == BitOf(x, s + p)
  {
    ShrShr(x, s, p);
  }

  lemma ValueUpdate(d: Address, k: nat, v: Byte)
    requires k < 16 && d[k] <= v
    ensures Value(d[k := v]) == Value(d) + (v - d[k]) as nat * Pow2(8 * (15 - k))
  {
    hide Value, Pow2;
    var e: Address := d[k := v];
    assert d == d[..k] + d[k..] && e == e[..k] + e[k..] && d[..k] == e[..k] && d[k + 1..] == e[k + 1..];
    ValueConcat(d[..k], d[k..]);
    ValueConcat(e[..k], e[k..]);
    ValueFrom(d, k);
    ValueFrom(e, k);
    MulOut(d[k], (v - d[k]) as nat, Pow2(8 * (15 - k)));
  }

  /** A byte with bit `b` switched on. */
  function OrBit(x: Byte, b: nat): (r: int)
    requires b < 8
    ensures x <= r < 256
  {
    if BitOf(x, b) then x else (OrBitFits(x, b); x + Pow2(b))
  }

  lemma OrBitFits(x: Byte, b: nat)
    requires b < 8 && !BitOf(x, b)
    ensures x + Pow2(b) < 256
  {
    assert Pow2(8) == 256;
    Room(x, b, 8);
  }

  lemma OrBitValue(d: Address, sp: nat)
    requires sp < 128 && !ByteBit(d, sp)
    ensures Value(d[15 - sp / 8 := OrBit(d[15 - sp / 8], sp % 8)]) == Value(d) + Pow2(sp)
  {
    hide Value, Pow2, BitOf;
    var k, b := 15 - sp / 8, sp % 8;
    ValueUpdate(d, k, OrBit(d[k], b));
    Pow2Sum(b, 8 * (15 - k));
  }

  function Min(a: nat, b: nat): nat {
    if a <= b then a else b
  }

  /** The low `p` bits of an index moved up by `shift`, as far as 128 bits hold them. */
  function MovedUp(i: nat, p: nat, shift: nat): nat
    requires shift <= 128
  {
    Low(i, Min(p, 128 - shift)) * Pow2(shift)
  }

  lemma MovedUpStep(i: nat, p: nat, shift: nat)
    requires shift <= 128
    ensures shift + p >= 128 ==> MovedUp(i, p + 1, shift) == MovedUp(i, p, shift)
    ensures shift + p < 128 ==> MovedUp(i, p, shift) < Pow2(shift + p)
    ensures shift + p < 128 ==> MovedUp(i, p + 1, shift) == MovedUp(i, p, shift) + if BitOf(i, p) then Pow2(shift + p) else 0
  {
    hide Low, Pow2, BitOf;
    if shift + p < 128 {
      LowStep(i, p);
      Pow2Sum(p, shift);
      MulOut(Low(i, p), Pow2(p), Pow2(shift));
      MulStep(Pow2(shift), Low(i, p), Pow2(p));
    }
  }

  lemma MovedUpNone(i: nat, shift: nat)
    requires shift <= 128
    ensures MovedUp(i, 0, shift) == 0
  {
  }

  /** What is lost above 128 bits is a multiple of 2^128. */
  lemma MovedUpAll(i: nat, shift: nat) returns (k: nat)
    requires i < Pow2(64) && shift <= 128
    ensures i * Pow2(shift) == MovedUp(i, 64, shift) + k * Pow2(128)
  {
    hide Low, Pow2, Shr;
    if 64 <= 128 - shift {
      ShrSmall(i, 64);
      k := 0;
    } else {
      var m := 128 - shift;
      SplitAt(i, m);
      k := Shr(i, m);
      MulOut(Shr(i, m) * Pow2(m), Low(i, m), Pow2(shift));
      Associate(Shr(i, m), Pow2(m), Pow2(shift));
      Pow2Sum(m, shift);
    }
  }

  lemma ZeroValue(d: seq<Byte>)
    requires forall k | 0 <= k < |d| :: d[k] == 0
    ensures Value(d) == 0
  {
  }

  /** The index moved to its place in a zeroed 16-byte buffer. */
  method PlaceIndex(i: nat, shift: nat) returns (add: Address)
    requires shift <= 128
    ensures Value(add) == MovedUp(i, 64, shift)
  {
    hide Value, Pow2, BitOf, MovedUp, OrBit;
    var buf := new Byte[16](_ => 0);
    ZeroValue(buf[..]);
    MovedUpNone(i, shift);
    var p := 0;
    while p < 64
      invariant p <= 64 && Value(buf[..]) == MovedUp(i, p, shift)
    {
      MovedUpStep(i, p, shift);
      if BitOf(i, p) {
        var sp := shift + p;
        if sp < 128 {
          NoHighBits(Value(buf[..]), sp, sp);
          ByteBitIsBit(buf[..], sp);
          OrBitValue(buf[..], sp);
          ghost var was := buf[..];
          buf[15 - sp / 8] := OrBit(buf[15 - sp / 8], sp % 8);
          assert buf[..] == was[15 - sp / 8 := OrBit(was[15 - sp / 8], sp % 8)];
        }
      }
      p := p + 1;
    }
    add := buf[..];
  }

  /** The address of prefix `i`, in 128-bit arithmetic. */
  method IndexToAddr(start: Address, i: nat, shift: nat) returns (addr: Address)
    requires i < Pow2(64) && shift <= 128
    ensures Value(addr) == (Value(start) + i * Pow2(shift)) % Pow2(128)
  {
    hide AddsUp, Value, Pow2, MovedUp;
    var add := PlaceIndex(i, shift);
    var out := new Byte[16](k requires 0 <= k < 16 => start[k]);
    assert out[..] == start;
    var carry := 0;
    var b := 16;
    AddsUpBase(start, add, out[..]);
    while b > 0
      invariant 0 <= b <= 16 && 0 <= carry <= 1
      invariant AddsUp(start, add, out[..], b, carry) && out[..b] == start[..b]
    {
      ghost var out0, carry0 := out[..], carry;
      b := b - 1;
      var s := out[b] as int + add[b] as int + carry;
      assert out[b] == start[b];
      out[b] := s % 256;
      carry := s / 256;
      AddsUpSame(start, add, out0, out[..], b + 1, carry0);
      AddsUpStep(start, add, out[..], b, carry0, carry);
    }
    addr := out[..];
    AddsUpAll(start, add, addr, carry);
    ghost var k := MovedUpAll(i, shift);
    WrapAround(Value(start), i * Pow2(shift), Value(addr), carry, k, MovedUp(i, 64, shift));
  }

  lemma WrapAround(x: nat, y: nat, o: nat, c: nat, k: nat, m: nat)
    requires y == m + k * Pow2(128) && x + m == o + (if c == 1 then Pow2(128) else 0) && c <= 1 && o < Pow2(128)
    ensures (x + y) % Pow2(128) == o
  {
    hide Pow2;
    MulOut(c, k, Pow2(128));
    DivUnique(x + y, Pow2(128), c + k, o);
  }

  // ----- Ranges of prefixes --------------------------------------------------------------------

  /** `count` consecutive prefixes of length `prefixLen`, the first one at `start`. */
  datatype Range = Range(start: Address, prefixLen: nat, shift: nat, count: nat)

  /** The first address of prefix `i`. */
  ghost function PrefixAddr(r: Range, i: nat): nat {
    Value(r.start) + i * Pow2(r.shift)
  }

  lemma MultipleParts(x: nat, j: nat, s: nat)
    requires x == j * Pow2(s)
    ensures Shr(x, s) == j && Low(x, s) == 0
  {
    JoinAt(j, 0, s);
  }

  lemma OffBoundary(x: nat, s: nat, p: nat, j: nat)
    requires p < s && BitOf(x, p)
    ensures x != j * Pow2(s)
  {
    if x == j * Pow2(s) {
      MultipleParts(x, j, s);
      BitOfLow(x, s, p);
      ShrZero(p);
    }
  }

  lemma OnBoundary(x: nat, s: nat)
    requires Low(x, s) == 0
    ensures x == Shr(x, s) * Pow2(s)
  {
    SplitAt(x, s);
  }

  /** The index of the prefix that starts at `addr`, or INVALID when none does. */
  method AddrToBit(r: Range, addr: Address) returns (i: nat)
    requires r.shift <= 128 && r.count <= MAX_BITS
    ensures i != INVALID ==> i < r.count && Value(addr) == PrefixAddr(r, i)
    ensures i == INVALID ==> forall j: nat | j < r.count :: Value(addr) != PrefixAddr(r, j)
  {
    hide Value, Pow2, BitOf, Shr, Low, ByteBit;
    var c := Compare(addr, r.start);
    if c < 0 {
      return INVALID;
    }
    var delta := Subtract(addr, r.start);
    ghost var x := Value(delta);
    LowNothing(x);
    var p := 0;
    while p < r.shift
      invariant p <= r.shift && Low(x, p) == 0
    {
      ByteBitIsBit(delta, p);
      LowStep(x, p);
      if ByteBit(delta, p) {
        forall j: nat ensures x != j * Pow2(r.shift) {
          OffBoundary(x, r.shift, p, j);
        }
        return INVALID;
      }
      p := p + 1;
    }
    ShrIsDiv(x, r.shift);
    OnBoundary(x, r.shift);
    forall j: nat ensures x == j * Pow2(r.shift) ==> j == Shr(x, r.shift) {
      if x == j * Pow2(r.shift) {
        MultipleParts(x, j, r.shift);
      }
    }
    var q := ShiftRight(delta, r.shift);
    CapFits();
    if q.None? || q.value >= r.count {
      return INVALID;
    }
    i := q.value;
  }

  lemma CapFits()
    ensures MAX_BITS == Pow2(24) && MAX_BITS < Pow2(64) && MAX_BITS < INVALID
  {
    assert Pow2(8) == 256;
    Pow2Sum(8, 8);
    Pow2Sum(8, 16);
    Pow2Mono(25, 64);
    assert Pow2(25) == 2 * Pow2(24);
  }

  /** The `n` big-endian bytes of a number. */
  function Bytes(v: nat, n: nat): (d: seq<Byte>)
    requires v < Pow2(8 * n)
    ensures |d| == n && Value(d) == v
  {
    if n == 0 then []
    else
      Pow2Byte(n - 1);
      var d := Bytes(v / 256, n - 1) + [v % 256];
      assert d[..|d| - 1] == Bytes(v / 256, n - 1);
      d
  }

  /** `x` with its low `k` bits all set. */
  function OrMask(x: nat, k: nat): (r: nat)
    ensures x <= r == x - Low(x, k) + Pow2(k) - 1
  {
    x - Low(x, k) + Pow2(k) - 1
  }

  lemma OrMaskFits(x: nat, k: nat, n: nat)
    requires x < Pow2(n) && k <= n
    ensures OrMask(x, k) < Pow2(n)
  {
    hide Pow2, Low, Shr;
    var p, q, h := Pow2(k), Pow2(n - k), Shr(x, k);
    SplitAt(x, k);
    ShrLess(x, k, n - k);
    Pow2Sum(k, n - k);
    assert h * p == p * h;
    MulStep(p, h, q);
  }

  /** Setting low bits inside the low word, or across it, is setting them in the whole. */
  lemma OrMaskLow(h: nat, l: nat, n: nat, w: nat, k: nat)
    requires w == Pow2(n) && l < w && k <= n
    ensures OrMask(h * w + l, k) == h * w + OrMask(l, k)
  {
    hide Pow2, Low;
    JoinAt(h, l, n);
    LowLow(h * w + l, n, k);
  }

  lemma OrMaskHigh(h: nat, l: nat, n: nat, w: nat, k: nat)
    requires w == Pow2(n) && l < w
    ensures OrMask(h * w + l, n + k) == OrMask(h, k) * w + (w - 1)
  {
    hide Pow2, Low, Shr;
    JoinAt(h, l, n);
    LowSplit(h * w + l, n, k);
    Pow2Sum(k, n);
    assert OrMask(h, k) + 1 + Low(h, k) == h + Pow2(k);
    MulOut(OrMask(h, k), 1 + Low(h, k), w);
    MulOut(1, Low(h, k), w);
    MulOut(h, Pow2(k), w);
  }

  /** The last address below the mask. */
  method LastAddress(start: Address, mask: nat) returns (end: Address)
    requires 7 <= mask <= 127
    ensures Value(end) == OrMask(Value(start), 128 - mask)
  {
    hide Value, Pow2, OrMask;
    assert start == start[..8] + start[8..];
    ValueConcat(start[..8], start[8..]);
    var high, low := Value(start[..8]), Value(start[8..]);
    if mask > 64 {
      OrMaskFits(low, 128 - mask, 64);
      OrMaskLow(high, low, 64, Pow2(64), 128 - mask);
      end := start[..8] + Bytes(OrMask(low, 128 - mask), 8);
      ValueConcat(start[..8], Bytes(OrMask(low, 128 - mask), 8));
    } else {
      OrMaskFits(high, 64 - mask, 64);
      OrMaskHigh(high, low, 64, Pow2(64), 64 - mask);
      end := Bytes(OrMask(high, 64 - mask), 8) + Bytes(Pow2(64) - 1, 8);
      ValueConcat(Bytes(OrMask(high, 64 - mask), 8), Bytes(Pow2(64) - 1, 8));
    }
  }

  ghost predicate Accepted(mask: int, prefixLen: int) {
    7 <= mask <= 127 && mask <= prefixLen <= 128 && prefixLen - mask <= MAX_SHIFT
  }

  /** The range spans every prefix between its start and the last address below the mask. */
  ghost predicate Spans(r: Range, mask: nat) {
    && mask <= 128 && mask <= r.prefixLen <= 128 && r.shift == 128 - r.prefixLen
    && r.count == (OrMask(Value(r.start), 128 - mask) - Value(r.start)) / Pow2(r.shift) + 1
  }

  lemma SpanBound(x: nat, mask: nat, prefixLen: nat)
    requires mask <= prefixLen <= 128
    ensures var span := (OrMask(x, 128 - mask) - x) / Pow2(128 - prefixLen);
      span < Pow2(prefixLen - mask)
  {
    hide Pow2, Low;
    var d, s := OrMask(x, 128 - mask) - x, 128 - prefixLen;
    ShrIsDiv(d, s);
    ShrLess(d, s, prefixLen - mask);
  }

  /** A configured prefix becomes a range exactly when its lengths are acceptable. */
  method AddPrefix(start: Address, mask: int, prefixLen: int) returns (r: Option<Range>)
    ensures r.Some? <==> Accepted(mask, prefixLen)
    ensures r.Some? ==> r.value.start == start && r.value.prefixLen == prefixLen && Spans(r.value, mask)
    ensures r.Some? ==> 1 <= r.value.count <= Pow2(prefixLen - mask) <= MAX_BITS
  {
    hide Value, Pow2, OrMask;
    if mask < 7 || mask > 127 {
      return None;
    }
    if prefixLen > 128 || prefixLen < mask {
      return None;
    }
    if prefixLen - mask > MAX_SHIFT {
      return None;
    }
    var shift := 128 - prefixLen;
    var end := LastAddress(start, mask);
    var delta := Subtract(end, start);
    var span := ShiftRight(delta, shift);
    SpanBound(Value(start), mask, prefixLen);
    Pow2Mono(prefixLen - mask, 24);
    CapFits();
    if span.None? || span.value >= MAX_BITS {
      return None;
    }
    r := Some(Range(start, prefixLen, shift, span.value + 1));
  }

  /** With an aligned start the prefixes end exactly at the last address below the mask. */
  lemma AlignedEnd(r: Range, mask: nat)
    requires Spans(r, mask) && Value(r.start) % Pow2(r.shift) == 0
    ensures PrefixAddr(r, r.count) == OrMask(Value(r.start), 128 - mask) + 1
  {
    hide Pow2, Low, Shr, Value;
    var x, s, k := Value(r.start), r.shift, r.prefixLen - mask;
    ShrIsDiv(x, s);
    LowSplit(x, s, k);
    Pow2Sum(k, s);
    var m := Low(Shr(x, s), k);
    assert m < Pow2(k);
    var q: nat := Pow2(k) - m;
    var d := OrMask(x, 128 - mask) - x;
    assert d + 1 == Pow2(k) * Pow2(s) - m * Pow2(s);
    assert d + 1 == q * Pow2(s) by { MulOut(q, m, Pow2(s)); }
    assert d == (q - 1) * Pow2(s) + (Pow2(s) - 1) by { MulOut(q - 1, 1, Pow2(s)); }
    JoinAt(q - 1, Pow2(s) - 1, s);
    ShrIsDiv(d, s);
  }

  /** Only an aligned start makes the last prefix end there. */
  lemma UnalignedEnd(r: Range, mask: nat)
    requires Spans(r, mask) && PrefixAddr(r, r.count) == OrMask(Value(r.start), 128 - mask) + 1
    ensures Value(r.start) % Pow2(r.shift) == 0
  {
    hide Pow2, Low, Shr, Value;
    var x, s, k := Value(r.start), r.shift, r.prefixLen - mask;
    ShrIsDiv(x, s);
    SplitAt(x, s);
    LowSplit(x, s, k);
    Pow2Sum(k, s);
    var l, m, p := Low(x, s), Low(Shr(x, s), k), Pow2(s);
    MulOut(r.count, m, p);
    assert (r.count + m) * p + l == Pow2(k) * p + 0;
    JoinAt(r.count + m, l, s);
    JoinAt(Pow2(k), 0, s);
  }

  /** A range that is accepted although its start ends in 1: its prefixes of 16 addresses miss its end. */
  method MissedEnd(front: seq<Byte>) returns (r: Option<Range>)
    requires |front| == 15
    ensures r.Some? && r.value.start == front + [1] && Spans(r.value, 120) && r.value.prefixLen == 124
    ensures PrefixAddr(r.value, r.value.count) != OrMask(Value(front + [1]), 128 - 120) + 1
  {
    hide OrMask, PrefixAddr, Value, Pow2, Spans;
    r := AddPrefix(front + [1], 120, 124);
    SixteenLeft(front);
    SpansShift(r.value, 120);
    if PrefixAddr(r.value, r.value.count) == OrMask(Value(front + [1]), 128 - 120) + 1 {
      UnalignedEnd(r.value, 120);
    }
  }

  lemma SpansShift(r: Range, mask: nat)
    requires Spans(r, mask)
    ensures r.shift == 128 - r.prefixLen
  {
  }

  lemma SixteenLeft(front: seq<Byte>)
    ensures Value(front + [1]) % Pow2(4) == 1
  {
    var d := front + [1];
    assert d[..|d| - 1] == front;
    assert Pow2(2) == 4;
    assert Pow2(4) == 16;
  }

  /** Address `x` lies in prefix `i`. */
  ghost predicate InPrefix(r: Range, i: nat, x: nat) {
    PrefixAddr(r, i) <= x < PrefixAddr(r, i) + Pow2(r.shift)
  }

  /** With an aligned start every address of the span lies in exactly one of the prefixes, and nothing else does. */
  lemma Partition(r: Range, mask: nat, x: nat)
    requires Spans(r, mask) && Value(r.start) % Pow2(r.shift) == 0
    ensures Value(r.start) <= x <= OrMask(Value(r.start), 128 - mask) <==> exists i: nat :: i < r.count && InPrefix(r, i, x)
    ensures forall i: nat, j: nat | InPrefix(r, i, x) && InPrefix(r, j, x) :: i == j
  {
    hide Pow2, Value, OrMask, PrefixAddr, InPrefix;
    AlignedEnd(r, mask);
    forall i: nat, j: nat | InPrefix(r, i, x) && InPrefix(r, j, x) ensures i == j {
      SamePrefix(r, i, j, x);
    }
    if Value(r.start) <= x <= OrMask(Value(r.start), 128 - mask) {
      PrefixOf(r, x);
    }
    if i: nat :| i < r.count && InPrefix(r, i, x) {
      BelowEnd(r, i, x);
    }
  }

  lemma BelowEnd(r: Range, i: nat, x: nat)
    requires i < r.count && InPrefix(r, i, x)
    ensures Value(r.start) <= x < PrefixAddr(r, r.count)
  {
    hide Pow2, Value;
    MulStep(Pow2(r.shift), i, r.count);
  }

  lemma SamePrefix(r: Range, i: nat, j: nat, x: nat)
    requires InPrefix(r, i, x) && InPrefix(r, j, x)
    ensures i == j
  {
    hide Pow2, Value;
    if i < j {
      MulStep(Pow2(r.shift), i, j);
    } else if j < i {
      MulStep(Pow2(r.shift), j, i);
    }
  }

  lemma PrefixOf(r: Range, x: nat)
    requires Value(r.start) <= x < PrefixAddr(r, r.count)
    ensures exists i: nat :: i < r.count && InPrefix(r, i, x)
  {
    hide Pow2, Value, Shr, Low;
    var d := x - Value(r.start);
    SplitAt(d, r.shift);
    var i := Shr(d, r.shift);
    if i >= r.count {
      if i > r.count {
        MulStep(Pow2(r.shift), r.count, i);
      }
      assert false;
    }
    assert InPrefix(r, i, x);
  }

  /** Leasing prefix `i` and looking its address up again gives `i` back. */
  method RoundTrip(r: Range, mask: nat, i: nat) returns (j: nat)
    requires Spans(r, mask) && r.count <= MAX_BITS && i < r.count
    ensures j == i
  {
    hide Pow2, Value;
    CapFits();
    InsideSpan(r, mask, i);
    var a := IndexToAddr(r.start, i, r.shift);
    DivUnique(PrefixAddr(r, i), Pow2(128), 0, PrefixAddr(r, i));
    assert Value(a) == PrefixAddr(r, i);
    j := AddrToBit(r, a);
    assert j != INVALID;
    assert InPrefix(r, i, Value(a)) && InPrefix(r, j, Value(a));
    SamePrefix(r, i, j, Value(a));
  }

  lemma InsideSpan(r: Range, mask: nat, i: nat)
    requires Spans(r, mask) && i < r.count
    ensures PrefixAddr(r, i) <= OrMask(Value(r.start), 128 - mask) < Pow2(128)
  {
    hide Pow2, Value, Low, Shr;
    var x, d := Value(r.start), OrMask(Value(r.start), 128 - mask) - Value(r.start);
    OrMaskFits(x, 128 - mask, 128);
    ShrIsDiv(d, r.shift);
    SplitAt(d, r.shift);
    if i < r.count - 1 {
      MulStep(Pow2(r.shift), i, r.count - 1);
    }
  }
}
