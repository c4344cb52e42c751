/**
  One contiguous address range: the arithmetic between block numbers and peer addresses, and the
  bookkeeping of its bitmap, its cursor and its `used` counter.
 */
module IpRange {
  import opened Base
  import opened Bitmap

  const MAX_BITS: nat := 0x100_0000
  const ADDR_LIMIT: nat := 0x1_0000_0000

  /** A configured range in host byte order: block `b` starts at `start + b * step`. */
  datatype Conf = Conf(start: nat, end: nat, step: nat, peerOffset: nat, count: nat)

  /** The two allocators: point-to-point blocks of one address, and /30 blocks of four. */
  predicate Allocator(step: nat, peerOffset: nat) {
    (step == 1 && peerOffset == 0) || (step == 4 && peerOffset == 2)
  }

  predicate WfConf(c: Conf) {
    && Allocator(c.step, c.peerOffset)
    && c.start <= c.end < ADDR_LIMIT
    && c.count == (c.end - c.start + 1) / c.step
    && 1 <= c.count <= MAX_BITS
  }

  function AddRange(start: nat, end: nat, step: nat, peerOffset: nat): (c: Option<Conf>)
    requires start < ADDR_LIMIT && end < ADDR_LIMIT && Allocator(step, peerOffset)
    ensures c.Some? <==> start <= end && step <= end - start + 1 < (MAX_BITS + 1) * step
    ensures c.Some? ==> WfConf(c.value) && c.value.start == start && c.value.end == end && c.value.step == step
  {
    if end < start then None
    else
      var count := (end - start + 1) / step;
      if count == 0 || count > MAX_BITS then None else Some(Conf(start, end, step, peerOffset, count))
  }

  /** The peer address handed out for block `bit`, computed in 32-bit arithmetic. */
  function PeerAddr(c: Conf, bit: nat): nat {
    var base := (c.start + bit * c.step) % ADDR_LIMIT;
    (base + c.peerOffset) % ADDR_LIMIT
  }

  function AddrToBit(c: Conf, peer: nat): nat
    requires c.step > 0
  {
    if peer < c.peerOffset then INVALID
    else
      var base := peer - c.peerOffset;
      if base < c.start then INVALID
      else
        var delta := base - c.start;
        if delta % c.step != 0 then INVALID
        else
          var bit := delta / c.step;
          if bit >= c.count then INVALID else bit
  }

  predicate Contains(c: Conf, peer: nat)
    requires c.step > 0
  {
    AddrToBit(c, peer) != INVALID
  }

  lemma PeerAddrExact(c: Conf, bit: nat)
    requires WfConf(c) && bit < c.count
    ensures PeerAddr(c, bit) == c.start + bit * c.step + c.peerOffset <= c.end
  {
    if c.step == 1 {
      assert bit * c.step == bit;
    } else {
      assert bit * c.step == bit * 4 && c.end - c.start + 1 >= c.count * 4;
    }
  }

  /** Blocks and peer addresses correspond one to one, inside the range and without wrap-around. */
  lemma BitAddress(c: Conf, bit: nat)
    requires WfConf(c) && bit < c.count
    ensures AddrToBit(c, PeerAddr(c, bit)) == bit && c.start <= PeerAddr(c, bit) <= c.end
  {
    PeerAddrExact(c, bit);
    if c.step == 1 {
      assert bit * c.step == bit;
    } else {
      assert bit * c.step == bit * 4;
    }
  }

  lemma AddressBit(c: Conf, peer: nat)
    requires WfConf(c) && Contains(c, peer)
    ensures AddrToBit(c, peer) < c.count && PeerAddr(c, AddrToBit(c, peer)) == peer
  {
    var bit := AddrToBit(c, peer);
    PeerAddrExact(c, bit);
    if c.step == 1 {
      assert bit * c.step == bit;
    } else {
      assert bit * c.step == bit * 4;
    }
  }

  // ----- Bookkeeping ---------------------------------------------------------------------------

  datatype Range = Range(conf: Conf, bitmap: seq<bv64>, cursor: nat, used: nat)

  function Words(count: nat): nat {
    (count + WORD_BITS - 1) / WORD_BITS
  }

  predicate Sized(r: Range) {
    |r.bitmap| == Words(r.conf.count)
  }

  predicate Taken(r: Range, bit: nat)
    requires Sized(r) && bit < r.conf.count
  {
    Test(r.bitmap, bit)
  }

  /** Number of set bits below `n`. */
  function CountSet(bm: seq<bv64>, n: nat): nat
    requires n <= WORD_BITS * |bm|
  {
    if n == 0 then 0 else CountSet(bm, n - 1) + if Test(bm, n - 1) then 1 else 0
  }

  predicate WfRange(r: Range) {
    WfConf(r.conf) && Sized(r) && r.used == CountSet(r.bitmap, r.conf.count)
  }

  lemma {:induction false} CountChange(bm: seq<bv64>, bm': seq<bv64>, i: nat, n: nat)
    requires |bm'| == |bm| && n <= WORD_BITS * |bm| && i < WORD_BITS * |bm|
    requires Test(bm', i) && !Test(bm, i)
    requires forall j: nat | j < WORD_BITS * |bm| && j != i :: Test(bm', j) == Test(bm, j)
    ensures CountSet(bm', n) == CountSet(bm, n) + if i < n then 1 else 0
  {
    hide Test;
    if n > 0 {
      CountChange(bm, bm', i, n - 1);
    }
  }

  lemma {:induction false} CountSame(bm: seq<bv64>, bm': seq<bv64>, n: nat)
    requires |bm'| == |bm| && n <= WORD_BITS * |bm|
    requires forall j: nat | j < n :: Test(bm', j) == Test(bm, j)
    ensures CountSet(bm', n) == CountSet(bm, n)
  {
    hide Test;
    if n > 0 {
      CountSame(bm, bm', n - 1);
    }
  }

  /** Marks a block as taken; an already taken block is left alone. */
  function Reserve(r: Range, bit: nat): (r': Range)
    requires Sized(r) && bit < r.conf.count
    ensures r'.conf == r.conf && r'.cursor == r.cursor && Sized(r')
    ensures forall j: nat | j < r.conf.count :: Taken(r', j) <==> Taken(r, j) || j == bit
    ensures WfRange(r) ==> WfRange(r')
  {
    hide Test;
    if Test(r.bitmap, bit) then r
    else
      var bm := SetBit(r.bitmap, bit);
      CountChange(r.bitmap, bm, bit, r.conf.count);
      r.(bitmap := bm, used := r.used + 1)
  }

  /** Frees a block; an already free block is left alone. */
  function Release(r: Range, bit: nat): (r': Range)
    requires WfRange(r) && bit < r.conf.count
    ensures r'.conf == r.conf && r'.cursor == r.cursor && WfRange(r')
    ensures forall j: nat | j < r.conf.count :: Taken(r', j) <==> Taken(r, j) && j != bit
  {
    hide Test;
    if Test(r.bitmap, bit) then
      var bm := ClearBit(r.bitmap, bit);
      CountChange(bm, r.bitmap, bit, r.conf.count);
      r.(bitmap := bm, used := r.used - 1)
    else r
  }

  /** The search for a block to hand out, starting from `from`. */
  predicate Chosen(r: Range, from: nat, bit: nat)
    requires Sized(r)
  {
    FirstFree(r.bitmap, r.conf.count, StartOf(r.conf.count, from), bit)
  }

  predicate Full(r: Range)
    requires Sized(r)
  {
    AllTaken(r.bitmap, r.conf.count)
  }

  /** A block is handed out: its bit is set and the cursor moves past it. */
  function Grant(r: Range, bit: nat): (r': Range)
    requires Sized(r) && bit < r.conf.count && !Taken(r, bit)
    ensures r'.conf == r.conf && r'.cursor == bit + 1 && Sized(r')
    ensures forall j: nat | j < r.conf.count :: Taken(r', j) <==> Taken(r, j) || j == bit
    ensures WfRange(r) ==> WfRange(r')
  {
    Reserve(r, bit).(cursor := bit + 1)
  }

  // ----- Construction --------------------------------------------------------------------------

  /** The block a configured gateway address would collide with, if any; only for one-address blocks. */
  predicate GatewayBit(c: Conf, gw: nat, bit: nat) {
    c.step == 1 && c.peerOffset == 0 && gw != 0 && c.start <= gw <= c.end && bit == gw - c.start
  }

  /** Builds the bitmap of a range: surplus bits and the gateway's block start out taken. */
  method Finalize(c: Conf, gw: nat) returns (r: Range)
    requires WfConf(c)
    ensures WfRange(r) && r.conf == c && r.cursor == 0
    ensures forall j: nat | j < c.count :: Taken(r, j) <==> GatewayBit(c, gw, j)
    ensures forall j: nat | c.count <= j < WORD_BITS * Words(c.count) :: Test(r.bitmap, j)
  {
    hide Bit;
    var nw := Words(c.count);
    var bm := new bv64[nw](_ => 0);
    forall j: nat | j < WORD_BITS * nw ensures !Test(bm[..], j) {
      ZeroBits(bm[j / WORD_BITS]);
    }
    var b := c.count;
    while b < nw * WORD_BITS
      invariant c.count <= b <= nw * WORD_BITS
      invariant forall j: nat | j < WORD_BITS * nw :: Test(bm[..], j) <==> c.count <= j < b
    {
      Set(bm, b);
      b := b + 1;
    }
    CountNone(bm[..], c.count);
    r := Range(c, bm[..], 0, 0);
    if c.step == 1 && c.peerOffset == 0 && gw != 0 {
      if c.start <= gw <= c.end {
        var bit := gw - c.start;
        if bit < c.count && !Test(bm[..], bit) {
          CountChange(bm[..], SetBit(bm[..], bit), bit, c.count);
          Set(bm, bit);
          r := Range(c, bm[..], 0, 1);
        }
      }
    }
  }

  lemma {:induction false} CountNone(bm: seq<bv64>, n: nat)
    requires n <= WORD_BITS * |bm| && forall j: nat | j < n :: !Test(bm, j)
    ensures CountSet(bm, n) == 0
  {
    hide Test;
    if n > 0 {
      CountNone(bm, n - 1);
    }
  }

  // ----- Fairness of the cursor ----------------------------------------------------------------

  /** What can happen to one range between two reloads, when addresses are not shuffled. */
  datatype Event = Granted(bit: nat) | Freed(bit: nat) | Idle

  predicate Next(r: Range, r': Range, e: Event) {
    && WfRange(r)
    && match e
       case Granted(b) => Chosen(r, r.cursor, b) && r' == Grant(r, b)
       case Freed(b) => b < r.conf.count && r' == Release(r, b)
       case Idle => r' == r
  }

  predicate Run(rs: seq<Range>, es: seq<Event>) {
    |rs| == |es| + 1 && WfRange(rs[0]) && forall k | 0 <= k < |es| :: Next(rs[k], rs[k + 1], es[k])
  }

  lemma {:induction false} RunConf(rs: seq<Range>, es: seq<Event>, k: nat)
    requires Run(rs, es) && k < |rs|
    ensures WfRange(rs[k]) && rs[k].conf == rs[0].conf
  {
    if k > 0 {
      RunConf(rs, es, k - 1);
      assert Next(rs[k - 1], rs[k], es[k - 1]);
    }
  }

  /** Passing over a block that stays free leaves it ahead of the cursor on the way back to `b`. */
  lemma StillAhead(count: nat, s: nat, c: nat, b: nat, g: nat)
    requires s < count && c < count && b < count && g < count && c != g && c != b
    requires Precedes(s, c, b) && !Precedes(s, c, g)
    ensures Precedes(StartOf(count, g + 1), c, b)
  {
  }

  lemma {:induction false} Ahead(rs: seq<Range>, es: seq<Event>, i: nat, k: nat, b: nat, c: nat)
    requires Run(rs, es) && i < k < |rs| && es[i] == Granted(b)
    requires c < rs[0].conf.count && c != b
    requires forall m | i < m <= k :: WfRange(rs[m]) && rs[m].conf == rs[0].conf && !Taken(rs[m], c)
    ensures Precedes(StartOf(rs[0].conf.count, rs[k].cursor), c, b) && b < rs[0].conf.count
    decreases k
  {
    hide Test;
    RunConf(rs, es, k - 1);
    assert Next(rs[k - 1], rs[k], es[k - 1]);
    if k - 1 > i {
      Ahead(rs, es, i, k - 1, b, c);
      if es[k - 1].Granted? {
        var g := es[k - 1].bit;
        assert Taken(rs[k], g);
        StillAhead(rs[0].conf.count, StartOf(rs[0].conf.count, rs[k - 1].cursor), c, b, g);
      }
    }
  }

  /** Between two grants of the same block every other block of the range was taken at some moment. */
  lemma CyclicFairness(rs: seq<Range>, es: seq<Event>, i: nat, j: nat, b: nat, c: nat)
    requires Run(rs, es) && i < j < |es| && es[i] == es[j] == Granted(b)
    requires c < rs[0].conf.count && c != b
    ensures exists k :: i < k <= j && Sized(rs[k]) && c < rs[k].conf.count && Taken(rs[k], c)
  {
    hide Test;
    forall k | 0 <= k < |rs| ensures WfRange(rs[k]) && rs[k].conf == rs[0].conf {
      RunConf(rs, es, k);
    }
    assert Next(rs[j], rs[j + 1], es[j]);
    if forall m | i < m <= j :: !Taken(rs[m], c) {
      Ahead(rs, es, i, j, b, c);
      assert false;
    }
  }
}
