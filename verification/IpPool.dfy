/**
  IPv4 address pools: named pools of ranges with overflow chains, leases held by sessions, and the
  live reload that rebuilds every pool and reattaches the leases.
 */
module IpPool {
  import opened Base
  import opened Bitmap
  import opened IpRange

  /** A range inside a pool set. */
  datatype Loc = Loc(pool: nat, range: nat)

  datatype Pool = Pool(name: string, next: Option<nat>, ranges: seq<Range>)

  /** `pools[0]` is the unnamed default pool, the others are the named ones in list order. */
  datatype PoolSet = PoolSet(pools: seq<Pool>, gw: nat, shuffle: bool, disconnect: bool)

  predicate ValidLoc(s: PoolSet, l: Loc) {
    l.pool < |s.pools| && l.range < |s.pools[l.pool].ranges|
  }

  function RangeAt(s: PoolSet, l: Loc): Range
    requires ValidLoc(s, l)
  {
    s.pools[l.pool].ranges[l.range]
  }

  ghost predicate WfSet(s: PoolSet) {
    && (forall l | ValidLoc(s, l) :: WfRange(RangeAt(s, l)))
    && (forall i | 0 <= i < |s.pools| && s.pools[i].next.Some? :: s.pools[i].next.value < |s.pools|)
  }

  ghost predicate StepsOk(s: PoolSet) {
    forall l | ValidLoc(s, l) :: RangeAt(s, l).conf.step > 0
  }

  /** No two ranges of the set hand out the same peer address. */
  ghost predicate Disjoint(s: PoolSet)
    requires StepsOk(s)
  {
    forall l, m, a | ValidLoc(s, l) && ValidLoc(s, m) && Contains(RangeAt(s, l).conf, a) && Contains(RangeAt(s, m).conf, a) ::
      l == m
  }

  function PutRange(s: PoolSet, l: Loc, r: Range): (s': PoolSet)
    requires ValidLoc(s, l)
    ensures forall m :: ValidLoc(s', m) <==> ValidLoc(s, m)
    ensures forall m | ValidLoc(s, m) :: RangeAt(s', m) == if m == l then r else RangeAt(s, m)
    ensures |s'.pools| == |s.pools| && s'.gw == s.gw && s'.shuffle == s.shuffle && s'.disconnect == s.disconnect
    ensures forall i | 0 <= i < |s.pools| :: s'.pools[i].next == s.pools[i].next && s'.pools[i].name == s.pools[i].name
  {
    var p := s.pools[l.pool];
    s.(pools := s.pools[l.pool := p.(ranges := p.ranges[l.range := r])])
  }

  // ----- Finding the range that owns an address ------------------------------------------------

  /** First named pool with this name, at index `i` or later. */
  function FindPool(s: PoolSet, name: string, i: nat := 1): (p: Option<nat>)
    ensures p.Some? ==> i <= p.value < |s.pools| && s.pools[p.value].name == name
    ensures forall k | i <= k < (if p.Some? then p.value else |s.pools|) :: s.pools[k].name != name
    decreases |s.pools| - i
  {
    if i >= |s.pools| then None
    else if s.pools[i].name == name then Some(i)
    else FindPool(s, name, i + 1)
  }

  /** First range of pool `p`, at index `i` or later, that contains the address. */
  function FirstRange(s: PoolSet, p: nat, a: nat, i: nat := 0): (l: Option<Loc>)
    requires p < |s.pools| && StepsOk(s)
    ensures l.Some? ==> ValidLoc(s, l.value) && l.value.pool == p && Contains(RangeAt(s, l.value).conf, a)
    ensures forall m | ValidLoc(s, m) && m.pool == p && i <= m.range && (l.Some? ==> m.range < l.value.range) ::
      !Contains(RangeAt(s, m).conf, a)
    decreases |s.pools[p].ranges| - i
  {
    if i >= |s.pools[p].ranges| then None
    else
      assert ValidLoc(s, Loc(p, i));
      if Contains(RangeAt(s, Loc(p, i)).conf, a) then Some(Loc(p, i))
      else FirstRange(s, p, a, i + 1)
  }

  /** List order of ranges: pool by pool. */
  predicate Earlier(m: Loc, l: Loc) {
    m.pool < l.pool || (m.pool == l.pool && m.range < l.range)
  }

  function FirstPool(s: PoolSet, a: nat, i: nat): (l: Option<Loc>)
    requires StepsOk(s)
    ensures l.Some? ==> ValidLoc(s, l.value) && Contains(RangeAt(s, l.value).conf, a)
    ensures forall m | ValidLoc(s, m) && i <= m.pool && (l.Some? ==> Earlier(m, l.value)) :: !Contains(RangeAt(s, m).conf, a)
    decreases |s.pools| - i
  {
    if i >= |s.pools| then None
    else
      var l := FirstRange(s, i, a);
      if l.Some? then l else FirstPool(s, a, i + 1)
  }

  /** The range owning an address: the preferred pool first, then the default, then the named pools. */
  function FindTarget(s: PoolSet, a: nat, pref: Option<string>): (l: Option<Loc>)
    requires StepsOk(s)
    ensures l.Some? ==> ValidLoc(s, l.value) && Contains(RangeAt(s, l.value).conf, a)
    ensures l.None? ==> forall m | ValidLoc(s, m) :: !Contains(RangeAt(s, m).conf, a)
  {
    var p := if pref.Some? then FindPool(s, pref.value) else None;
    var l := if p.Some? then FirstRange(s, p.value, a) else None;
    if l.Some? then l else FirstPool(s, a, 0)
  }

  /** `p` is the first named pool with this name. */
  ghost predicate NamedFirst(s: PoolSet, name: string, p: nat) {
    1 <= p < |s.pools| && s.pools[p].name == name && forall k | 1 <= k < p :: s.pools[k].name != name
  }

  /** Of all ranges that contain the address, the first in list order, but one of the preferred pool before all others. */
  lemma TargetFirst(s: PoolSet, a: nat, pref: Option<string>, m: Loc)
    requires StepsOk(s) && ValidLoc(s, m) && Contains(RangeAt(s, m).conf, a)
    ensures FindTarget(s, a, pref).Some?
    ensures var l := FindTarget(s, a, pref).value;
      if pref.Some? && NamedFirst(s, pref.value, m.pool) then l.pool == m.pool && l.range <= m.range
      else (pref.Some? && NamedFirst(s, pref.value, l.pool)) || !Earlier(m, l)
  {
    hide AddrToBit, Contains;
    if pref.Some? && NamedFirst(s, pref.value, m.pool) {
      assert FindPool(s, pref.value) == Some(m.pool);
    }
  }

  /** Two sets that differ only in bitmaps, cursors and counters. */
  ghost predicate SameShape(s: PoolSet, s': PoolSet) {
    && |s'.pools| == |s.pools| && s'.gw == s.gw && s'.shuffle == s.shuffle && s'.disconnect == s.disconnect
    && (forall i | 0 <= i < |s.pools| :: s'.pools[i].name == s.pools[i].name && s'.pools[i].next == s.pools[i].next)
    && (forall l :: ValidLoc(s', l) <==> ValidLoc(s, l))
    && (forall l | ValidLoc(s, l) :: RangeAt(s', l).conf == RangeAt(s, l).conf)
  }

  lemma {:induction false} SameFirstRange(s: PoolSet, s': PoolSet, p: nat, a: nat, i: nat)
    requires SameShape(s, s') && StepsOk(s) && StepsOk(s') && p < |s.pools|
    ensures FirstRange(s', p, a, i) == FirstRange(s, p, a, i)
    decreases |s.pools[p].ranges| - i
  {
    assert ValidLoc(s', Loc(p, i)) <==> ValidLoc(s, Loc(p, i));
    if ValidLoc(s, Loc(p, i)) {
      SameFirstRange(s, s', p, a, i + 1);
    }
  }

  lemma {:induction false} SameFirstPool(s: PoolSet, s': PoolSet, a: nat, i: nat)
    requires SameShape(s, s') && StepsOk(s) && StepsOk(s')
    ensures FirstPool(s', a, i) == FirstPool(s, a, i)
    decreases |s.pools| - i
  {
    if i < |s.pools| {
      SameFirstRange(s, s', i, a, 0);
      SameFirstPool(s, s', a, i + 1);
    }
  }

  lemma {:induction false} SameFindPool(s: PoolSet, s': PoolSet, name: string, i: nat)
    requires SameShape(s, s')
    ensures FindPool(s', name, i) == FindPool(s, name, i)
    decreases |s.pools| - i
  {
    if i < |s.pools| {
      SameFindPool(s, s', name, i + 1);
    }
  }

  /** Where an address belongs does not depend on what is currently taken. */
  lemma SameTarget(s: PoolSet, s': PoolSet, a: nat, pref: Option<string>)
    requires SameShape(s, s') && StepsOk(s) && StepsOk(s')
    ensures FindTarget(s', a, pref) == FindTarget(s, a, pref)
  {
    if pref.Some? {
      SameFindPool(s, s', pref.value, 1);
      var p := FindPool(s, pref.value);
      if p.Some? {
        SameFirstRange(s, s', p.value, a, 0);
      }
    }
    SameFirstPool(s, s', a, 0);
  }

  // ----- Sessions and the invariant ------------------------------------------------------------

  /** What a session holds: nothing, a lease of these pools (or an orphan of them), or a foreign address. */
  datatype Holding = Nothing | Pooled(at: Option<Loc>, addr: nat) | Foreign(addr: nat)

  datatype Session = Session(poolName: Option<string>, ip: Holding)

  datatype State = State(cur: PoolSet, sessions: map<nat, Session>)

  /** The record handed to the session: peer address, own address and prefix length. */
  datatype Item = Item(peer: nat, addr: nat, mask: nat)

  /** A lease is attached to the range whose taken bit it stands for; an orphan is in no range. */
  ghost predicate LeaseOk(s: PoolSet, h: Holding)
    requires WfSet(s)
  {
    h.Pooled? ==>
      match h.at
      case Some(l) => ValidLoc(s, l) && Contains(RangeAt(s, l).conf, h.addr) && HasBit(RangeAt(s, l), h.addr)
      case None => forall m | ValidLoc(s, m) :: !Contains(RangeAt(s, m).conf, h.addr)
  }

  predicate HasBit(r: Range, a: nat)
    requires WfRange(r) && Contains(r.conf, a)
  {
    Taken(r, AddrToBit(r.conf, a))
  }

  ghost predicate Inv(st: State) {
    && WfSet(st.cur) && Disjoint(st.cur)
    && (forall i | i in st.sessions :: LeaseOk(st.cur, st.sessions[i].ip))
    && (forall i, j | i in st.sessions && j in st.sessions && i != j
          && st.sessions[i].ip.Pooled? && st.sessions[j].ip.Pooled? ::
          st.sessions[i].ip.addr != st.sessions[j].ip.addr)
  }

  /** Session `id` is granted block `bit` of range `l`. */
  ghost predicate GetStep(st: State, st': State, id: nat, l: Loc, bit: nat, from: nat) {
    && id in st.sessions && st.sessions[id].ip.Nothing?
    && ValidLoc(st.cur, l) && WfRange(RangeAt(st.cur, l))
    && Chosen(RangeAt(st.cur, l), from, bit)
    && st'.cur == PutRange(st.cur, l, Grant(RangeAt(st.cur, l), bit))
    && st'.sessions == st.sessions[id := st.sessions[id].(ip := Pooled(Some(l), PeerAddr(RangeAt(st.cur, l).conf, bit)))]
  }

  /** Changing one range keeps every lease whose bit stays set. */
  lemma LeaseKept(s: PoolSet, l: Loc, r: Range, h: Holding)
    requires WfSet(s) && ValidLoc(s, l) && LeaseOk(s, h) && WfRange(r) && r.conf == RangeAt(s, l).conf
    requires h.Pooled? && h.at == Some(l) ==> HasBit(r, h.addr)
    ensures WfSet(PutRange(s, l, r)) && LeaseOk(PutRange(s, l, r), h)
  {
    hide AddrToBit, Taken;
    var s' := PutRange(s, l, r);
    if h.Pooled? && h.at.None? {
      forall m | ValidLoc(s', m) ensures !Contains(RangeAt(s', m).conf, h.addr) {
        assert ValidLoc(s, m);
      }
    }
  }

  lemma GetKeepsInv(st: State, st': State, id: nat, l: Loc, bit: nat, from: nat)
    requires Inv(st) && GetStep(st, st', id, l, bit, from)
    ensures Inv(st')
  {
    hide Test, AddrToBit, PeerAddr;
    var r := RangeAt(st.cur, l);
    var a, r' := PeerAddr(r.conf, bit), Grant(r, bit);
    BitAddress(r.conf, bit);
    assert HasBit(r', a);
    forall i | i in st'.sessions ensures LeaseOk(st'.cur, st'.sessions[i].ip) {
      if i != id {
        var h := st.sessions[i].ip;
        assert LeaseOk(st.cur, h);
        if h.Pooled? && h.at == Some(l) {
          AddressBit(r.conf, h.addr);
        }
        LeaseKept(st.cur, l, r', h);
      }
    }
    forall i | i in st.sessions && i != id && st.sessions[i].ip.Pooled? ensures st.sessions[i].ip.addr != a {
      assert LeaseOk(st.cur, st.sessions[i].ip);
    }
  }

  /** Session `id` is unlisted; a lease still attached to a range frees its block. */
  ghost predicate PutStep(st: State, st': State, id: nat) {
    && id in st.sessions && st'.sessions == st.sessions - {id}
    && match st.sessions[id].ip
       case Pooled(Some(l), a) =>
         && ValidLoc(st.cur, l) && WfRange(RangeAt(st.cur, l)) && Contains(RangeAt(st.cur, l).conf, a)
         && AddrToBit(RangeAt(st.cur, l).conf, a) < RangeAt(st.cur, l).conf.count
         && st'.cur == PutRange(st.cur, l, Release(RangeAt(st.cur, l), AddrToBit(RangeAt(st.cur, l).conf, a)))
       case _ => st'.cur == st.cur
  }

  lemma PutKeepsInv(st: State, st': State, id: nat)
    requires Inv(st) && PutStep(st, st', id)
    ensures Inv(st')
  {
    hide Test, AddrToBit;
    assert LeaseOk(st.cur, st.sessions[id].ip);
    match st.sessions[id].ip
    case Pooled(Some(l), a) =>
      var r := RangeAt(st.cur, l);
      var r' := Release(r, AddrToBit(r.conf, a));
      forall i | i in st'.sessions ensures LeaseOk(st'.cur, st'.sessions[i].ip) {
        var h := st.sessions[i].ip;
        assert LeaseOk(st.cur, h);
        if h.Pooled? && h.at == Some(l) {
          AddressBit(r.conf, h.addr);
          AddressBit(r.conf, a);
          assert AddrToBit(r.conf, h.addr) != AddrToBit(r.conf, a);
        }
        LeaseKept(st.cur, l, r', h);
      }
      DisjointKept(st.cur, l, r');
    case _ =>
  }

  lemma DisjointKept(s: PoolSet, l: Loc, r: Range)
    requires WfSet(s) && Disjoint(s) && ValidLoc(s, l) && WfRange(r) && r.conf == RangeAt(s, l).conf
    ensures WfSet(PutRange(s, l, r)) && Disjoint(PutRange(s, l, r))
  {
    hide AddrToBit, WfRange;
  }

  // ----- Overflow chains -----------------------------------------------------------------------

  /** The pool reached after `k` hops along the overflow chain. */
  ghost function Hop(s: PoolSet, start: nat, k: nat): (p: Option<nat>)
    requires start < |s.pools| && NextsOk(s)
    ensures p.Some? ==> p.value < |s.pools|
  {
    if k == 0 then Some(start)
    else
      var p := Hop(s, start, k - 1);
      if p.None? then None else s.pools[p.value].next
  }

  ghost predicate NextsOk(s: PoolSet) {
    forall i | 0 <= i < |s.pools| && s.pools[i].next.Some? :: s.pools[i].next.value < |s.pools|
  }

  /** The walk ends after `k` hops: the chain is over, or it is back where it began. */
  ghost predicate Stops(s: PoolSet, start: nat, k: nat)
    requires start < |s.pools| && NextsOk(s)
  {
    k > 0 && (Hop(s, start, k).None? || Hop(s, start, k) == Some(start))
  }

  ghost predicate ChainEnds(s: PoolSet, start: nat)
    requires start < |s.pools| && NextsOk(s)
  {
    exists k :: Stops(s, start, k)
  }

  /** Every overflow chain ends or returns to its start. */
  ghost predicate ChainsOk(s: PoolSet) {
    NextsOk(s) && forall i | 0 <= i < |s.pools| :: ChainEnds(s, i)
  }

  /** The walk gets as far as hop `k`. */
  ghost predicate Visited(s: PoolSet, start: nat, k: nat)
    requires start < |s.pools| && NextsOk(s)
  {
    Hop(s, start, k).Some? && forall j | 0 <= j <= k :: !Stops(s, start, j)
  }

  /** The first `n` ranges of pool `p` have no free block. */
  ghost predicate PoolFull(s: PoolSet, p: nat, n: nat)
    requires WfSet(s)
  {
    forall m | ValidLoc(s, m) && m.pool == p && m.range < n :: Full(RangeAt(s, m))
  }

  ghost predicate HopFull(s: PoolSet, start: nat, k: nat)
    requires WfSet(s) && start < |s.pools|
  {
    var p := Hop(s, start, k);
    p.Some? ==> PoolFull(s, p.value, |s.pools[p.value].ranges|)
  }

  /** Where the search of a range begins. */
  function From(s: PoolSet, r: Range, rnd: nat): nat {
    if s.shuffle then (if r.conf.count > 0 then rnd % r.conf.count else 0) else r.cursor
  }

  /** `l` is the first range with a free block along the chain, and `bit` the block chosen in it. */
  ghost predicate FirstAlongChain(s: PoolSet, start: nat, rnd: nat, l: Loc, bit: nat, k: nat)
    requires WfSet(s) && start < |s.pools|
  {
    && ValidLoc(s, l) && Visited(s, start, k) && Hop(s, start, k) == Some(l.pool)
    && Chosen(RangeAt(s, l), From(s, RangeAt(s, l), rnd), bit)
    && PoolFull(s, l.pool, l.range)
    && forall j | 0 <= j < k :: HopFull(s, start, j)
  }

  ghost predicate Exhausted(s: PoolSet, start: nat)
    requires WfSet(s) && start < |s.pools|
  {
    forall k: nat | Visited(s, start, k) :: HopFull(s, start, k)
  }

  /** The walk along the chain comes to an end: where it stops, or at a pool with a free block. */
  ghost predicate EndsAt(s: PoolSet, start: nat, n: nat)
    requires WfSet(s) && start < |s.pools|
  {
    Stops(s, start, n) || !HopFull(s, start, n)
  }

  ghost predicate Ends(s: PoolSet, start: nat)
    requires WfSet(s) && start < |s.pools|
  {
    exists n: nat :: EndsAt(s, start, n)
  }

  /** A chain that ends or returns to its start always ends the walk. */
  lemma ChainsEnd(s: PoolSet, start: nat)
    requires WfSet(s) && ChainsOk(s) && start < |s.pools|
    ensures Ends(s, start)
  {
    assert ChainEnds(s, start);
    var n: nat :| Stops(s, start, n);
    assert EndsAt(s, start, n);
  }

  /** More positions than values: one value occurs twice. */
  lemma {:induction false} Pigeonhole(f: seq<nat>, n: nat) returns (i: nat, j: nat)
    requires |f| > n && forall k | 0 <= k < |f| :: f[k] < n
    ensures i < j < |f| && f[i] == f[j]
    decreases n
  {
    var last := |f| - 1;
    if k: nat :| k < last && f[k] == f[last] {
      i, j := k, last;
    } else {
      // Give the value n - 1 up for the one of the last position, which is then free.
      var g := seq(last, k requires 0 <= k < last => if f[k] == n - 1 then f[last] else f[k]);
      i, j := Pigeonhole(g, n - 1);
    }
  }

  /** From equal pools on, the walk goes the same way. */
  lemma {:induction false} HopSame(s: PoolSet, start: nat, i: nat, j: nat, k: nat)
    requires start < |s.pools| && NextsOk(s) && Hop(s, start, i) == Hop(s, start, j)
    ensures Hop(s, start, i + k) == Hop(s, start, j + k)
  {
    if k > 0 {
      HopSame(s, start, i, j, k - 1);
    }
  }

  /** An end after more hops than there are pools comes after fewer hops too. */
  lemma EndsBefore(s: PoolSet, start: nat, n: nat) returns (m: nat)
    requires WfSet(s) && start < |s.pools| < n && EndsAt(s, start, n)
    ensures m < n && EndsAt(s, start, m)
  {
    hide PoolFull;
    if k: nat :| k < n && Hop(s, start, k).None? {
      m := k;
    } else {
      var f := seq(|s.pools| + 1, k requires 0 <= k <= |s.pools| => Hop(s, start, k).value);
      var i, j := Pigeonhole(f, |s.pools|);
      HopSame(s, start, i, j, n - j);
      m := i + (n - j);
    }
  }

  /** A walk that ends at all ends within as many hops as there are pools. */
  lemma {:induction false} EndsEarly(s: PoolSet, start: nat, n: nat) returns (m: nat)
    requires WfSet(s) && start < |s.pools| && EndsAt(s, start, n)
    ensures m <= |s.pools| && EndsAt(s, start, m)
    decreases n
  {
    hide EndsAt;
    if n <= |s.pools| {
      m := n;
    } else {
      m := EndsBefore(s, start, n);
      m := EndsEarly(s, start, m);
    }
  }

  /** Whether the walk ends can be told from the first `|s.pools|` hops. */
  lemma EndsExactly(s: PoolSet, start: nat)
    requires WfSet(s) && start < |s.pools|
    ensures Ends(s, start) <==> exists n: nat :: n <= |s.pools| && EndsAt(s, start, n)
  {
    hide EndsAt;
    if n: nat :| EndsAt(s, start, n) {
      var m := EndsEarly(s, start, n);
    }
  }

  /** A default pool without ranges whose overflow pool names itself as its own: the walk does not end. */
  lemma LoopingSet(name: string) returns (s: PoolSet)
    ensures s == PoolSet([Pool("", Some(1), []), Pool(name, Some(1), [])], 0, false, false)
    ensures WfSet(s) && !Ends(s, 0)
  {
    s := PoolSet([Pool("", Some(1), []), Pool(name, Some(1), [])], 0, false, false);
    assert forall l :: !ValidLoc(s, l);
    forall n: nat ensures !EndsAt(s, 0, n) {
      HopLoops(s, n);
    }
  }

  lemma {:induction false} HopLoops(s: PoolSet, k: nat)
    requires NextsOk(s) && |s.pools| == 2 && s.pools[0].next == Some(1) && s.pools[1].next == Some(1)
    ensures Hop(s, 0, k) == Some(if k == 0 then 0 else 1)
  {
    if k > 0 {
      HopLoops(s, k - 1);
    }
  }

  /** Otherwise the walk visits full pools for ever. */
  lemma {:induction false} Endless(s: PoolSet, start: nat, k: nat)
    requires WfSet(s) && start < |s.pools| && !Ends(s, start)
    ensures Visited(s, start, k) && HopFull(s, start, k)
    decreases k
  {
    hide PoolFull;
    assert !EndsAt(s, start, k);
    if k > 0 {
      Endless(s, start, k - 1);
    }
  }

  /** The first free block along the chain; the search comes back whenever the walk ends. */
  method Search(s: PoolSet, start: nat, rnd: nat) returns (found: Option<Loc>, bit: nat, ghost hops: nat)
    requires WfSet(s) && start < |s.pools| && Ends(s, start)
    ensures found.None? <==> Exhausted(s, start)
    ensures found.Some? ==> FirstAlongChain(s, start, rnd, found.value, bit, hops)
  {
    hide FirstFree, AllTaken;
    ghost var n: nat :| EndsAt(s, start, n);
    var pool := start;
    hops := 0;
    while true
      invariant Visited(s, start, hops) && Hop(s, start, hops) == Some(pool) && hops <= n
      invariant forall j | 0 <= j < hops :: HopFull(s, start, j)
      decreases n - hops
    {
      var i := 0;
      while i < |s.pools[pool].ranges|
        invariant i <= |s.pools[pool].ranges| && PoolFull(s, pool, i)
      {
        var l := Loc(pool, i);
        assert ValidLoc(s, l);
        var r := RangeAt(s, l);
        bit := FindFree(r.bitmap, r.conf.count, From(s, r, rnd));
        if bit != INVALID {
          return Some(l), bit, hops;
        }
        i := i + 1;
      }
      assert HopFull(s, start, hops);
      var next := s.pools[pool].next;
      if next.None? || next.value == start {
        assert Stops(s, start, hops + 1);
        return None, INVALID, hops;
      }
      assert hops != n;
      pool := next.value;
      hops := hops + 1;
    }
  }

  /** The block that session `id` took is given back because its lease record could not be allocated; in
      between it counts as the session's lease. */
  ghost predicate UngetStep(st: State, st': State, id: nat) {
    && id in st.sessions && st'.sessions == st.sessions[id := st.sessions[id].(ip := Nothing)]
    && match st.sessions[id].ip
       case Pooled(Some(l), a) =>
         && ValidLoc(st.cur, l) && WfRange(RangeAt(st.cur, l)) && Contains(RangeAt(st.cur, l).conf, a)
         && AddrToBit(RangeAt(st.cur, l).conf, a) < RangeAt(st.cur, l).conf.count
         && st'.cur == PutRange(st.cur, l, Release(RangeAt(st.cur, l), AddrToBit(RangeAt(st.cur, l).conf, a)))
       case _ => false
  }

  lemma UngetKeepsInv(st: State, st': State, id: nat)
    requires Inv(st) && UngetStep(st, st', id)
    ensures Inv(st')
  {
    hide Test, AddrToBit;
    var l, a := st.sessions[id].ip.at.value, st.sessions[id].ip.addr;
    assert LeaseOk(st.cur, st.sessions[id].ip);
    var r := RangeAt(st.cur, l);
    var r' := Release(r, AddrToBit(r.conf, a));
    forall i | i in st'.sessions ensures LeaseOk(st'.cur, st'.sessions[i].ip) {
      if i != id {
        var h := st.sessions[i].ip;
        assert LeaseOk(st.cur, h);
        if h.Pooled? && h.at == Some(l) {
          AddressBit(r.conf, h.addr);
          AddressBit(r.conf, a);
          assert AddrToBit(r.conf, h.addr) != AddrToBit(r.conf, a);
        }
        LeaseKept(st.cur, l, r', h);
      }
    }
    DisjointKept(st.cur, l, r');
  }

  /** A grant that is taken back because the lease record could not be allocated. */
  ghost predicate RollbackStep(st: State, st': State, l: Loc, bit: nat, from: nat) {
    && ValidLoc(st.cur, l) && WfRange(RangeAt(st.cur, l)) && Chosen(RangeAt(st.cur, l), from, bit)
    && st'.cur == PutRange(st.cur, l, Release(Grant(RangeAt(st.cur, l), bit), bit))
    && st'.sessions == st.sessions
  }

  lemma RollbackKeepsInv(st: State, st': State, l: Loc, bit: nat, from: nat)
    requires Inv(st) && RollbackStep(st, st', l, bit, from)
    ensures Inv(st')
  {
    hide Test, AddrToBit;
    var r := RangeAt(st.cur, l);
    var r' := Release(Grant(r, bit), bit);
    forall i | i in st.sessions ensures LeaseOk(st'.cur, st.sessions[i].ip) {
      var h := st.sessions[i].ip;
      assert LeaseOk(st.cur, h);
      if h.Pooled? && h.at == Some(l) {
        AddressBit(r.conf, h.addr);
      }
      LeaseKept(st.cur, l, r', h);
    }
    DisjointKept(st.cur, l, r');
  }

  /** Taking a block and giving it back are two steps, and others may come in between. */
  lemma RollbackIsSteps(st: State, st': State, id: nat, l: Loc, bit: nat, from: nat) returns (mid: State)
    requires Inv(st) && RollbackStep(st, st', l, bit, from) && id in st.sessions && st.sessions[id].ip.Nothing?
    ensures GetStep(st, mid, id, l, bit, from) && UngetStep(mid, st', id)
  {
    hide Test, AddrToBit, PeerAddr, Inv;
    var r := RangeAt(st.cur, l);
    var a := PeerAddr(r.conf, bit);
    mid := State(PutRange(st.cur, l, Grant(r, bit)), st.sessions[id := st.sessions[id].(ip := Pooled(Some(l), a))]);
    BitAddress(r.conf, bit);
    PutTwice(st.cur, l, Grant(r, bit), Release(Grant(r, bit), bit));
    assert st'.sessions == mid.sessions[id := mid.sessions[id].(ip := Nothing)];
  }

  // ----- Reload --------------------------------------------------------------------------------

  /** The range of the new set in which a session's address is reserved. */
  function Placed(s: PoolSet, ses: Session): (l: Option<Loc>)
    requires StepsOk(s)
    ensures l.Some? ==> !ses.ip.Nothing? && ValidLoc(s, l.value) && Contains(RangeAt(s, l.value).conf, ses.ip.addr)
  {
    match ses.ip
    case Nothing => None
    case Pooled(_, a) => FindTarget(s, a, ses.poolName)
    case Foreign(a) => FindTarget(s, a, None)
  }

  function Reattached(s: PoolSet, ses: Session): Session
    requires StepsOk(s)
  {
    if ses.ip.Pooled? then ses.(ip := Pooled(FindTarget(s, ses.ip.addr, ses.poolName), ses.ip.addr)) else ses
  }

  /** The session's address claims block `bit` of range `l`. */
  ghost predicate Claims(s: PoolSet, ses: Session, l: Loc, bit: nat)
    requires StepsOk(s)
  {
    Placed(s, ses) == Some(l) && AddrToBit(RangeAt(s, l).conf, ses.ip.addr) == bit
  }

  ghost predicate SomeClaim(s: PoolSet, sessions: map<nat, Session>, ids: set<nat>, l: Loc, bit: nat)
    requires StepsOk(s)
  {
    exists i :: i in ids && i in sessions && Claims(s, sessions[i], l, bit)
  }

  /** `cur` is `built` with exactly the blocks claimed by the sessions in `ids` taken in addition. */
  ghost predicate Reserved(built: PoolSet, cur: PoolSet, sessions: map<nat, Session>, ids: set<nat>) {
    && WfSet(built) && WfSet(cur) && SameShape(built, cur)
    && forall l, b | ValidLoc(built, l) && 0 <= b < RangeAt(built, l).conf.count ::
         Taken(RangeAt(cur, l), b) <==> Taken(RangeAt(built, l), b) || SomeClaim(built, sessions, ids, l, b)
  }

  /** The effect of a reload with the freshly built set `built`. */
  ghost predicate ReloadStep(st: State, st': State, built: PoolSet) {
    && Reserved(built, st'.cur, st.sessions, st.sessions.Keys)
    && st'.sessions.Keys == st.sessions.Keys
    && forall i | i in st.sessions :: st'.sessions[i] == Reattached(built, st.sessions[i])
  }

  /** After a reload a lease is an orphan exactly when no range of the new set contains its address. */
  lemma OrphanExactly(st: State, st': State, built: PoolSet, i: nat)
    requires ReloadStep(st, st', built) && i in st.sessions && st.sessions[i].ip.Pooled?
    ensures st'.sessions[i].ip.Pooled? && st'.sessions[i].ip.addr == st.sessions[i].ip.addr
    ensures st'.sessions[i].ip.at.None? <==>
      forall m | ValidLoc(st'.cur, m) :: !Contains(RangeAt(st'.cur, m).conf, st.sessions[i].ip.addr)
  {
    hide AddrToBit;
    var a, t := st.sessions[i].ip.addr, st'.sessions[i].ip.at;
    if t.Some? {
      assert ValidLoc(st'.cur, t.value);
    }
  }

  lemma ReloadKeepsInv(st: State, st': State, built: PoolSet)
    requires Inv(st) && ReloadStep(st, st', built) && Disjoint(built)
    ensures Inv(st')
  {
    hide Test, AddrToBit;
    forall i | i in st'.sessions ensures LeaseOk(st'.cur, st'.sessions[i].ip) {
      var ses := st.sessions[i];
      if ses.ip.Pooled? {
        OrphanExactly(st, st', built, i);
        var t := FindTarget(built, ses.ip.addr, ses.poolName);
        if t.Some? {
          var bit := AddrToBit(RangeAt(built, t.value).conf, ses.ip.addr);
          AddressBit(RangeAt(built, t.value).conf, ses.ip.addr);
          assert Claims(built, ses, t.value, bit);
          assert SomeClaim(built, st.sessions, st.sessions.Keys, t.value, bit);
        }
      }
    }
  }

  /** Some session lives on address `a`, wherever it got it from. */
  ghost predicate Live(sessions: map<nat, Session>, a: nat) {
    exists i :: i in sessions && !sessions[i].ip.Nothing? && sessions[i].ip.addr == a
  }

  /** In a newly built set only gateway blocks are taken. */
  ghost predicate OnlyGateways(built: PoolSet)
    requires WfSet(built)
  {
    forall l, b: nat | ValidLoc(built, l) && b < RangeAt(built, l).conf.count ::
      Taken(RangeAt(built, l), b) <==> GatewayBit(RangeAt(built, l).conf, built.gw, b)
  }

  lemma ClaimIsLive(s: PoolSet, sessions: map<nat, Session>, l: Loc, b: nat)
    requires WfSet(s) && Disjoint(s) && ValidLoc(s, l) && b < RangeAt(s, l).conf.count
    ensures SomeClaim(s, sessions, sessions.Keys, l, b) <==> Live(sessions, PeerAddr(RangeAt(s, l).conf, b))
  {
    hide AddrToBit, PeerAddr, Taken;
    var c := RangeAt(s, l).conf;
    if i :| i in sessions && Claims(s, sessions[i], l, b) {
      AddressBit(c, sessions[i].ip.addr);
    }
    if i :| i in sessions && !sessions[i].ip.Nothing? && sessions[i].ip.addr == PeerAddr(c, b) {
      BitAddress(c, b);
      OnlyOwner(s, l, sessions[i]);
      assert Claims(s, sessions[i], l, b);
    }
  }

  /** A session whose address is in a range is placed there. */
  lemma OnlyOwner(s: PoolSet, l: Loc, ses: Session)
    requires WfSet(s) && Disjoint(s) && ValidLoc(s, l) && !ses.ip.Nothing? && Contains(RangeAt(s, l).conf, ses.ip.addr)
    ensures Placed(s, ses) == Some(l)
  {
    hide AddrToBit, FindTarget, Contains;
  }

  /** After a reload a block is taken exactly when it is the gateway's or some session lives on its address. */
  lemma ReloadedExactly(st: State, st': State, built: PoolSet, l: Loc, b: nat)
    requires ReloadStep(st, st', built) && Disjoint(built) && OnlyGateways(built)
    requires ValidLoc(st'.cur, l) && b < RangeAt(st'.cur, l).conf.count
    ensures var c := RangeAt(st'.cur, l).conf;
      Taken(RangeAt(st'.cur, l), b) <==> GatewayBit(c, st'.cur.gw, b) || Live(st.sessions, PeerAddr(c, b))
  {
    hide Taken, GatewayBit, PeerAddr, SomeClaim, Live, Disjoint;
    ClaimIsLive(built, st.sessions, l, b);
  }

  // ----- The service ---------------------------------------------------------------------------

  /** The pool a session's search starts at: the first one with the name it was given, else the default pool. */
  ghost predicate StartsAt(s: PoolSet, name: Option<string>, p: nat) {
    match name
    case Some(n) => NamedFirst(s, n, p)
    case None => p == 0 < |s.pools|
  }

  function PoolFor(s: PoolSet, name: Option<string>): (p: Option<nat>)
    ensures p.Some? ==> StartsAt(s, name, p.value)
    ensures forall q: nat | StartsAt(s, name, q) :: p == Some(q)
  {
    match name
    case Some(n) => FindPool(s, n)
    case None => if |s.pools| > 0 then Some(0) else None
  }

  ghost predicate Listing(ids: seq<nat>, sessions: map<nat, Session>) {
    && (forall i :: i in ids <==> i in sessions)
    && (forall j, k | 0 <= j < k < |ids| :: ids[j] != ids[k])
  }

  /** A set as the configuration reader leaves it: ranges known, bitmaps not yet built. */
  ghost predicate RawSet(s: PoolSet) {
    (forall l | ValidLoc(s, l) :: WfConf(RangeAt(s, l).conf)) && NextsOk(s)
  }

  /** `s` with the bitmaps of the ranges before position `(i, j)` built. */
  ghost predicate BuiltUpTo(raw: PoolSet, s: PoolSet, i: nat, j: nat) {
    && SameShape(raw, s)
    && forall l | ValidLoc(s, l) && (l.pool < i || (l.pool == i && l.range < j)) ::
         WfRange(RangeAt(s, l)) && RangeAt(s, l).cursor == 0
         && forall b: nat | b < RangeAt(s, l).conf.count :: Taken(RangeAt(s, l), b) <==> GatewayBit(RangeAt(s, l).conf, s.gw, b)
  }

  /** One range more. */
  lemma BuiltOne(raw: PoolSet, s: PoolSet, i: nat, j: nat, r: Range)
    requires BuiltUpTo(raw, s, i, j) && ValidLoc(raw, Loc(i, j)) && WfRange(r) && r.cursor == 0
    requires r.conf == RangeAt(raw, Loc(i, j)).conf
    requires forall b: nat | b < r.conf.count :: Taken(r, b) <==> GatewayBit(r.conf, s.gw, b)
    ensures ValidLoc(s, Loc(i, j)) && BuiltUpTo(raw, PutRange(s, Loc(i, j), r), i, j + 1)
  {
    hide Taken, WfRange, GatewayBit;
  }

  /** One pool more. */
  lemma BuiltRow(raw: PoolSet, s: PoolSet, i: nat, j: nat)
    requires BuiltUpTo(raw, s, i, j) && i < |raw.pools| && j == |raw.pools[i].ranges|
    ensures BuiltUpTo(raw, s, i + 1, 0)
  {
    hide Taken, WfRange, GatewayBit;
    forall l | ValidLoc(s, l) && l.pool == i ensures l.range < j {
      assert ValidLoc(raw, l);
    }
  }

  lemma BuiltAll(raw: PoolSet, s: PoolSet)
    requires RawSet(raw) && BuiltUpTo(raw, s, |raw.pools|, 0)
    ensures WfSet(s)
  {
    hide Taken, GatewayBit, WfRange;
  }

  lemma BuiltNone(raw: PoolSet)
    ensures BuiltUpTo(raw, raw, 0, 0)
  {
  }

  method BuildSet(raw: PoolSet) returns (s: PoolSet)
    requires RawSet(raw)
    ensures BuiltUpTo(raw, s, |raw.pools|, 0) && WfSet(s)
  {
    hide Taken, BuiltUpTo, WfRange, GatewayBit, WfConf;
    s := raw;
    BuiltNone(raw);
    var i := 0;
    while i < |raw.pools|
      invariant i <= |raw.pools| && BuiltUpTo(raw, s, i, 0) && s.gw == raw.gw
    {
      var j := 0;
      while j < |raw.pools[i].ranges|
        invariant j <= |raw.pools[i].ranges| && BuiltUpTo(raw, s, i, j) && s.gw == raw.gw
      {
        assert ValidLoc(raw, Loc(i, j));
        var r := Finalize(RangeAt(raw, Loc(i, j)).conf, raw.gw);
        BuiltOne(raw, s, i, j, r);
        s := PutRange(s, Loc(i, j), r);
        j := j + 1;
      }
      BuiltRow(raw, s, i, j);
      i := i + 1;
    }
    BuiltAll(raw, s);
  }

  /** One reserved claim more. */
  lemma ReserveOne(built: PoolSet, cur: PoolSet, sessions: map<nat, Session>, ids: set<nat>, i: nat, l: Loc)
    requires Reserved(built, cur, sessions, ids) && i in sessions && Placed(built, sessions[i]) == Some(l)
    ensures var r := RangeAt(cur, l);
      && ValidLoc(cur, l) && AddrToBit(r.conf, sessions[i].ip.addr) < r.conf.count
      && Reserved(built, PutRange(cur, l, Reserve(r, AddrToBit(r.conf, sessions[i].ip.addr))), sessions, ids + {i})
  {
    hide Taken, AddrToBit, FindTarget;
    var r := RangeAt(cur, l);
    AddressBit(r.conf, sessions[i].ip.addr);
    var bit := AddrToBit(r.conf, sessions[i].ip.addr);
    var cur' := PutRange(cur, l, Reserve(r, bit));
    forall m, b | ValidLoc(built, m) && 0 <= b < RangeAt(built, m).conf.count
      ensures Taken(RangeAt(cur', m), b) <==> Taken(RangeAt(built, m), b) || SomeClaim(built, sessions, ids + {i}, m, b)
    {
      ClaimMore(built, sessions, ids, i, m, b);
    }
  }

  lemma ClaimMore(s: PoolSet, sessions: map<nat, Session>, ids: set<nat>, i: nat, m: Loc, b: nat)
    requires StepsOk(s) && i in sessions
    ensures SomeClaim(s, sessions, ids + {i}, m, b) <==> SomeClaim(s, sessions, ids, m, b) || Claims(s, sessions[i], m, b)
  {
    hide Claims;
    if SomeClaim(s, sessions, ids, m, b) {
      var k :| k in ids && k in sessions && Claims(s, sessions[k], m, b);
      assert k in ids + {i};
    }
    if Claims(s, sessions[i], m, b) {
      assert i in ids + {i};
    }
  }

  lemma NoneMore(built: PoolSet, cur: PoolSet, sessions: map<nat, Session>, ids: set<nat>, i: nat)
    requires Reserved(built, cur, sessions, ids) && i in sessions && Placed(built, sessions[i]).None?
    ensures Reserved(built, cur, sessions, ids + {i})
  {
    hide Taken, AddrToBit, Placed;
    forall m, b | ValidLoc(built, m) && 0 <= b < RangeAt(built, m).conf.count
      ensures Taken(RangeAt(cur, m), b) <==> Taken(RangeAt(built, m), b) || SomeClaim(built, sessions, ids + {i}, m, b)
    {
      ClaimMore(built, sessions, ids, i, m, b);
    }
  }

  /** The set and the session after one live session was reconciled with the new set. */
  method ReconcileOne(cur: PoolSet, ses: Session) returns (cur': PoolSet, ses': Session, orphan: bool)
    requires WfSet(cur)
    ensures ses' == Reattached(cur, ses) && (orphan <==> ses'.ip.Pooled? && ses'.ip.at.None?)
    ensures match Placed(cur, ses)
      case None => cur' == cur
      case Some(l) => ValidLoc(cur, l) && (var r := RangeAt(cur, l); var bit := AddrToBit(r.conf, ses.ip.addr);
          bit < r.conf.count && cur' == PutRange(cur, l, Reserve(r, bit)))
  {
    hide Taken;
    cur', ses', orphan := cur, ses, false;
    match ses.ip {
      case Nothing =>
      case Pooled(_, a) =>
        var t := FindTarget(cur, a, ses.poolName);
        ses' := ses.(ip := Pooled(t, a));
        if t.Some? {
          var r := RangeAt(cur, t.value);
          AddressBit(r.conf, a);
          cur' := PutRange(cur, t.value, Reserve(r, AddrToBit(r.conf, a)));
        } else {
          orphan := true;
        }
      case Foreign(a) =>
        var t := FindTarget(cur, a, None);
        if t.Some? {
          var r := RangeAt(cur, t.value);
          AddressBit(r.conf, a);
          cur' := PutRange(cur, t.value, Reserve(r, AddrToBit(r.conf, a)));
        }
    }
  }

  /** Reconciles every listed session; returns the orphans in list order, but for those in `noMem`, for
      which no list node could be allocated. */
  method ReconcileAll(built: PoolSet, ids: seq<nat>, sessions: map<nat, Session>, noMem: set<nat>)
    returns (cur: PoolSet, sessions': map<nat, Session>, orphans: seq<nat>)
    requires WfSet(built) && Listing(ids, sessions)
    ensures ReloadStep(State(built, sessions), State(cur, sessions'), built)
    ensures forall i :: i in orphans <==>
      i in sessions' && sessions'[i].ip.Pooled? && sessions'[i].ip.at.None? && i !in noMem
  {
    hide Taken, AddrToBit, FindTarget;
    cur, sessions', orphans := built, sessions, [];
    ghost var done: set<nat> := {};
    var k := 0;
    NoClaims(built, sessions);
    while k < |ids|
      invariant k <= |ids| && done == set j | 0 <= j < k :: ids[j]
      invariant Reserved(built, cur, sessions, done)
      invariant sessions'.Keys == sessions.Keys
      invariant forall i | i in sessions :: sessions'[i] == if i in done then Reattached(built, sessions[i]) else sessions[i]
      invariant forall i :: i in orphans <==>
        i in done && i in sessions && sessions'[i].ip.Pooled? && sessions'[i].ip.at.None? && i !in noMem
    {
      var i := ids[k];
      assert i in sessions && i !in done;
      SamePlace(built, cur, sessions[i]);
      var c, ses, orphan := ReconcileOne(cur, sessions'[i]);
      if Placed(built, sessions[i]).Some? {
        ReserveOne(built, cur, sessions, done, i, Placed(built, sessions[i]).value);
      } else {
        NoneMore(built, cur, sessions, done, i);
      }
      cur, sessions' := c, sessions'[i := ses];
      if orphan && i !in noMem {
        orphans := orphans + [i];
      }
      done := done + {i};
      k := k + 1;
    }
    assert done == sessions.Keys;
  }

  lemma NoClaims(built: PoolSet, sessions: map<nat, Session>)
    requires WfSet(built)
    ensures Reserved(built, built, sessions, {})
  {
    hide Taken, Claims;
  }

  lemma SamePlace(built: PoolSet, cur: PoolSet, ses: Session)
    requires SameShape(built, cur) && StepsOk(built) && StepsOk(cur)
    ensures Placed(cur, ses) == Placed(built, ses) && Reattached(cur, ses) == Reattached(built, ses)
  {
    if !ses.ip.Nothing? {
      SameTarget(built, cur, ses.ip.addr, ses.poolName);
      SameTarget(built, cur, ses.ip.addr, None);
    }
  }

  /** A session appears, changes its pool name, or gets or loses an address that is not from these pools. */
  ghost predicate OtherStep(st: State, st': State, id: nat, ses: Session) {
    && st' == st.(sessions := st.sessions[id := ses])
    && if id in st.sessions
       then st.sessions[id].ip == ses.ip || (!st.sessions[id].ip.Pooled? && !ses.ip.Pooled?)
       else !ses.ip.Pooled?
  }

  class IpPools {
    var cur: PoolSet
    var sessions: map<nat, Session>
    var listed: seq<nat>  // the session list, in order

    ghost function St(): State
      reads this
    {
      State(cur, sessions)
    }

    ghost predicate Valid()
      reads this
    {
      Inv(St()) && Listing(listed, sessions)
    }

    constructor ()
      ensures Valid() && sessions == map[] && cur.pools == []
    {
      cur, sessions, listed := PoolSet([], 0, false, false), map[], [];
    }

    method Arrive(id: nat, poolName: Option<string>, ip: Holding)
      requires Valid() && id !in sessions && !ip.Pooled?
      modifies this
      ensures Valid() && OtherStep(old(St()), St(), id, Session(poolName, ip)) && listed == old(listed) + [id]
    {
      hide Disjoint, WfRange, Taken;
      sessions := sessions[id := Session(poolName, ip)];
      listed := listed + [id];
    }

    /** Leases an address to a listed session that has none; `ppp` says that its controller is a PPP one,
        `oom` that the lease record cannot be allocated. */
    method GetIp(id: nat, rnd: nat, ppp: bool, oom: bool) returns (item: Option<Item>, l: Loc, bit: nat, ghost hops: nat)
      requires Valid() && id in sessions && sessions[id].ip.Nothing?
      requires forall p: nat | StartsAt(cur, sessions[id].poolName, p) :: Ends(cur, p)
      modifies this
      ensures Valid() && listed == old(listed)
      ensures (forall p: nat :: !StartsAt(old(cur), old(sessions)[id].poolName, p)) ==> item.None? && St() == old(St())
      ensures forall p: nat | StartsAt(old(cur), old(sessions)[id].poolName, p) ::
        var s := old(cur);
        if Exhausted(s, p) then item.None? && St() == old(St())
        else
          && FirstAlongChain(s, p, rnd, l, bit, hops)
          && if oom then item.None? && RollbackStep(old(St()), St(), l, bit, From(s, RangeAt(s, l), rnd))
             else
               && item == Some(Item(PeerAddr(RangeAt(s, l).conf, bit), if ppp then s.gw else 0, 0))
               && GetStep(old(St()), St(), id, l, bit, From(s, RangeAt(s, l), rnd))
    {
      hide Inv, FirstAlongChain, Exhausted, Chosen, Taken, Ends, StartsAt;
      item, l, bit, hops := None, Loc(0, 0), 0, 0;
      ghost var st := St();
      InvParts(st);
      var pool := PoolFor(cur, sessions[id].poolName);
      if pool.None? {
        return;
      }
      var found;
      found, bit, hops := Search(cur, pool.value, rnd);
      if found.None? {
        return;
      }
      l := found.value;
      ChosenFree(cur, pool.value, rnd, l, bit, hops);
      var r := RangeAt(cur, l);
      ghost var from := From(cur, r, rnd);
      cur := PutRange(cur, l, Grant(r, bit));
      if oom {
        cur := PutRange(cur, l, Release(RangeAt(cur, l), bit));
        PutTwice(st.cur, l, Grant(r, bit), Release(Grant(r, bit), bit));
        RollbackKeepsInv(st, St(), l, bit, from);
      } else {
        sessions := sessions[id := sessions[id].(ip := Pooled(Some(l), PeerAddr(r.conf, bit)))];
        item := Some(Item(PeerAddr(r.conf, bit), if ppp then cur.gw else 0, 0));
        GetKeepsInv(st, St(), id, l, bit, from);
      }
    }

    /** Unlists a session and frees what it leased, in one step. */
    method PutIp(id: nat)
      requires Valid() && id in sessions
      modifies this
      ensures Valid() && PutStep(old(St()), St(), id)
    {
      hide Inv, Taken, AddrToBit;
      ghost var st := St();
      InvParts(st);
      InvLease(st, id);
      match sessions[id].ip {
        case Pooled(Some(l), a) =>
          var r := RangeAt(cur, l);
          var bit := AddrToBit(r.conf, a);
          AddressBit(r.conf, a);
          if bit != INVALID {
            cur := PutRange(cur, l, Release(r, bit));
          }
        case _ =>
      }
      sessions := sessions - {id};
      var k :| 0 <= k < |listed| && listed[k] == id;
      listed := listed[..k] + listed[k + 1..];
      PutKeepsInv(st, St(), id);
      Unlisted(st.sessions, old(listed), k);
    }

    /** Swaps in a newly configured set; a failed build keeps the current pools. */
    method Reload(raw: PoolSet, buildFails: bool, noMem: set<nat>) returns (orphans: seq<nat>, ghost built: PoolSet)
      requires Valid() && RawSet(raw) && Disjoint(raw)
      modifies this
      ensures Valid() && listed == old(listed)
      ensures buildFails ==> St() == old(St()) && orphans == []
      ensures !buildFails ==>
        && BuiltUpTo(raw, built, |raw.pools|, 0) && ReloadStep(old(St()), St(), built)
        && forall i :: i in orphans <==>
             && raw.disconnect && i in sessions && sessions[i].ip.Pooled? && sessions[i].ip.at.None?
             && i !in noMem
      ensures !buildFails ==> forall l, b: nat | ValidLoc(cur, l) && b < RangeAt(cur, l).conf.count ::
        var c := RangeAt(cur, l).conf;
        Taken(RangeAt(cur, l), b) <==> GatewayBit(c, raw.gw, b) || Live(old(sessions), PeerAddr(c, b))
    {
      hide Inv, Taken, AddrToBit, SomeClaim, Live, GatewayBit, PeerAddr;
      orphans, built := [], raw;
      if buildFails {
        return;
      }
      ghost var st := St();
      var s := BuildSet(raw);
      built := s;
      var lost;
      cur, sessions, lost := ReconcileAll(s, listed, sessions, noMem);
      if s.disconnect {
        orphans := lost;
      }
      ReloadKeepsInv(st, St(), s);
      BuiltGateways(raw, s);
      forall l, b: nat | ValidLoc(cur, l) && b < RangeAt(cur, l).conf.count
        ensures var c := RangeAt(cur, l).conf;
          Taken(RangeAt(cur, l), b) <==> GatewayBit(c, raw.gw, b) || Live(st.sessions, PeerAddr(c, b))
      {
        ReloadedExactly(st, St(), s, l, b);
      }
    }
  }

  lemma BuiltGateways(raw: PoolSet, s: PoolSet)
    requires WfSet(s) && BuiltUpTo(raw, s, |raw.pools|, 0)
    ensures OnlyGateways(s) && s.gw == raw.gw
  {
    hide Taken, GatewayBit, WfRange;
  }

  lemma InvLease(st: State, id: nat)
    requires Inv(st) && id in st.sessions
    ensures LeaseOk(st.cur, st.sessions[id].ip)
  {
  }

  lemma Unlisted(sessions: map<nat, Session>, ids: seq<nat>, k: nat)
    requires Listing(ids, sessions) && k < |ids|
    ensures Listing(ids[..k] + ids[k + 1..], sessions - {ids[k]})
  {
    var ids' := ids[..k] + ids[k + 1..];
    forall i ensures i in ids' <==> i in sessions && i != ids[k] {
      if i in sessions && i != ids[k] {
        var j :| 0 <= j < |ids| && ids[j] == i;
        assert ids'[if j < k then j else j - 1] == i;
      }
    }
  }

  lemma InvParts(st: State)
    requires Inv(st)
    ensures WfSet(st.cur) && Disjoint(st.cur)
  {
  }

  lemma ChosenFree(s: PoolSet, start: nat, rnd: nat, l: Loc, bit: nat, k: nat)
    requires WfSet(s) && start < |s.pools| && FirstAlongChain(s, start, rnd, l, bit, k)
    ensures ValidLoc(s, l) && Chosen(RangeAt(s, l), From(s, RangeAt(s, l), rnd), bit)
    ensures bit < RangeAt(s, l).conf.count && !Taken(RangeAt(s, l), bit)
  {
    assert WfRange(RangeAt(s, l));
  }

  lemma PutTwice(s: PoolSet, l: Loc, r: Range, r': Range)
    requires ValidLoc(s, l)
    ensures PutRange(PutRange(s, l, r), l, r') == PutRange(s, l, r')
  {
    var p := s.pools[l.pool];
    assert p.ranges[l.range := r][l.range := r'] == p.ranges[l.range := r'];
    assert PutRange(PutRange(s, l, r), l, r').pools == PutRange(s, l, r').pools;
  }

  lemma {:induction false} SameHop(s: PoolSet, s': PoolSet, start: nat, k: nat)
    requires SameShape(s, s') && NextsOk(s) && NextsOk(s') && start < |s.pools|
    ensures Hop(s', start, k) == Hop(s, start, k)
  {
    if k > 0 {
      SameHop(s, s', start, k - 1);
    }
  }

  lemma SameChains(s: PoolSet, s': PoolSet)
    requires SameShape(s, s') && ChainsOk(s)
    ensures ChainsOk(s')
  {
    forall i | 0 <= i < |s'.pools| ensures ChainEnds(s', i) {
      assert ChainEnds(s, i);
      var k: nat :| Stops(s, i, k);
      SameHop(s, s', i, k);
      assert Stops(s', i, k);
    }
  }

  // ----- Whole runs ----------------------------------------------------------------------------

  ghost predicate DisjointReload(st: State, st': State, built: PoolSet) {
    ReloadStep(st, st', built) && Disjoint(built) && OnlyGateways(built)
  }

  ghost predicate Step(st: State, st': State) {
    || (exists id, l, bit, from :: GetStep(st, st', id, l, bit, from))
    || (exists id :: UngetStep(st, st', id))
    || (exists id :: PutStep(st, st', id))
    || (exists built :: DisjointReload(st, st', built))
    || (exists id, ses :: OtherStep(st, st', id, ses))
  }

  lemma OtherKeepsInv(st: State, st': State, id: nat, ses: Session)
    requires Inv(st) && OtherStep(st, st', id, ses)
    ensures Inv(st')
  {
    hide Disjoint, WfRange, Taken;
  }

  lemma StepKeepsInv(st: State, st': State)
    requires Inv(st) && Step(st, st')
    ensures Inv(st')
  {
    hide Inv, GetStep, UngetStep, PutStep, ReloadStep, OtherStep;
    if id, l, bit, from :| GetStep(st, st', id, l, bit, from) {
      GetKeepsInv(st, st', id, l, bit, from);
    } else if id :| UngetStep(st, st', id) {
      UngetKeepsInv(st, st', id);
    } else if id :| PutStep(st, st', id) {
      PutKeepsInv(st, st', id);
    } else if built :| DisjointReload(st, st', built) {
      ReloadKeepsInv(st, st', built);
    } else {
      var id, ses :| OtherStep(st, st', id, ses);
      OtherKeepsInv(st, st', id, ses);
    }
  }

  /** Chains stay as they are configured, so a search that ends in the configured set ends ever after. */
  lemma ChainsStay(st: State, st': State)
    requires Step(st, st') && ChainsOk(st.cur) && forall built | DisjointReload(st, st', built) :: ChainsOk(built)
    ensures ChainsOk(st'.cur)
  {
    hide ChainsOk;
    if built :| DisjointReload(st, st', built) {
      SameChains(built, st'.cur);
    } else {
      ShapeStays(st, st');
      SameChains(st.cur, st'.cur);
    }
  }

  lemma ShapeStays(st: State, st': State)
    requires Step(st, st') && forall built :: !DisjointReload(st, st', built)
    ensures SameShape(st.cur, st'.cur)
  {
    hide DisjointReload, GetStep, PutStep, UngetStep, OtherStep, SameShape;
    if id, l, bit, from :| GetStep(st, st', id, l, bit, from) {
      GetShape(st, st', id, l, bit, from);
    } else if id :| PutStep(st, st', id) || UngetStep(st, st', id) {
      FreeShape(st, st', id);
    } else {
      var id, ses :| OtherStep(st, st', id, ses);
      OtherShape(st, st', id, ses);
    }
  }

  lemma GetShape(st: State, st': State, id: nat, l: Loc, bit: nat, from: nat)
    requires GetStep(st, st', id, l, bit, from)
    ensures SameShape(st.cur, st'.cur)
  {
    hide Chosen, Taken;
  }

  lemma FreeShape(st: State, st': State, id: nat)
    requires PutStep(st, st', id) || UngetStep(st, st', id)
    ensures SameShape(st.cur, st'.cur)
  {
    hide AddrToBit, Taken;
  }

  lemma OtherShape(st: State, st': State, id: nat, ses: Session)
    requires OtherStep(st, st', id, ses)
    ensures SameShape(st.cur, st'.cur)
  {
  }

  /** In every run: leases have distinct addresses, attached leases hold their bit, `used` counts the set bits. */
  lemma {:induction false} RunSafe(sts: seq<State>, k: nat)
    requires k < |sts| && Inv(sts[0]) && forall i | 0 <= i < |sts| - 1 :: Step(sts[i], sts[i + 1])
    ensures Inv(sts[k])
  {
    hide Inv, Step;
    if k > 0 {
      RunSafe(sts, k - 1);
      assert Step(sts[k - 1], sts[k - 1 + 1]);
      StepKeepsInv(sts[k - 1], sts[k]);
    }
  }

  // ----- No block is lost, none is handed out twice --------------------------------------------

  /** Session `i` holds the lease of block `b` of range `l`. */
  ghost predicate LeasedBy(st: State, i: nat, l: Loc, b: nat)
    requires ValidLoc(st.cur, l)
  {
    i in st.sessions && st.sessions[i].ip == Pooled(Some(l), PeerAddr(RangeAt(st.cur, l).conf, b))
  }

  ghost predicate Leased(st: State, l: Loc, b: nat)
    requires ValidLoc(st.cur, l)
  {
    exists i :: LeasedBy(st, i, l, b)
  }

  /** The taken blocks are the leased ones and those in `kept`. */
  ghost predicate Accounted(st: State, kept: iset<(Loc, nat)>)
    requires WfSet(st.cur)
  {
    forall l, b: nat | ValidLoc(st.cur, l) && b < RangeAt(st.cur, l).conf.count ::
      Taken(RangeAt(st.cur, l), b) <==> (l, b) in kept || Leased(st, l, b)
  }

  /** What a reload sets aside: the gateway's block and those of addresses the pools do not own. */
  ghost predicate SetAside(s: PoolSet, sessions: map<nat, Session>, l: Loc, b: nat)
    requires ValidLoc(s, l)
  {
    var c := RangeAt(s, l).conf;
    GatewayBit(c, s.gw, b) || exists i :: i in sessions && sessions[i].ip == Foreign(PeerAddr(c, b))
  }

  ghost function AllSetAside(st: State): iset<(Loc, nat)> {
    iset l: Loc, b: nat | ValidLoc(st.cur, l) && SetAside(st.cur, st.sessions, l, b) :: (l, b)
  }

  /** A step keeps what is set aside or lets go of blocks in it; only a reload sets blocks aside, and then exactly
      the gateway's and those of foreign addresses. */
  ghost predicate KeptStep(st: State, st': State, kept: iset<(Loc, nat)>, kept': iset<(Loc, nat)>) {
    kept' <= kept || ((exists built :: DisjointReload(st, st', built)) && kept' == AllSetAside(st'))
  }

  lemma SameBlock(c: Conf, b: nat, d: nat)
    requires WfConf(c) && b < c.count && d < c.count && PeerAddr(c, b) == PeerAddr(c, d)
    ensures b == d
  {
    hide AddrToBit, PeerAddr;
    BitAddress(c, b);
    BitAddress(c, d);
  }

  lemma LeasedAfterGet(st: State, st': State, id: nat, l: Loc, bit: nat, from: nat, m: Loc, b: nat)
    requires GetStep(st, st', id, l, bit, from) && ValidLoc(st.cur, m) && b < RangeAt(st.cur, m).conf.count
    requires WfRange(RangeAt(st.cur, m))
    ensures ValidLoc(st'.cur, m) && (Leased(st', m, b) <==> Leased(st, m, b) || (m == l && b == bit))
  {
    hide PeerAddr, Taken;
    if i: nat :| LeasedBy(st', i, m, b) {
      if i == id {
        SameBlock(RangeAt(st.cur, l).conf, b, bit);
      } else {
        assert LeasedBy(st, i, m, b);
      }
    }
    if i: nat :| LeasedBy(st, i, m, b) {
      assert LeasedBy(st', i, m, b);
    }
    if m == l && b == bit {
      assert LeasedBy(st', id, m, b);
    }
  }

  lemma GetAccounted(st: State, st': State, id: nat, l: Loc, bit: nat, from: nat, kept: iset<(Loc, nat)>)
    requires WfSet(st.cur) && WfSet(st'.cur) && Accounted(st, kept) && GetStep(st, st', id, l, bit, from)
    ensures Accounted(st', kept)
  {
    hide PeerAddr, Taken, Chosen, Leased;
    forall m, b: nat | ValidLoc(st'.cur, m) && b < RangeAt(st'.cur, m).conf.count
      ensures Taken(RangeAt(st'.cur, m), b) <==> (m, b) in kept || Leased(st', m, b)
    {
      LeasedAfterGet(st, st', id, l, bit, from, m, b);
    }
  }

  /** Session `id` lets go of what it leased, and possibly of its entry. */
  ghost predicate LetsGo(st: State, st': State, id: nat, l: Loc, a: nat) {
    && id in st.sessions && st.sessions[id].ip == Pooled(Some(l), a)
    && (st'.sessions == st.sessions - {id} || st'.sessions == st.sessions[id := st.sessions[id].(ip := Nothing)])
    && ValidLoc(st.cur, l) && WfRange(RangeAt(st.cur, l)) && Contains(RangeAt(st.cur, l).conf, a)
    && AddrToBit(RangeAt(st.cur, l).conf, a) < RangeAt(st.cur, l).conf.count
    && st'.cur == PutRange(st.cur, l, Release(RangeAt(st.cur, l), AddrToBit(RangeAt(st.cur, l).conf, a)))
  }

  lemma LeasedAfterFree(st: State, st': State, id: nat, l: Loc, a: nat, m: Loc, b: nat)
    requires Inv(st) && LetsGo(st, st', id, l, a) && ValidLoc(st.cur, m) && b < RangeAt(st.cur, m).conf.count
    ensures ValidLoc(st'.cur, m)
    ensures Leased(st', m, b) <==> Leased(st, m, b) && !(m == l && b == AddrToBit(RangeAt(st.cur, l).conf, a))
  {
    hide PeerAddr, Taken, AddrToBit, Contains, Disjoint, LeaseOk;
    var c := RangeAt(st.cur, l).conf;
    AddressBit(c, a);
    if i: nat :| LeasedBy(st', i, m, b) {
      assert LeasedBy(st, i, m, b);
      assert i != id;
    }
    if i: nat :| LeasedBy(st, i, m, b) {
      if i == id {
        SameBlock(c, b, AddrToBit(c, a));
      } else {
        assert LeasedBy(st', i, m, b);
      }
    }
  }

  lemma FreeAccounted(st: State, st': State, id: nat, l: Loc, a: nat, kept: iset<(Loc, nat)>) returns (kept': iset<(Loc, nat)>)
    requires Inv(st) && WfSet(st'.cur) && Accounted(st, kept) && LetsGo(st, st', id, l, a)
    ensures Accounted(st', kept') && kept' <= kept
  {
    hide PeerAddr, Taken, Leased, AddrToBit, Disjoint, LeaseOk;
    var bit := AddrToBit(RangeAt(st.cur, l).conf, a);
    kept' := kept - iset{(l, bit)};
    forall m, b: nat | ValidLoc(st'.cur, m) && b < RangeAt(st'.cur, m).conf.count
      ensures Taken(RangeAt(st'.cur, m), b) <==> (m, b) in kept' || Leased(st', m, b)
    {
      LeasedAfterFree(st, st', id, l, a, m, b);
    }
  }

  /** Leases that stay as they are keep the account. */
  lemma SameAccounted(st: State, st': State, kept: iset<(Loc, nat)>)
    requires WfSet(st.cur) && Accounted(st, kept) && st'.cur == st.cur
    requires forall i, l, a :: i in st.sessions && st.sessions[i].ip == Pooled(Some(l), a) <==>
                               i in st'.sessions && st'.sessions[i].ip == Pooled(Some(l), a)
    ensures Accounted(st', kept)
  {
    hide PeerAddr, Taken;
    forall m, b: nat | ValidLoc(st.cur, m) ensures Leased(st', m, b) <==> Leased(st, m, b) {
      if i: nat :| LeasedBy(st, i, m, b) {
        assert LeasedBy(st', i, m, b);
      }
      if i: nat :| LeasedBy(st', i, m, b) {
        assert LeasedBy(st, i, m, b);
      }
    }
  }

  /** After a reload the leases attached to a block are those of its address. */
  lemma LeasedAfterReload(st: State, st': State, built: PoolSet, l: Loc, b: nat)
    requires DisjointReload(st, st', built) && ValidLoc(st'.cur, l) && b < RangeAt(st'.cur, l).conf.count
    ensures var a := PeerAddr(RangeAt(st'.cur, l).conf, b);
      Leased(st', l, b) <==> exists i :: i in st.sessions && st.sessions[i].ip.Pooled? && st.sessions[i].ip.addr == a
  {
    hide PeerAddr, Taken, AddrToBit, Contains, SomeClaim, FindTarget, OnlyGateways;
    var c := RangeAt(st'.cur, l).conf;
    if i: nat :| LeasedBy(st', i, l, b) {
      assert st'.sessions[i] == Reattached(built, st.sessions[i]);
    }
    if i: nat :| i in st.sessions && st.sessions[i].ip.Pooled? && st.sessions[i].ip.addr == PeerAddr(c, b) {
      InItsRange(c, b);
      OnlyOwner(built, l, st.sessions[i]);
      assert LeasedBy(st', i, l, b);
    }
  }

  lemma InItsRange(c: Conf, b: nat)
    requires WfConf(c) && b < c.count
    ensures Contains(c, PeerAddr(c, b))
  {
    hide AddrToBit, PeerAddr;
    BitAddress(c, b);
  }

  /** Foreign addresses are the same after a reload. */
  lemma ForeignStays(st: State, st': State, built: PoolSet, a: nat)
    requires ReloadStep(st, st', built)
    ensures (exists i :: i in st'.sessions && st'.sessions[i].ip == Foreign(a)) <==>
            (exists i :: i in st.sessions && st.sessions[i].ip == Foreign(a))
  {
    hide FindTarget, SomeClaim, Taken;
    if i :| i in st'.sessions && st'.sessions[i].ip == Foreign(a) {
      assert st'.sessions[i] == Reattached(built, st.sessions[i]);
      assert i in st.sessions && st.sessions[i].ip == Foreign(a);
    }
    if i :| i in st.sessions && st.sessions[i].ip == Foreign(a) {
      assert st'.sessions[i] == Reattached(built, st.sessions[i]);
      assert i in st'.sessions && st'.sessions[i].ip == Foreign(a);
    }
  }

  lemma LiveParts(sessions: map<nat, Session>, a: nat)
    ensures Live(sessions, a) <==>
      || (exists i :: i in sessions && sessions[i].ip == Foreign(a))
      || (exists i :: i in sessions && sessions[i].ip.Pooled? && sessions[i].ip.addr == a)
  {
    if i :| i in sessions && !sessions[i].ip.Nothing? && sessions[i].ip.addr == a {
      assert sessions[i].ip == Foreign(a) || sessions[i].ip.Pooled?;
    }
  }

  lemma ReloadAccounted(st: State, st': State, built: PoolSet)
    requires DisjointReload(st, st', built)
    ensures WfSet(st'.cur) && Accounted(st', AllSetAside(st'))
  {
    hide PeerAddr, Taken, GatewayBit, Leased, Live, SomeClaim, OnlyGateways, Disjoint, FindTarget;
    var kept := AllSetAside(st');
    forall l, b: nat | ValidLoc(st'.cur, l) && b < RangeAt(st'.cur, l).conf.count
      ensures Taken(RangeAt(st'.cur, l), b) <==> (l, b) in kept || Leased(st', l, b)
    {
      var a := PeerAddr(RangeAt(st'.cur, l).conf, b);
      ReloadedExactly(st, st', built, l, b);
      LiveParts(st.sessions, a);
      ForeignStays(st, st', built, a);
      LeasedAfterReload(st, st', built, l, b);
    }
  }

  lemma StepAccounted(st: State, st': State, kept: iset<(Loc, nat)>) returns (kept': iset<(Loc, nat)>)
    requires Inv(st) && Accounted(st, kept) && Step(st, st')
    ensures Inv(st') && Accounted(st', kept') && KeptStep(st, st', kept, kept')
  {
    StepKeepsInv(st, st');
    InvParts(st');
    hide Inv, GetStep, UngetStep, PutStep, OtherStep, DisjointReload, Accounted;
    kept' := kept;
    if id, l, bit, from :| GetStep(st, st', id, l, bit, from) {
      GetAccounted(st, st', id, l, bit, from, kept);
    } else if id: nat :| UngetStep(st, st', id) || PutStep(st, st', id) {
      kept' := GivenBack(st, st', id, kept);
    } else if built :| DisjointReload(st, st', built) {
      ReloadAccounted(st, st', built);
      kept' := AllSetAside(st');
    } else {
      var id, ses :| OtherStep(st, st', id, ses);
      OtherAccounted(st, st', id, ses, kept);
    }
  }

  lemma GivenBack(st: State, st': State, id: nat, kept: iset<(Loc, nat)>) returns (kept': iset<(Loc, nat)>)
    requires Inv(st) && WfSet(st'.cur) && Accounted(st, kept) && (UngetStep(st, st', id) || PutStep(st, st', id))
    ensures Accounted(st', kept') && kept' <= kept
  {
    hide PeerAddr, Taken, AddrToBit, Accounted, Disjoint, LeaseOk;
    match st.sessions[id].ip
    case Pooled(Some(l), a) =>
      kept' := FreeAccounted(st, st', id, l, a, kept);
    case _ =>
      kept' := kept;
      SameAccounted(st, st', kept);
  }

  lemma OtherAccounted(st: State, st': State, id: nat, ses: Session, kept: iset<(Loc, nat)>)
    requires WfSet(st.cur) && Accounted(st, kept) && OtherStep(st, st', id, ses)
    ensures Accounted(st', kept)
  {
    hide Accounted, WfRange;
    SameAccounted(st, st', kept);
  }

  /** In every run the taken blocks are exactly the leased ones and those set aside, and blocks are set aside only
      by a reload: the gateway's, and those of addresses the pools do not own. */
  lemma {:induction false} BlocksAccounted(sts: seq<State>, kept: iset<(Loc, nat)>) returns (ks: seq<iset<(Loc, nat)>>)
    requires |sts| > 0 && Inv(sts[0]) && Accounted(sts[0], kept)
    requires forall i | 0 <= i < |sts| - 1 :: Step(sts[i], sts[i + 1])
    ensures |ks| == |sts| && ks[0] == kept
    ensures forall k | 0 <= k < |sts| :: Inv(sts[k]) && Accounted(sts[k], ks[k])
    ensures forall k | 0 <= k < |sts| - 1 :: KeptStep(sts[k], sts[k + 1], ks[k], ks[k + 1])
    decreases |sts|
  {
    hide Inv, Step, Accounted, KeptStep;
    if |sts| == 1 {
      ks := [kept];
    } else {
      var n := |sts| - 1;
      var front := BlocksAccounted(sts[..n], kept);
      assert Step(sts[n - 1], sts[n - 1 + 1]);
      var last := StepAccounted(sts[n - 1], sts[n], front[n - 1]);
      ks := front + [last];
    }
  }

  /** A lease granted right after a reload is of an address nobody lives on. */
  lemma FreshAddress(st: State, st': State, st'': State, built: PoolSet, id: nat, l: Loc, bit: nat, from: nat)
    requires DisjointReload(st, st', built) && GetStep(st', st'', id, l, bit, from)
    ensures !Live(st.sessions, PeerAddr(RangeAt(st'.cur, l).conf, bit))
  {
    hide PeerAddr, GatewayBit, Live, SomeClaim, OnlyGateways, Disjoint, FindTarget;
    ReloadedExactly(st, st', built, l, bit);
  }

  // ----- Fairness across a pool set ------------------------------------------------------------

  /** A change of one bit somewhere in the set; without shuffling, grants start at the cursor. */
  datatype Change = Grants(l: Loc, bit: nat) | Frees(l: Loc, bit: nat) | Keeps

  ghost predicate ChangeStep(s: PoolSet, s': PoolSet, e: Change) {
    && WfSet(s)
    && match e
       case Grants(l, b) =>
         ValidLoc(s, l) && Chosen(RangeAt(s, l), RangeAt(s, l).cursor, b) && s' == PutRange(s, l, Grant(RangeAt(s, l), b))
       case Frees(l, b) =>
         ValidLoc(s, l) && b < RangeAt(s, l).conf.count && s' == PutRange(s, l, Release(RangeAt(s, l), b))
       case Keeps => s' == s
  }

  /** Session `id` takes block `bit` of range `l`, searching from the cursor. */
  ghost predicate Grabs(st: State, st': State, l: Loc, bit: nat) {
    ValidLoc(st.cur, l) && exists id :: GetStep(st, st', id, l, bit, RangeAt(st.cur, l).cursor)
  }

  /** A step without shuffling and without reload. */
  ghost predicate PlainStep(st: State, st': State) {
    || (exists l, bit :: Grabs(st, st', l, bit))
    || (exists id :: UngetStep(st, st', id))
    || (exists id :: PutStep(st, st', id))
    || (exists id, ses :: OtherStep(st, st', id, ses))
  }

  /** Session `id` takes block `bit` of range `l` as the service searches for it. */
  ghost predicate Leases(st: State, st': State, id: nat, l: Loc, bit: nat, rnd: nat) {
    ValidLoc(st.cur, l) && GetStep(st, st', id, l, bit, From(st.cur, RangeAt(st.cur, l), rnd))
  }

  /** A step of the service other than a reload. */
  ghost predicate ServiceStep(st: State, st': State) {
    || (exists id, l, bit, rnd :: Leases(st, st', id, l, bit, rnd))
    || (exists id :: UngetStep(st, st', id))
    || (exists id :: PutStep(st, st', id))
    || (exists id, ses :: OtherStep(st, st', id, ses))
  }

  /** Plain steps are steps of every run, and without shuffling they are exactly what the service does. */
  lemma PlainExactly(st: State, st': State)
    ensures PlainStep(st, st') ==> Step(st, st')
    ensures !st.cur.shuffle ==> (PlainStep(st, st') <==> ServiceStep(st, st'))
  {
    hide GetStep, UngetStep, PutStep, OtherStep, DisjointReload;
    if l, bit :| Grabs(st, st', l, bit) {
      var id :| GetStep(st, st', id, l, bit, RangeAt(st.cur, l).cursor);
      assert !st.cur.shuffle ==> Leases(st, st', id, l, bit, 0);
    }
    if !st.cur.shuffle {
      if id, l, bit, rnd :| Leases(st, st', id, l, bit, rnd) {
        assert Grabs(st, st', l, bit);
      }
    }
  }

  lemma GrabIsChange(st: State, st': State, l: Loc, bit: nat)
    requires WfSet(st.cur) && Grabs(st, st', l, bit)
    ensures ChangeStep(st.cur, st'.cur, Grants(l, bit))
  {
  }

  lemma FreeIsChange(st: State, st': State, id: nat) returns (e: Change)
    requires WfSet(st.cur) && (PutStep(st, st', id) || UngetStep(st, st', id))
    ensures ChangeStep(st.cur, st'.cur, e) && !e.Grants?
  {
    hide AddrToBit, Taken;
    match st.sessions[id].ip
    case Pooled(Some(m), a) =>
      e := Frees(m, AddrToBit(RangeAt(st.cur, m).conf, a));
    case _ =>
      e := Keeps;
  }

  /** A plain step changes at most one bit; a grant of `bit` in `l` is that change. */
  lemma PlainIsChange(st: State, st': State, l: Loc, bit: nat) returns (e: Change)
    requires Inv(st) && PlainStep(st, st')
    ensures ChangeStep(st.cur, st'.cur, e) && (Grabs(st, st', l, bit) ==> e == Grants(l, bit))
  {
    InvParts(st);
    hide Inv, GetStep, UngetStep, PutStep, OtherStep, ChangeStep, Grabs;
    if Grabs(st, st', l, bit) {
      GrabIsChange(st, st', l, bit);
      e := Grants(l, bit);
    } else if m, b :| Grabs(st, st', m, b) {
      GrabIsChange(st, st', m, b);
      e := Grants(m, b);
    } else if id :| PutStep(st, st', id) || UngetStep(st, st', id) {
      e := FreeIsChange(st, st', id);
    } else {
      var id, ses :| OtherStep(st, st', id, ses);
      OtherIsChange(st, st', id, ses);
      e := Keeps;
    }
  }

  lemma OtherIsChange(st: State, st': State, id: nat, ses: Session)
    requires WfSet(st.cur) && OtherStep(st, st', id, ses)
    ensures ChangeStep(st.cur, st'.cur, Keeps)
  {
  }

  ghost predicate ChangeRun(ss: seq<PoolSet>, es: seq<Change>) {
    |ss| == |es| + 1 && WfSet(ss[0]) && forall k | 0 <= k < |es| :: ChangeStep(ss[k], ss[k + 1], es[k])
  }

  /** The same change as seen by the range at `l`. */
  function Seen(e: Change, l: Loc): Event {
    match e
    case Grants(m, b) => if m == l then Granted(b) else Idle
    case Frees(m, b) => if m == l then Freed(b) else Idle
    case Keeps => Idle
  }

  lemma SeenStep(s: PoolSet, s': PoolSet, e: Change, l: Loc)
    requires ChangeStep(s, s', e) && ValidLoc(s, l)
    ensures WfSet(s') && ValidLoc(s', l) && Next(RangeAt(s, l), RangeAt(s', l), Seen(e, l))
  {
    hide AllTaken, FirstFree, Taken;
    if !e.Keeps? {
      var r := RangeAt(s', e.l);
      assert s' == PutRange(s, e.l, r) && WfRange(r);
      PutKeepsWf(s, e.l, r);
    }
  }

  lemma PutKeepsWf(s: PoolSet, l: Loc, r: Range)
    requires WfSet(s) && ValidLoc(s, l) && WfRange(r)
    ensures WfSet(PutRange(s, l, r))
  {
    hide WfRange;
  }

  lemma {:induction false} RunLoc(ss: seq<PoolSet>, es: seq<Change>, l: Loc, k: nat)
    requires ChangeRun(ss, es) && ValidLoc(ss[0], l) && k < |ss|
    ensures WfSet(ss[k]) && ValidLoc(ss[k], l)
  {
    hide ChangeStep, WfSet;
    if k > 0 {
      RunLoc(ss, es, l, k - 1);
      assert ChangeStep(ss[k - 1], ss[k - 1 + 1], es[k - 1]);
      SeenStep(ss[k - 1], ss[k], es[k - 1], l);
    }
  }

  /** Between two grants of one block, every other block of its range was taken at some moment. */
  lemma SetFairness(ss: seq<PoolSet>, es: seq<Change>, l: Loc, i: nat, j: nat, b: nat, c: nat)
    requires ChangeRun(ss, es) && ValidLoc(ss[0], l) && i < j < |es| && es[i] == es[j] == Grants(l, b)
    requires c < RangeAt(ss[0], l).conf.count && c != b
    ensures exists k :: i < k <= j && ValidLoc(ss[k], l) && Sized(RangeAt(ss[k], l))
                        && c < RangeAt(ss[k], l).conf.count && Taken(RangeAt(ss[k], l), c)
  {
    hide ChangeStep, Next, Taken;
    forall k | 0 <= k < |ss| ensures WfSet(ss[k]) && ValidLoc(ss[k], l) {
      RunLoc(ss, es, l, k);
    }
    var rs := seq(|ss|, k requires 0 <= k < |ss| => RangeAt(ss[k], l));
    var vs := seq(|es|, k requires 0 <= k < |es| => Seen(es[k], l));
    forall k | 0 <= k < |vs| ensures Next(rs[k], rs[k + 1], vs[k]) {
      assert ChangeStep(ss[k], ss[k + 1], es[k]);
      SeenStep(ss[k], ss[k + 1], es[k], l);
    }
    CyclicFairness(rs, vs, i, j, b, c);
    var k :| i < k <= j && Sized(rs[k]) && c < rs[k].conf.count && Taken(rs[k], c);
    assert rs[k] == RangeAt(ss[k], l);
  }

  ghost predicate PlainRun(sts: seq<State>) {
    |sts| > 0 && Inv(sts[0]) && forall k | 0 <= k < |sts| - 1 :: PlainStep(sts[k], sts[k + 1])
  }

  lemma {:induction false} PlainRunSafe(sts: seq<State>, k: nat)
    requires PlainRun(sts) && k < |sts|
    ensures Inv(sts[k])
  {
    hide Inv, PlainStep, Step;
    if k > 0 {
      PlainRunSafe(sts, k - 1);
      assert PlainStep(sts[k - 1], sts[k - 1 + 1]);
      PlainExactly(sts[k - 1], sts[k]);
      StepKeepsInv(sts[k - 1], sts[k]);
    }
  }

  ghost function Sets(sts: seq<State>): (ss: seq<PoolSet>)
    ensures |ss| == |sts| && forall k | 0 <= k < |sts| :: ss[k] == sts[k].cur
  {
    seq(|sts|, k requires 0 <= k < |sts| => sts[k].cur)
  }

  /** The changes of the first `n` steps of a run. */
  lemma {:induction false} RunIsChanges(sts: seq<State>, n: nat, l: Loc, bit: nat) returns (es: seq<Change>)
    requires PlainRun(sts) && n < |sts|
    ensures |es| == n && forall k | 0 <= k < n :: ChangeStep(sts[k].cur, sts[k + 1].cur, es[k])
    ensures forall k | 0 <= k < n :: Grabs(sts[k], sts[k + 1], l, bit) ==> es[k] == Grants(l, bit)
    decreases n
  {
    hide Inv, PlainStep, ChangeStep, Grabs;
    if n == 0 {
      es := [];
    } else {
      var front := RunIsChanges(sts, n - 1, l, bit);
      PlainRunSafe(sts, n - 1);
      assert PlainStep(sts[n - 1], sts[n - 1 + 1]);
      var e := PlainIsChange(sts[n - 1], sts[n], l, bit);
      es := front + [e];
    }
  }

  /** In every run of the service without shuffling and reload: between two leases of the same block, every
      other block of its range was taken at some moment. */
  lemma ServiceFairness(sts: seq<State>, l: Loc, i: nat, j: nat, b: nat, c: nat)
    requires PlainRun(sts) && i < j < |sts| - 1 && ValidLoc(sts[0].cur, l)
    requires Grabs(sts[i], sts[i + 1], l, b) && Grabs(sts[j], sts[j + 1], l, b)
    requires c < RangeAt(sts[0].cur, l).conf.count && c != b
    ensures exists k :: i < k <= j && ValidLoc(sts[k].cur, l) && Sized(RangeAt(sts[k].cur, l))
                        && c < RangeAt(sts[k].cur, l).conf.count && Taken(RangeAt(sts[k].cur, l), c)
  {
    InvParts(sts[0]);
    hide Inv, PlainStep, ChangeStep, Grabs, Taken, WfSet;
    var es := RunIsChanges(sts, |sts| - 1, l, b);
    var ss := Sets(sts);
    forall k | 0 <= k < |es| ensures ChangeStep(ss[k], ss[k + 1], es[k]) {
      assert ChangeStep(sts[k].cur, sts[k + 1].cur, es[k]);
    }
    SetFairness(ss, es, l, i, j, b, c);
    var k :| i < k <= j && ValidLoc(ss[k], l) && Sized(RangeAt(ss[k], l))
             && c < RangeAt(ss[k], l).conf.count && Taken(RangeAt(ss[k], l), c);
    assert ss[k] == sts[k].cur;
  }
}
