/**
  The connection limiter: a move-to-front list with lazy eviction, shown to give the same verdicts as
  a plain table that never forgets, and a bound on what one key can get through.
 */
module ConnLimit {
  import opened Base
  import opened Powers

  datatype Limits = Limits(burst: nat, burstTimeout: nat, limitTimeout: nat)

  datatype Entry = Entry(ts: nat, count: nat)

  /** One check of a key at time `now`: the key's new entry and the verdict. */
  function Judge(c: Limits, e: Option<Entry>, now: nat): (Entry, bool) {
    if e.None? || now - e.value.ts >= c.burstTimeout then (Entry(now, 0), true)
    else
      var n := e.value.count + 1;
      if n < c.burst then (Entry(e.value.ts, n), true)
      else if now - e.value.ts >= c.limitTimeout then (Entry(now, n), true)
      else (Entry(e.value.ts, n), false)
  }

  function Lookup(book: map<nat, Entry>, key: nat): Option<Entry> {
    if key in book then Some(book[key]) else None
  }

  // ----- The list ------------------------------------------------------------------------------

  datatype Item = Item(key: nat, e: Entry)

  predicate DistinctKeys(items: seq<Item>) {
    forall a, b | 0 <= a < b < |items| :: items[a].key != items[b].key
  }

  predicate Has(items: seq<Item>, k: nat) {
    exists a | 0 <= a < |items| :: items[a].key == k
  }

  predicate Listed(it: Item, book: map<nat, Entry>, now: nat) {
    it.key in book && book[it.key] == it.e && it.e.ts <= now
  }

  /** The list agrees with the table wherever it has an entry; entries it forgot are expired. */
  ghost predicate Tracks(items: seq<Item>, book: map<nat, Entry>, c: Limits, now: nat) {
    && (forall a | 0 <= a < |items| :: Listed(items[a], book, now))
    && (forall k | k in book :: Has(items, k) || now - book[k].ts > c.burstTimeout)
  }

  ghost predicate Good(items: seq<Item>, book: map<nat, Entry>, c: Limits, now: nat) {
    DistinctKeys(items) && Tracks(items, book, c, now)
  }

  lemma {:induction false} Later(items: seq<Item>, book: map<nat, Entry>, c: Limits, before: nat, now: nat)
    requires Good(items, book, c, before) && before <= now
    ensures Good(items, book, c, now)
  {
    hide Has;
    forall a | 0 <= a < |items| ensures Listed(items[a], book, now) {
      assert Listed(items[a], book, before);
    }
  }

  lemma {:induction false} HasConcat(l: seq<Item>, m: seq<Item>, k: nat)
    ensures Has(l + m, k) <==> Has(l, k) || Has(m, k)
  {
    if a :| 0 <= a < |l| && l[a].key == k {
      assert (l + m)[a].key == k;
    }
    if a :| 0 <= a < |m| && m[a].key == k {
      assert (l + m)[|l| + a].key == k;
    }
  }

  lemma {:induction false} HasThree(kept: seq<Item>, it: Item, rest: seq<Item>, k: nat)
    ensures Has(kept + [it] + rest, k) <==> it.key == k || Has(kept + rest, k)
    ensures Has([it] + kept + rest, k) <==> it.key == k || Has(kept + rest, k)
  {
    assert Has([it], k) <==> it.key == k by { assert [it][0] == it; }
    hide Has;
    HasConcat(kept + [it], rest, k);
    HasConcat(kept, [it], k);
    HasConcat([it] + kept, rest, k);
    HasConcat([it], kept, k);
    HasConcat(kept, rest, k);
  }

  lemma {:induction false} DistinctThree(kept: seq<Item>, it: Item, rest: seq<Item>, x: Item)
    requires DistinctKeys(kept + [it] + rest) && x.key == it.key
    ensures DistinctKeys(kept + rest) && DistinctKeys(kept + [x] + rest) && DistinctKeys([x] + kept + rest)
    ensures forall a | 0 <= a < |kept + rest| :: (kept + rest)[a].key != it.key
  {
    var l, n := kept + [it] + rest, |kept|;
    assert l[n] == it;
    var l0, l1, l2 := kept + rest, kept + [x] + rest, [x] + kept + rest;
    assert forall a | 0 <= a < |l0| :: l0[a] == l[if a < n then a else a + 1];
    assert forall a | 0 <= a < |l1| :: l1[a].key == l[a].key;
    assert forall a | 0 <= a < |l2| :: l2[a].key == l[if a == 0 then n else if a <= n then a - 1 else a].key;
  }

  /** Dropping an expired entry. */
  lemma {:induction false} Evict(kept: seq<Item>, it: Item, rest: seq<Item>, book: map<nat, Entry>, c: Limits, now: nat)
    requires Good(kept + [it] + rest, book, c, now) && now - it.e.ts > c.burstTimeout
    ensures Good(kept + rest, book, c, now)
  {
    hide Has, DistinctKeys;
    var l, l', n := kept + [it] + rest, kept + rest, |kept|;
    DistinctThree(kept, it, rest, it);
    assert Listed(l[n], book, now);
    forall a | 0 <= a < |l'| ensures Listed(l'[a], book, now) {
      assert Listed(l[if a < n then a else a + 1], book, now);
    }
    forall k | k in book ensures Has(l', k) || now - book[k].ts > c.burstTimeout {
      HasThree(kept, it, rest, k);
    }
  }

  /** The entry of a key changes, in place or moving to the front. */
  lemma {:induction false} Update(kept: seq<Item>, it: Item, rest: seq<Item>, x: Item, book: map<nat, Entry>, c: Limits, now: nat)
    requires Good(kept + [it] + rest, book, c, now) && x.key == it.key && x.e.ts <= now
    ensures Good(kept + [x] + rest, book[x.key := x.e], c, now)
    ensures Good([x] + kept + rest, book[x.key := x.e], c, now)
  {
    hide Has, DistinctKeys;
    var l, l0, l1, l2, n := kept + [it] + rest, kept + rest, kept + [x] + rest, [x] + kept + rest, |kept|;
    var book' := book[x.key := x.e];
    DistinctThree(kept, it, rest, x);
    forall a | 0 <= a < |l0| ensures Listed(l0[a], book', now) {
      assert Listed(l[if a < n then a else a + 1], book, now);
    }
    forall a | 0 <= a < |l1| ensures Listed(l1[a], book', now) {
      assert a != n ==> l1[a] == l0[if a < n then a else a - 1];
    }
    forall a | 0 <= a < |l2| ensures Listed(l2[a], book', now) {
      assert a != 0 ==> l2[a] == l0[a - 1];
    }
    forall k | k in book' ensures (Has(l1, k) && Has(l2, k)) || now - book'[k].ts > c.burstTimeout {
      HasThree(kept, it, rest, k);
      HasThree(kept, x, rest, k);
    }
  }

  lemma {:induction false} DistinctFront(items: seq<Item>, x: Item)
    requires DistinctKeys(items) && forall a | 0 <= a < |items| :: items[a].key != x.key
    ensures DistinctKeys([x] + items)
  {
  }

  lemma {:induction false} HasFront(items: seq<Item>, x: Item, k: nat)
    ensures Has([x] + items, k) <==> x.key == k || Has(items, k)
  {
    assert Has([x], k) <==> x.key == k by { assert [x][0] == x; }
    hide Has;
    HasConcat([x], items, k);
  }

  lemma {:induction false} Insert(items: seq<Item>, x: Item, book: map<nat, Entry>, c: Limits, now: nat)
    requires Good(items, book, c, now) && x.e.ts <= now && forall a | 0 <= a < |items| :: items[a].key != x.key
    ensures Good([x] + items, book[x.key := x.e], c, now)
  {
    hide Has, DistinctKeys;
    var l, book' := [x] + items, book[x.key := x.e];
    DistinctFront(items, x);
    forall a | 0 <= a < |l| ensures Listed(l[a], book', now) {
      assert a != 0 ==> Listed(items[a - 1], book, now);
    }
    forall k | k in book' ensures Has(l, k) || now - book'[k].ts > c.burstTimeout {
      HasFront(items, x, k);
    }
  }

  /** The entries that have not expired, in order. */
  function Unexpired(items: seq<Item>, c: Limits, now: nat): seq<Item> {
    if items == [] then []
    else
      var it := items[|items| - 1];
      Unexpired(items[..|items| - 1], c, now) + if now - it.e.ts > c.burstTimeout then [] else [it]
  }

  lemma {:induction false} UnexpiredNone(items: seq<Item>, c: Limits, now: nat)
    ensures Unexpired(items[..0], c, now) == []
  {
  }

  lemma {:induction false} UnexpiredNext(items: seq<Item>, c: Limits, now: nat, i: nat)
    requires i < |items|
    ensures Unexpired(items[..i + 1], c, now) ==
      Unexpired(items[..i], c, now) + if now - items[i].e.ts > c.burstTimeout then [] else [items[i]]
  {
    assert items[..i + 1][..i] == items[..i];
  }

  /** The list after a check: the walk to the key drops the expired entries in front of it, and the key's entry is
      updated in place or moves to the front; a key without an entry gets one there. */
  ghost predicate Swept(items: seq<Item>, items': seq<Item>, x: Item, c: Limits, now: nat) {
    || (!Has(items, x.key) && items' == [x] + Unexpired(items, c, now))
    || (exists i | 0 <= i < |items| :: SweptAt(items, items', x, c, now, i))
  }

  ghost predicate SweptAt(items: seq<Item>, items': seq<Item>, x: Item, c: Limits, now: nat, i: nat)
    requires i < |items|
  {
    && items[i].key == x.key
    && (items' == [x] + Unexpired(items[..i], c, now) + items[i + 1..] ||
        items' == Unexpired(items[..i], c, now) + [x] + items[i + 1..])
  }

  /** The walk has passed `i` entries, none of them the key's, and left the expired ones behind. */
  ghost predicate Walked(items: seq<Item>, i: nat, key: nat, book: map<nat, Entry>, c: Limits, now: nat) {
    && i <= |items| && Good(Unexpired(items[..i], c, now) + items[i..], book, c, now)
    && forall a | 0 <= a < i :: items[a].key != key
  }

  lemma {:induction false} WalkBegins(items: seq<Item>, key: nat, book: map<nat, Entry>, c: Limits, now: nat)
    requires Good(items, book, c, now)
    ensures Unexpired(items[..0], c, now) == [] && Walked(items, 0, key, book, c, now)
  {
    hide Good;
    UnexpiredNone(items, c, now);
    assert [] + items[0..] == items;
  }

  lemma {:induction false} WalkNext(items: seq<Item>, i: nat, key: nat, book: map<nat, Entry>, c: Limits, now: nat)
    requires Walked(items, i, key, book, c, now) && i < |items| && items[i].key != key
    ensures Walked(items, i + 1, key, book, c, now)
    ensures Unexpired(items[..i + 1], c, now) ==
      if now - items[i].e.ts <= c.burstTimeout then Unexpired(items[..i], c, now) + [items[i]] else Unexpired(items[..i], c, now)
  {
    hide Good, Unexpired;
    var kept, rest := Unexpired(items[..i], c, now), items[i + 1..];
    UnexpiredNext(items, c, now, i);
    assert kept + items[i..] == kept + [items[i]] + rest;
    assert kept + [] == kept;
    if now - items[i].e.ts > c.burstTimeout {
      Evict(kept, items[i], rest, book, c, now);
    }
  }

  lemma {:induction false} WalkEnds(items: seq<Item>, i: nat, key: nat, book: map<nat, Entry>, c: Limits, now: nat)
    requires Walked(items, i, key, book, c, now)
    ensures i <= |items| && Good(Unexpired(items[..i], c, now) + items[i..], book, c, now)
    ensures forall a | 0 <= a < i :: items[a].key != key
    ensures forall a | 0 <= a < |Unexpired(items[..i], c, now)| :: Unexpired(items[..i], c, now)[a].key != key
    decreases i
  {
    hide Good;
    KeysOfUnexpired(items, i, key, c, now);
  }

  lemma {:induction false} KeysOfUnexpired(items: seq<Item>, i: nat, key: nat, c: Limits, now: nat)
    requires i <= |items| && forall a | 0 <= a < i :: items[a].key != key
    ensures forall a | 0 <= a < |Unexpired(items[..i], c, now)| :: Unexpired(items[..i], c, now)[a].key != key
    decreases i
  {
    if i > 0 {
      KeysOfUnexpired(items, i - 1, key, c, now);
      UnexpiredNext(items, c, now, i - 1);
    }
  }

  class Limiter {
    const limits: Limits
    var items: seq<Item>
    /** What a table that never evicts would hold. */
    ghost var book: map<nat, Entry>

    ghost predicate Valid(now: nat)
      reads this
    {
      Good(items, book, limits, now)
    }

    constructor (limits: Limits)
      ensures this.limits == limits && book == map[] && forall now: nat :: Valid(now)
    {
      this.limits, items, book := limits, [], map[];
    }

    /** The verdict and the table are those of the limiter that never evicts. */
    method Check(key: nat, now: nat, ghost before: nat) returns (accept: bool)
      requires Valid(before) && before <= now
      modifies this
      ensures Valid(now)
      ensures var (e, ok) := Judge(limits, Lookup(old(book), key), now);
        && accept == ok && book == old(book)[key := e]
        && Swept(old(items), items, Item(key, e), limits, now)
    {
      hide Good, Unexpired;
      var kept, i := Sweep(key, now, before);
      if i < |items| {
        var it := items[i];
        ghost var rest := items[i + 1..];
        assert kept + items[i..] == kept + [it] + rest;
        Present(kept, it, rest, book, limits, now);
        ghost var was := items;
        var x := Item(key, Judge(limits, Some(it.e), now).0);
        Update(kept, it, rest, x, book, limits, now);
        if now - it.e.ts >= limits.burstTimeout {
          items := [Item(key, Entry(now, 0))] + kept + items[i + 1..];
          accept := true;
        } else if it.e.count + 1 < limits.burst {
          items := kept + [Item(key, Entry(it.e.ts, it.e.count + 1))] + items[i + 1..];
          accept := true;
        } else if now - it.e.ts >= limits.limitTimeout {
          items := [Item(key, Entry(now, it.e.count + 1))] + kept + items[i + 1..];
          accept := true;
        } else {
          items := kept + [Item(key, Entry(it.e.ts, it.e.count + 1))] + items[i + 1..];
          accept := false;
        }
        book := book[key := x.e];
        assert SweptAt(was, items, x, limits, now, i);
      } else {
        assert kept + items[i..] == kept;
        assert items[..i] == items;
        Absent(kept, key, book, limits, now);
        Insert(kept, Item(key, Entry(now, 0)), book, limits, now);
        items := [Item(key, Entry(now, 0))] + kept;
        book := book[key := Entry(now, 0)];
        accept := true;
      }
    }

    /** Walks to the key, leaving expired entries behind: `kept` and the rest are what remains. */
    method Sweep(key: nat, now: nat, ghost before: nat) returns (kept: seq<Item>, i: nat)
      requires Valid(before) && before <= now
      ensures i <= |items| && Good(kept + items[i..], book, limits, now)
      ensures forall a | 0 <= a < |kept| :: kept[a].key != key
      ensures i < |items| ==> items[i].key == key
      ensures kept == Unexpired(items[..i], limits, now) && forall a | 0 <= a < i :: items[a].key != key
    {
      hide Good, Unexpired, Walked;
      kept, i := [], 0;
      Later(items, book, limits, before, now);
      WalkBegins(items, key, book, limits, now);
      while i < |items| && items[i].key != key
        invariant i <= |items| && kept == Unexpired(items[..i], limits, now) && Walked(items, i, key, book, limits, now)
      {
        WalkNext(items, i, key, book, limits, now);
        if now - items[i].e.ts <= limits.burstTimeout {
          kept := kept + [items[i]];
        }
        i := i + 1;
      }
      WalkEnds(items, i, key, book, limits, now);
    }
  }

  lemma {:induction false} Present(kept: seq<Item>, it: Item, rest: seq<Item>, book: map<nat, Entry>, c: Limits, now: nat)
    requires Good(kept + [it] + rest, book, c, now)
    ensures Lookup(book, it.key) == Some(it.e) && it.e.ts <= now
  {
    hide Has;
    assert Listed((kept + [it] + rest)[|kept|], book, now);
  }

  lemma {:induction false} Absent(items: seq<Item>, key: nat, book: map<nat, Entry>, c: Limits, now: nat)
    requires Good(items, book, c, now) && forall a | 0 <= a < |items| :: items[a].key != key
    ensures Judge(c, Lookup(book, key), now) == (Entry(now, 0), true)
  {
  }

  // ----- What one key can get through ----------------------------------------------------------

  /** Calls that one key gets accepted, given its entry and the times of its checks. */
  function Accepts(c: Limits, e: Entry, times: seq<nat>): nat
    decreases |times|
  {
    if times == [] then 0
    else
      var (e', ok) := Judge(c, Some(e), times[0]);
      (if ok then 1 else 0) + Accepts(c, e', times[1..])
  }

  /** Times do not go back, starting at `from` and ending by `until`. */
  predicate Clock(times: seq<nat>, from: nat, until: nat)
    decreases |times|
  {
    if times == [] then from <= until else from <= times[0] && Clock(times[1..], times[0], until)
  }

  /** Accepted calls are what is left of the burst, a full burst for each of `r` fresh starts, and `l`
      late calls, where fresh starts and late calls take up their timeouts one after the other. */
  lemma {:induction false} AcceptsFrom(c: Limits, e: Entry, from: nat, times: seq<nat>, until: nat) returns (r: nat, l: nat)
    requires c.burst > 0 && e.ts <= from && Clock(times, from, until)
    ensures Accepts(c, e, times) <= (if e.count < c.burst then c.burst - 1 - e.count else 0) + c.burst * r + l
    ensures r * c.burstTimeout + l * c.limitTimeout <= until - e.ts
    decreases |times|
  {
    if times == [] {
      UntilAfter(times, from, until);
      r, l := 0, 0;
    } else {
      var now := times[0];
      var (e', ok) := Judge(c, Some(e), now);
      r, l := AcceptsFrom(c, e', now, times[1..], until);
      if now - e.ts >= c.burstTimeout {
        r := More(r, c.burst, c.burstTimeout);
      } else if e'.ts == now && e'.count >= c.burst && ok && now - e.ts >= c.limitTimeout {
        l := l + 1;
        Distribute(l, c.limitTimeout);
      }
    }
  }

  lemma {:induction false} UntilAfter(times: seq<nat>, from: nat, until: nat)
    requires Clock(times, from, until)
    ensures from <= until
    decreases |times|
  {
    if times != [] {
      UntilAfter(times[1..], times[0], until);
    }
  }

  lemma {:induction false} Distribute(n: nat, d: nat)
    requires n > 0
    ensures n * d == (n - 1) * d + d
  {
  }

  lemma {:induction false} More(r: nat, a: nat, b: nat) returns (r': nat)
    ensures r' == r + 1 && a * r' == a * r + a && r' * b == r * b + b
  {
    r' := r + 1;
  }

  lemma {:induction false} AtMost(q: nat, d: nat, w: nat)
    requires d > 0 && q * d <= w
    ensures q <= w / d
  {
    DivMod(w, d);
    if w / d < q {
      MulStep(d, w / d, q);
    }
  }

  lemma {:induction false} DivMod(w: nat, d: nat)
    requires d > 0
    ensures d * (w / d) <= w < d * (w / d) + d
  {
    assert w == d * (w / d) + w % d;
  }

  /** In the first `w` milliseconds after its entry is created at `t0`, a key is accepted at most
      burst * (1 + w / burst-timeout) + w / limit-timeout times, the creating call included. */
  lemma {:induction false} AcceptBound(c: Limits, t0: nat, times: seq<nat>, w: nat)
    requires c.burst > 0 && c.burstTimeout > 0 && c.limitTimeout > 0 && Clock(times, t0, t0 + w)
    ensures 1 + Accepts(c, Judge(c, None, t0).0, times) <= c.burst * (1 + w / c.burstTimeout) + w / c.limitTimeout
  {
    var r, l := AcceptsFrom(c, Entry(t0, 0), t0, times, t0 + w);
    AtMost(r, c.burstTimeout, w);
    AtMost(l, c.limitTimeout, w);
    Scale(c.burst, r, w / c.burstTimeout);
  }

  lemma {:induction false} Scale(a: nat, x: nat, y: nat)
    requires x <= y
    ensures a * x <= a * y && a * (1 + y) == a + a * y
  {
  }

  datatype Call = Call(key: nat, now: nat)

  /** How often key `k` is accepted in a run of calls by all keys, starting from a table. */
  function AcceptedOf(c: Limits, book: map<nat, Entry>, calls: seq<Call>, k: nat): nat
    decreases |calls|
  {
    if calls == [] then 0
    else
      var (e, ok) := Judge(c, Lookup(book, calls[0].key), calls[0].now);
      (if calls[0].key == k && ok then 1 else 0) + AcceptedOf(c, book[calls[0].key := e], calls[1..], k)
  }

  /** The calls come in order of time, none after `until`. */
  predicate InOrder(calls: seq<Call>, from: nat, until: nat)
    decreases |calls|
  {
    if calls == [] then from <= until else from <= calls[0].now && InOrder(calls[1..], calls[0].now, until)
  }

  function TimesOf(calls: seq<Call>, k: nat): seq<nat>
    decreases |calls|
  {
    if calls == [] then []
    else if calls[0].key == k then [calls[0].now] + TimesOf(calls[1..], k)
    else TimesOf(calls[1..], k)
  }

  lemma {:induction false} ClockWiden(times: seq<nat>, from: nat, later: nat, until: nat)
    requires Clock(times, later, until) && from <= later
    ensures Clock(times, from, until)
  {
  }

  /** Other keys make no difference. */
  lemma {:induction false} KeysApart(c: Limits, book: map<nat, Entry>, calls: seq<Call>, k: nat, from: nat, until: nat)
    requires k in book && InOrder(calls, from, until)
    ensures AcceptedOf(c, book, calls, k) == Accepts(c, book[k], TimesOf(calls, k))
    ensures Clock(TimesOf(calls, k), from, until)
    decreases |calls|
  {
    if calls != [] {
      hide Judge;
      var x := calls[0];
      var (e, ok) := Judge(c, Lookup(book, x.key), x.now);
      KeysApart(c, book[x.key := e], calls[1..], k, x.now, until);
      var rest := TimesOf(calls[1..], k);
      if x.key == k {
        assert ([x.now] + rest)[1..] == rest;
      } else {
        ClockWiden(rest, from, x.now, until);
      }
    }
  }

  /** Whatever the other keys do: a key whose entry is created at `t0`, for the first time or again after
      the old one expired, is accepted at most burst * (1 + w / burst-timeout) + w / limit-timeout
      times within the next `w` milliseconds. */
  lemma {:induction false} KeyBound(c: Limits, book: map<nat, Entry>, k: nat, t0: nat, calls: seq<Call>, w: nat)
    requires c.burst > 0 && c.burstTimeout > 0 && c.limitTimeout > 0
    requires (k in book ==> t0 - book[k].ts >= c.burstTimeout) && InOrder(calls, t0, t0 + w)
    ensures AcceptedOf(c, book, [Call(k, t0)] + calls, k) <= c.burst * (1 + w / c.burstTimeout) + w / c.limitTimeout
  {
    hide Accepts;
    var all := [Call(k, t0)] + calls;
    assert all[1..] == calls;
    var e := Judge(c, None, t0).0;
    KeysApart(c, book[k := e], calls, k, t0, t0 + w);
    AcceptBound(c, t0, TimesOf(calls, k), w);
    assert AcceptedOf(c, book, all, k) == 1 + AcceptedOf(c, book[k := e], calls, k);
  }

  // ----- What one key is sure to get through ---------------------------------------------------

  /** The verdicts on the checks of one key, given its entry, if any. */
  function Verdicts(c: Limits, e: Option<Entry>, times: seq<nat>): (oks: seq<bool>)
    ensures |oks| == |times|
    decreases |times|
  {
    if times == [] then []
    else
      var (e', ok) := Judge(c, e, times[0]);
      [ok] + Verdicts(c, Some(e'), times[1..])
  }

  /** The key's entry after some checks. */
  function EntryAfter(c: Limits, e: Option<Entry>, times: seq<nat>): Option<Entry>
    decreases |times|
  {
    if times == [] then e else EntryAfter(c, Some(Judge(c, e, times[0]).0), times[1..])
  }

  lemma {:induction false} VerdictAt(c: Limits, e: Option<Entry>, times: seq<nat>, n: nat)
    requires n < |times|
    ensures Verdicts(c, e, times)[n] == Judge(c, EntryAfter(c, e, times[..n]), times[n]).1
    decreases n
  {
    hide Judge;
    if n > 0 {
      VerdictAt(c, Some(Judge(c, e, times[0]).0), times[1..], n - 1);
      assert times[1..][..n - 1] == times[..n][1..];
    }
  }

  lemma {:induction false} EntryNext(c: Limits, e: Option<Entry>, times: seq<nat>, n: nat)
    requires n < |times|
    ensures EntryAfter(c, e, times[..n + 1]) == Some(Judge(c, EntryAfter(c, e, times[..n]), times[n]).0)
    decreases n
  {
    hide Judge;
    if n > 0 {
      EntryNext(c, Some(Judge(c, e, times[0]).0), times[1..], n - 1);
      assert times[1..][..n - 1] == times[..n][1..] && times[1..][..n] == times[..n + 1][1..];
    } else {
      assert times[..1][1..] == [] && times[..0] == [];
    }
  }

  /** The time kept in an entry is that of an accepted check. */
  lemma {:induction false} StampAccepted(c: Limits, times: seq<nat>, n: nat) returns (m: nat)
    requires 0 < n <= |times|
    ensures EntryAfter(c, None, times[..n]).Some?
    ensures m < n && Verdicts(c, None, times)[m] && times[m] == EntryAfter(c, None, times[..n]).value.ts
    decreases n
  {
    VerdictAt(c, None, times, n - 1);
    EntryNext(c, None, times, n - 1);
    var e := EntryAfter(c, None, times[..n - 1]);
    if n == 1 {
      assert times[..0] == [];
      m := 0;
    } else {
      m := StampAccepted(c, times, n - 1);
      if Judge(c, e, times[n - 1]).0.ts != e.value.ts {
        m := n - 1;
      }
    }
  }

  /** A check is accepted when none of the key's checks was accepted within the limit-timeout before it; refused
      ones do not matter. */
  lemma {:induction false} AcceptedAfterLimit(c: Limits, times: seq<nat>, n: nat)
    requires n < |times| && forall m | 0 <= m < n && Verdicts(c, None, times)[m] :: times[n] - times[m] >= c.limitTimeout
    ensures Verdicts(c, None, times)[n]
  {
    VerdictAt(c, None, times, n);
    if n > 0 {
      var m := StampAccepted(c, times, n);
    } else {
      assert times[..0] == [];
    }
  }

  /** After a fresh start the entry counts the checks since, or started afresh again. */
  lemma {:induction false} CountSince(c: Limits, times: seq<nat>, a: nat, n: nat)
    requires a <= n < |times|
    requires forall m | 0 <= m < a && Verdicts(c, None, times)[m] :: times[a] - times[m] >= c.burstTimeout
    ensures EntryAfter(c, None, times[..n + 1]).Some? && EntryAfter(c, None, times[..n + 1]).value.count <= n - a
    decreases n
  {
    EntryNext(c, None, times, n);
    if n > a {
      CountSince(c, times, a, n - 1);
      assert times[..n - 1 + 1] == times[..n];
    } else if a > 0 {
      var m := StampAccepted(c, times, a);
    } else {
      assert times[..0] == [];
    }
  }

  /** When none of the key's checks was accepted within the burst-timeout before check `a`, that one and those
      that follow are accepted up to the number of the burst. */
  lemma {:induction false} BurstAccepted(c: Limits, times: seq<nat>, a: nat, n: nat)
    requires a <= n < |times| && n - a < c.burst
    requires forall m | 0 <= m < a && Verdicts(c, None, times)[m] :: times[a] - times[m] >= c.burstTimeout
    ensures Verdicts(c, None, times)[n]
  {
    VerdictAt(c, None, times, n);
    if n > a {
      CountSince(c, times, a, n - 1);
      assert times[..n - 1 + 1] == times[..n];
    } else if a > 0 {
      var m := StampAccepted(c, times, a);
    } else {
      assert times[..0] == [];
    }
  }

  /** The verdicts on key `k` in a run of calls by all keys, starting from a table. */
  function VerdictsOf(c: Limits, book: map<nat, Entry>, calls: seq<Call>, k: nat): seq<bool>
    decreases |calls|
  {
    if calls == [] then []
    else
      var (e, ok) := Judge(c, Lookup(book, calls[0].key), calls[0].now);
      (if calls[0].key == k then [ok] else []) + VerdictsOf(c, book[calls[0].key := e], calls[1..], k)
  }

  /** Other keys make no difference to any verdict. */
  lemma {:induction false} VerdictsApart(c: Limits, book: map<nat, Entry>, calls: seq<Call>, k: nat)
    ensures VerdictsOf(c, book, calls, k) == Verdicts(c, Lookup(book, k), TimesOf(calls, k))
    decreases |calls|
  {
    hide Judge;
    if calls != [] {
      var x := calls[0];
      VerdictsApart(c, book[x.key := Judge(c, Lookup(book, x.key), x.now).0], calls[1..], k);
      var rest := TimesOf(calls[1..], k);
      assert ([x.now] + rest)[1..] == rest;
      assert [] + Verdicts(c, Lookup(book, k), rest) == Verdicts(c, Lookup(book, k), rest);
    }
  }
}
