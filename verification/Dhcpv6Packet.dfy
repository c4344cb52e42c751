/**
  The reply packet: a fixed buffer holding room for relay envelopes, a message header and options.
  Whatever sequence of additions is made, the option bytes are the encoding of the intended forest.
 */
module Dhcpv6Packet {
  import opened Base
  import opened Dhcpv6Options
  import opened Dhcpv6Builder
  import opened Dhcpv6Relay
  import opened Dhcpv6Datagram

  /** What an allocation hands back: where the option header lies, and its parent's handle. */
  datatype Handle = Handle(hdr: nat, parent: Option<Handle>)

  /** The handle and its ancestors point at the headers `ps`, outermost first, counted from `start`. */
  ghost predicate HandleOn(h: Handle, ps: seq<nat>, start: nat)
    decreases |ps|
  {
    && ps != [] && h.hdr == start + ps[|ps| - 1]
    && if |ps| == 1 then h.parent.None?
       else h.parent.Some? && HandleOn(h.parent.value, ps[..|ps| - 1], start)
  }

  /** The same with `None` for no header at all. */
  ghost predicate ChainOn(h: Option<Handle>, ps: seq<nat>, start: nat) {
    if ps == [] then h.None? else h.Some? && HandleOn(h.value, ps, start)
  }

  lemma {:induction false} ChainUp(h: Handle, ps: seq<nat>, start: nat)
    requires HandleOn(h, ps, start)
    ensures h.hdr == start + ps[|ps| - 1] && ChainOn(h.parent, ps[..|ps| - 1], start)
  {
  }

  lemma {:induction false} ChainSelf(h: Handle, ps: seq<nat>, start: nat)
    requires HandleOn(h, ps, start)
    ensures ChainOn(Some(h), ps, start)
  {
  }

  lemma {:induction false} ChainDown(h: Option<Handle>, ps: seq<nat>, start: nat, p: nat)
    requires ChainOn(h, ps, start)
    ensures HandleOn(Handle(start + p, h), ps + [p], start)
  {
    assert (ps + [p])[..|ps|] == ps;
  }

  lemma {:induction false} PatchInside(a: seq<Byte>, b: seq<Byte>, c: seq<Byte>, p: nat, delta: nat)
    requires p + 4 <= |b|
    ensures PatchOne(a + b + c, |a| + p, delta) == a + PatchOne(b, p, delta) + c
  {
  }

  lemma {:induction false} PatchedNext(b: seq<Byte>, ps: seq<nat>, k: nat, delta: nat)
    requires InBounds(ps, |b|) && 0 < k <= |ps|
    ensures Patched(b, ps[k - 1..], delta) == PatchOne(Patched(b, ps[k..], delta), ps[k - 1], delta)
  {
    hide PatchOne;
    assert ps[k - 1..][1..] == ps[k..];
  }

  /** An option without inner options is its header followed by its payload. */
  lemma {:induction false} EncodeLeaf(code: nat, payload: seq<Byte>)
    ensures Encode(Opt(code, payload, [])) == U16(code) + U16(|payload|) + payload
  {
    hide U16;
    assert payload + EncodeAll([]) == payload;
  }

  method Copy(buf: array<Byte>, p: nat, bytes: seq<Byte>)
    requires p + |bytes| <= buf.Length
    modifies buf
    ensures buf[..] == old(buf[..p]) + bytes + old(buf[p + |bytes|..])
  {
    forall i | 0 <= i < |bytes| {
      buf[p + i] := bytes[i];
    }
  }

  method PatchAt(buf: array<Byte>, p: nat, delta: nat)
    requires p + 4 <= buf.Length
    modifies buf
    ensures buf[..] == PatchOne(old(buf[..]), p, delta)
  {
    hide U16;
    assert buf[..][p + 2] == buf[p + 2] && buf[..][p + 3] == buf[p + 3];
    var len := U16(buf[p + 2] as int * 256 + buf[p + 3] as int + delta);
    buf[p + 2] := len[0];
    buf[p + 3] := len[1];
  }

  /** Adds `delta` to the length of the header `popt` points at and of all its ancestors. */
  method PatchUp(buf: array<Byte>, popt: Option<Handle>, delta: nat,
                 ghost a: seq<Byte>, ghost b: seq<Byte>, ghost c: seq<Byte>, ghost ps: seq<nat>)
    requires buf[..] == a + b + c && InBounds(ps, |b|) && ChainOn(popt, ps, |a|)
    modifies buf
    ensures buf[..] == a + Patched(b, ps, delta) + c
  {
    hide PatchOne, HandleOn, Patched;
    var h := popt;
    ghost var k := |ps|;
    assert ps[..k] == ps && ps[k..] == [];
    PatchedNone(b, delta);
    while h.Some?
      invariant 0 <= k <= |ps| && ChainOn(h, ps[..k], |a|)
      invariant buf[..] == a + Patched(b, ps[k..], delta) + c
      decreases k
    {
      ChainUp(h.value, ps[..k], |a|);
      ghost var x := Patched(b, ps[k..], delta);
      PatchedNext(b, ps, k, delta);
      PatchInside(a, x, c, ps[k - 1], delta);
      assert |buf[..]| == buf.Length;
      PatchAt(buf, h.value.hdr, delta);
      assert ps[..k][..k - 1] == ps[..k - 1];
      h, k := h.value.parent, k - 1;
    }
    assert ps[0..] == ps;
  }

  /** A buffer cut at the start and at the end of its option bytes. */
  lemma {:induction false} Cut(w: seq<Byte>, lo: nat, hi: nat)
    requires lo <= hi <= |w|
    ensures w == w[..lo] + w[lo..hi] + w[hi..]
  {
  }

  lemma {:induction false} Middle(a: seq<Byte>, x: seq<Byte>, e: seq<Byte>, rest: seq<Byte>)
    ensures (a + x + (e + rest))[|a|..|a| + |x| + |e|] == x + e && (a + x + (e + rest))[..|a|] == a
  {
    var w := a + x + (e + rest);
    assert w == a + (x + e) + rest;
  }

  /** Appends `e` behind `buf[start..end]` and patches the headers `popt` leads to. */
  method AppendUnder(buf: array<Byte>, popt: Option<Handle>, end: nat, e: seq<Byte>, ghost start: nat, ghost ps: seq<nat>)
    requires start <= end && end + |e| <= buf.Length && InBounds(ps, end - start) && ChainOn(popt, ps, start)
    modifies buf
    ensures buf[start..end + |e|] == Patched(old(buf[start..end]), ps, |e|) + e && buf[..start] == old(buf[..start])
  {
    hide Patched, ChainOn;
    ghost var a, x, rest := buf[..start], buf[start..end], buf[end + |e|..];
    Cut(buf[..end], start, end);
    Copy(buf, end, e);
    assert buf[..] == a + x + (e + rest);
    PatchUp(buf, popt, |e|, a, x, e + rest, ps);
    ghost var y := Patched(x, ps, |e|);
    Middle(a, y, e, rest);
    assert |y| == |x|;
  }

  /** Appends `e` behind `buf[start..end]`. */
  method Append(buf: array<Byte>, end: nat, e: seq<Byte>, ghost start: nat)
    requires start <= end && end + |e| <= buf.Length
    modifies buf
    ensures buf[start..end + |e|] == old(buf[start..end]) + e && buf[..start] == old(buf[..start])
  {
    ghost var a, x, rest := buf[..start], buf[start..end], buf[end + |e|..];
    Cut(buf[..end], start, end);
    Copy(buf, end, e);
    assert buf[..] == a + x + (e + rest);
    Middle(a, x, e, rest);
  }

  /** `ps` are the headers of the option at `path` and its ancestors. */
  ghost predicate Leads(os: seq<Opt>, path: seq<nat>, ps: seq<nat>) {
    HasPath(os, path) && ps == Headers(os, path)
  }

  /** `os'` is `os` with `o` added at the end of the right edge cut below `path`. */
  ghost predicate OnEdge(os: seq<Opt>, path: seq<nat>, os': seq<Opt>, o: Opt) {
    |path| <= EdgeDepth(os) && os' == AddAt(os, |path|, o) && EdgeDepth(os') == |path| + 1
  }

  lemma {:induction false} OnEdgeStays(os: seq<Opt>, path: seq<nat>, o: Opt)
    requires HasPath(os, path) && Behind(os, path) == [] && o.kids == []
    ensures SameBehind(os, path, o) && OnEdge(os, path, AddUnder(os, path, o), o)
    ensures Edge(AddUnder(os, path, o), |path| + 1) == Headers(os, path) + [|EncodeAll(os)|]
  {
    hide Encode, EncodeAll, AddUnder, AddAt, Edge, EdgeDepth, Headers;
    NothingBehind(os, path, o);
    EdgeAddAt(os, |path|, o);
  }

  /** Whether patching and appending gave what was meant, and what that is on the right edge. */
  lemma {:induction false} Meant(os: seq<Opt>, path: seq<nat>, o: Opt)
    requires HasPath(os, path) && |EncodeAll(os)| < 0x1_0000 && |Encode(o)| < 0x1_0004 && o.kids == []
    ensures var b, ps := EncodeAll(os), Headers(os, path);
      && InBounds(ps, |b|)
      && (Patched(b, ps, |Encode(o)|) + Encode(o) == EncodeAll(AddUnder(os, path, o)) <==> SameBehind(os, path, o))
      && (Behind(os, path) == [] ==>
            && SameBehind(os, path, o) && OnEdge(os, path, AddUnder(os, path, o), o)
            && Edge(AddUnder(os, path, o), |path| + 1) == ps + [|b|])
  {
    hide Encode, EncodeAll, AddUnder, Edge, Headers, Patched, Behind, SameBehind, OnEdge, HasPath, InBounds;
    AddedExactly(os, path, o);
    if Behind(os, path) == [] {
      OnEdgeStays(os, path, o);
    }
  }

  class Packet {
    const buf: array<Byte>
    var relays: seq<Relay>
    var hdr: nat
    var endptr: nat
    /** The options added so far. */
    ghost var forest: seq<Opt>

    /** The parts of the buffer lie in it one behind the other. */
    ghost predicate Sized()
      reads this
    {
      buf.Length == BUF_SIZE && hdr == 38 * |relays| && hdr + 4 <= endptr <= BUF_SIZE
    }

    ghost predicate Valid()
      reads this, buf
    {
      Sized() && buf[hdr + 4..endptr] == EncodeAll(forest)
    }

    /** Adds an option at top level; refused, with nothing changed, exactly when it does not fit. */
    method OptionAlloc(code: nat, payload: seq<Byte>) returns (h: Option<Handle>)
      requires Sized()
      modifies this`endptr, this`forest, buf
      ensures Sized() && buf[..hdr + 4] == old(buf[..hdr + 4])
      ensures h.None? <==> BUF_SIZE - old(endptr) < 4 + |payload|
      ensures h.None? ==> endptr == old(endptr) && forest == old(forest) && buf[..] == old(buf[..])
      ensures h.Some? ==> endptr == old(endptr) + 4 + |payload|
      ensures h.Some? ==>
        buf[hdr + 4..endptr] == old(buf[hdr + 4..endptr]) + Encode(Opt(code, payload, []))
      ensures h.Some? ==> HandleOn(h.value, [old(endptr) - (hdr + 4)], hdr + 4)
      ensures h.Some? && old(Valid()) ==>
        && Valid() && forest == AddAt(old(forest), 0, Opt(code, payload, []))
        && EdgeDepth(forest) == 1 && HandleOn(h.value, Edge(forest, 1), hdr + 4)
    {
      hide U16, EncodeAll, Encode, Edge, EdgeDepth, HandleOn, AddAt;
      if BUF_SIZE - endptr < 4 + |payload| {
        return None;
      }
      var e := U16(code) + U16(|payload|) + payload;
      ghost var o, x := Opt(code, payload, []), buf[hdr + 4..endptr];
      EncodeLeaf(code, payload);
      EncodeTop(forest, o);
      ChainDown(None, [], hdr + 4, |x|);
      assert [] + [|x|] == [|x|];
      h := Some(Handle(endptr, None));
      Append(buf, endptr, e, hdr + 4);
      EdgeAddTop(forest, o);
      endptr := endptr + |e|;
      forest := AddAt(forest, 0, o);
    }

    /** Header and payload at the end of the packet, and longer lengths for `popt` and its ancestors. */
    method AppendNested(popt: Handle, ghost ps: seq<nat>, code: nat, payload: seq<Byte>) returns (h: Option<Handle>)
      requires Sized() && HandleOn(popt, ps, hdr + 4) && InBounds(ps, endptr - (hdr + 4))
      modifies this`endptr, buf
      ensures Sized() && buf[..hdr + 4] == old(buf[..hdr + 4])
      ensures h.None? <==> BUF_SIZE - old(endptr) < 4 + |payload|
      ensures h.None? ==> endptr == old(endptr) && buf[..] == old(buf[..])
      ensures h.Some? ==> endptr == old(endptr) + 4 + |payload|
      ensures h.Some? ==>
        buf[hdr + 4..endptr] == Patched(old(buf[hdr + 4..endptr]), ps, 4 + |payload|) + Encode(Opt(code, payload, []))
      ensures h.Some? ==> HandleOn(h.value, ps + [old(endptr) - (hdr + 4)], hdr + 4)
    {
      hide U16, Encode, HandleOn, Patched;
      if BUF_SIZE - endptr < 4 + |payload| {
        return None;
      }
      var e := U16(code) + U16(|payload|) + payload;
      EncodeLeaf(code, payload);
      ChainSelf(popt, ps, hdr + 4);
      ChainDown(Some(popt), ps, hdr + 4, endptr - (hdr + 4));
      h := Some(Handle(endptr, Some(popt)));
      AppendUnder(buf, Some(popt), endptr, e, hdr + 4, ps);
      endptr := endptr + |e|;
    }

    /** Adds an option inside `popt`, whose header and whose ancestors' headers lie at `ps`: their lengths
        grow and the option is appended, whatever option `popt` is.  When it is the option at `path`, the
        packet is then what was meant exactly when only copies of the new option are behind `popt`. */
    method NestedOptionAlloc(popt: Handle, ghost ps: seq<nat>, ghost path: seq<nat>, code: nat, payload: seq<Byte>)
      returns (h: Option<Handle>)
      requires Sized() && HandleOn(popt, ps, hdr + 4) && InBounds(ps, endptr - (hdr + 4))
      modifies this`endptr, this`forest, buf
      ensures Sized() && buf[..hdr + 4] == old(buf[..hdr + 4])
      ensures h.None? <==> BUF_SIZE - old(endptr) < 4 + |payload|
      ensures h.None? ==> endptr == old(endptr) && forest == old(forest) && buf[..] == old(buf[..])
      ensures h.Some? ==> endptr == old(endptr) + 4 + |payload|
      ensures h.Some? ==>
        buf[hdr + 4..endptr] == Patched(old(buf[hdr + 4..endptr]), ps, 4 + |payload|) + Encode(Opt(code, payload, []))
      ensures h.Some? ==> HandleOn(h.value, ps + [old(endptr) - (hdr + 4)], hdr + 4)
      ensures h.Some? && old(Valid()) && Leads(old(forest), path, ps) ==>
        && forest == AddUnder(old(forest), path, Opt(code, payload, []))
        && (Valid() <==> SameBehind(old(forest), path, Opt(code, payload, [])))
      ensures h.Some? && old(Valid()) && Leads(old(forest), path, ps) && Behind(old(forest), path) == [] ==>
        && Valid() && OnEdge(old(forest), path, forest, Opt(code, payload, []))
        && HandleOn(h.value, Edge(forest, |path| + 1), hdr + 4)
    {
      hide EncodeAll, Encode, HandleOn, AddUnder, Patched, HasPath, Headers, Behind, SameBehind, OnEdge, Edge, InBounds;
      ghost var o, os, x := Opt(code, payload, []), forest, buf[hdr + 4..endptr];
      ghost var meant := Valid() && Leads(forest, path, ps);
      EncodeLeaf(code, payload);
      h := AppendNested(popt, ps, code, payload);
      if h.Some? && meant {
        Meant(os, path, o);
        forest := AddUnder(os, path, o);
      }
    }

    /** A message with room for the envelopes in front and no options yet. */
    constructor (relays: seq<Relay>, kind: Byte, transId: seq<Byte>)
      requires |transId| == 3 && 38 * |relays| + 4 <= BUF_SIZE
      ensures Valid() && fresh(buf) && this.relays == relays && endptr == hdr + 4 && forest == []
      ensures buf[hdr..hdr + 4] == [kind] + transId
    {
      var b := new Byte[BUF_SIZE];
      var p := 38 * |relays|;
      b[p], b[p + 1], b[p + 2], b[p + 3] := kind, transId[0], transId[1], transId[2];
      buf, this.relays, hdr, endptr, forest := b, relays, p, p + 4, [];
    }

    /** Writes the envelopes around the finished message. */
    method FillRelayInfo()
      requires Sized()
      modifies this`hdr, buf
      ensures hdr == 0 && buf[..endptr] == Wrap(relays, old(buf[hdr..endptr]))
    {
      hide EncodeAll, Wrap, Heads;
      if relays == [] {
        WrapNone(buf[hdr..endptr]);
        return;
      }
      ghost var m := buf[hdr..endptr];
      FillHeads(buf, relays, endptr);
      HeadsWrap(relays, m, |relays|);
      WrapNone(m);
      assert relays[|relays|..] == [];
      hdr := 0;
    }
  }

  lemma {:induction false} EncodeTop(os: seq<Opt>, o: Opt)
    ensures 0 <= EdgeDepth(os) && EncodeAll(AddAt(os, 0, o)) == EncodeAll(os) + Encode(o)
  {
    hide Encode;
    EncodeAppend(os, [o]);
    assert EncodeAll([o]) == Encode(o) + EncodeAll([]);
  }

  lemma {:induction false} EdgeAddTop(os: seq<Opt>, o: Opt)
    requires o.kids == []
    ensures EdgeDepth(AddAt(os, 0, o)) == 1 && Edge(AddAt(os, 0, o), 1) == [] + [|EncodeAll(os)|]
  {
    EdgeAddAt(os, 0, o);
    assert Edge(os, 0) == [];
  }

  /** Envelope header and Relay-Message option header for `len` further bytes. */
  function EnvelopeHead(r: Relay, len: nat): (b: seq<Byte>)
    ensures |b| == 38
  {
    RelayHead(RELAY_REPL, r) + (U16(RELAY_MSG) + U16(len))
  }

  /** The first `i` envelope headers of a packet that ends at `end`. */
  ghost function Heads(rs: seq<Relay>, i: nat, end: nat): (b: seq<Byte>)
    requires i <= |rs| && 38 * i <= end
    ensures |b| == 38 * i
  {
    if i == 0 then [] else Heads(rs, i - 1, end) + EnvelopeHead(rs[i - 1], end - 38 * i)
  }

  lemma {:induction false} HeadsStep(b: seq<Byte>, w: seq<Byte>, rs: seq<Relay>, i: nat, end: nat)
    requires i < |rs| && 38 * (i + 1) <= end <= |w| == |b|
    requires var x := Heads(rs, i, end) + w[38 * i..];
      b == x[..38 * i] + EnvelopeHead(rs[i], end - 38 * (i + 1)) + x[38 * i + 38..]
    ensures b == Heads(rs, i + 1, end) + w[38 * (i + 1)..]
  {
    hide EnvelopeHead;
    var x := Heads(rs, i, end) + w[38 * i..];
    assert x[38 * i + 38..] == w[38 * (i + 1)..];
    assert x[..38 * i] == Heads(rs, i, end);
  }

  /** The buffer `w` with its first `i` envelope headers written. */
  ghost predicate Filled(b: seq<Byte>, w: seq<Byte>, rs: seq<Relay>, i: nat, end: nat) {
    i <= |rs| && 38 * i <= end <= |w| && b == Heads(rs, i, end) + w[38 * i..]
  }

  /** Writes envelope header `i` behind the ones before it. */
  method WriteHead(buf: array<Byte>, rs: seq<Relay>, i: nat, end: nat, ghost w: seq<Byte>)
    requires i < |rs| && 38 * (i + 1) <= end <= |w| == buf.Length && Filled(buf[..], w, rs, i, end)
    modifies buf
    ensures Filled(buf[..], w, rs, i + 1, end)
  {
    hide EnvelopeHead, Heads;
    ghost var x := buf[..];
    assert buf[..38 * i] == x[..38 * i] && buf[38 * i + 38..] == x[38 * i + 38..];
    Copy(buf, 38 * i, EnvelopeHead(rs[i], end - 38 * (i + 1)));
    HeadsStep(buf[..], w, rs, i, end);
  }

  method FillHeads(buf: array<Byte>, rs: seq<Relay>, end: nat)
    requires 38 * |rs| <= end <= buf.Length
    modifies buf
    ensures Filled(buf[..], old(buf[..]), rs, |rs|, end)
  {
    hide Filled;
    ghost var w := buf[..];
    FilledNone(rs, end, w);
    for i := 0 to |rs|
      invariant Filled(buf[..], w, rs, i, end)
    {
      WriteHead(buf, rs, i, end, w);
    }
  }

  lemma {:induction false} FilledNone(rs: seq<Relay>, end: nat, w: seq<Byte>)
    requires end <= |w|
    ensures Filled(w, w, rs, 0, end)
  {
    assert Heads(rs, 0, end) + w[0..] == w;
  }

  lemma {:induction false} WrapNone(m: seq<Byte>)
    ensures Wrap([], m) == m
  {
  }

  lemma {:induction false} WrapHead(rs: seq<Relay>, m: seq<Byte>)
    requires rs != []
    ensures Wrap(rs, m) == EnvelopeHead(rs[0], |Wrap(rs[1..], m)|) + Wrap(rs[1..], m)
  {
    hide U16, RelayHead;
    var inner := Wrap(rs[1..], m);
    var x, y := RelayHead(RELAY_REPL, rs[0]), U16(RELAY_MSG) + U16(|inner|);
    assert x + (y + inner) == x + y + inner;
  }

  lemma {:induction false} HeadsWrap(rs: seq<Relay>, m: seq<Byte>, i: nat)
    requires i <= |rs|
    ensures Heads(rs, i, 38 * |rs| + |m|) + Wrap(rs[i..], m) == Wrap(rs, m)
  {
    hide Wrap, EnvelopeHead;
    var end := 38 * |rs| + |m|;
    if i == 0 {
      assert rs[0..] == rs;
    } else {
      HeadsWrap(rs, m, i - 1);
      WrapHead(rs[i - 1..], m);
      assert rs[i - 1..][1..] == rs[i..];
      var h, x, w := Heads(rs, i - 1, end), EnvelopeHead(rs[i - 1], end - 38 * i), Wrap(rs[i..], m);
      assert h + (x + w) == h + x + w;
    }
  }

  /** As many envelopes as can stand in front of a message header. */
  const MAX_ENVELOPES: nat := (BUF_SIZE - 42) / 38 + 1

  /** A received request, as far as a reply needs it; its envelopes can be moved out. */
  class Received {
    var relays: seq<Relay>
    const transId: seq<Byte>
    const serverid: seq<Byte>
    const clientid: seq<Byte>

    constructor (relays: seq<Relay>, transId: seq<Byte>, serverid: seq<Byte>, clientid: seq<Byte>)
      ensures this.relays == relays && this.transId == transId && this.serverid == serverid && this.clientid == clientid
    {
      this.relays, this.transId, this.serverid, this.clientid := relays, transId, serverid, clientid;
    }
  }

  /** Moves envelopes from the request to the reply; `hdr` is where the message will begin. */
  method MoveRelays(req: Received) returns (moved: seq<Relay>, hdr: nat, ok: bool)
    modifies req
    ensures ok <==> |old(req.relays)| <= MAX_ENVELOPES
    ensures ok ==> moved == old(req.relays) && req.relays == [] && hdr == 38 * |moved| && hdr + 4 <= BUF_SIZE
    ensures !ok ==> moved == old(req.relays)[..MAX_ENVELOPES] && req.relays == old(req.relays)[MAX_ENVELOPES..]
  {
    moved, hdr := [], 0;
    ghost var all := req.relays;
    while req.relays != []
      invariant moved + req.relays == all && hdr == 38 * |moved| && |moved| <= MAX_ENVELOPES
    {
      if BUF_SIZE - hdr < 42 {
        return moved, hdr, false;
      }
      moved, req.relays, hdr := moved + [req.relays[0]], req.relays[1..], hdr + 38;
    }
    assert moved + [] == moved;
    ok := true;
  }

  /** Starts the reply: the request's envelopes in the same order, its transaction, both identifiers.  The
      envelopes leave the request, also when the reply fails. */
  method AllocReply(req: Received, kind: Byte) returns (p: Packet?)
    requires |req.transId| == 3
    modifies req
    ensures p == null <==> 38 * |old(req.relays)| + 12 + |req.serverid| + |req.clientid| > BUF_SIZE
    ensures req.relays ==
      if |old(req.relays)| <= MAX_ENVELOPES then [] else old(req.relays)[MAX_ENVELOPES..]
    ensures p != null ==> fresh(p) && fresh(p.buf) && p.Valid() && p.relays == old(req.relays)
    ensures p != null ==> p.buf[p.hdr..p.hdr + 4] == [kind] + req.transId
    ensures p != null ==> p.forest == [Opt(SERVERID, req.serverid, []), Opt(CLIENTID, req.clientid, [])]
  {
    hide EncodeAll, Edge, EdgeDepth, HandleOn;
    var relays, hdr, ok := MoveRelays(req);
    if !ok {
      return null;
    }
    p := new Packet(relays, kind, req.transId);
    ghost var top := p.buf[..p.hdr + 4];
    assert top[p.hdr..] == [kind] + req.transId;
    var h := p.OptionAlloc(SERVERID, req.serverid);
    if h.None? {
      return null;
    }
    h := p.OptionAlloc(CLIENTID, req.clientid);
    if h.None? {
      return null;
    }
    assert p.buf[p.hdr..p.hdr + 4] == top[p.hdr..];
  }

  /** An addition off the right edge, with a container behind the parent: not what was meant. */
  lemma {:induction false} OffEdge(data: seq<Byte>)
    requires |data| == 12
    ensures var a, o := Opt(IA_NA, data, []), Opt(RAPID_COMMIT, [], []);
      var b := EncodeAll([a, a]);
      InBounds([0], |b|) && Patched(b, [0], |Encode(o)|) + Encode(o) != EncodeAll([a.(kids := [o]), a])
  {
    hide Patched;
    var a, o := Opt(IA_NA, data, []), Opt(RAPID_COMMIT, [], []);
    FirstOfTwo(a, a, o);
    EncodeLeaf(IA_NA, data);
    EncodeLeaf(RAPID_COMMIT, []);
    assert Encode(a) != Encode(o);
    assert a in Behind([a, a], [0]);
  }

  /** An addition off the right edge that does no harm: only a copy of the new option is behind the parent. */
  lemma {:induction false} OffEdgeCopy(data: seq<Byte>)
    requires |data| == 12
    ensures var a, o := Opt(IA_NA, data, []), Opt(RAPID_COMMIT, [], []);
      var b := EncodeAll([a, o]);
      InBounds([0], |b|) && Patched(b, [0], |Encode(o)|) + Encode(o) == EncodeAll([a.(kids := [o]), o])
  {
    hide Patched;
    var a, o := Opt(IA_NA, data, []), Opt(RAPID_COMMIT, [], []);
    FirstOfTwo(a, o, o);
  }

  /** The first of two options as a parent. */
  lemma {:induction false} FirstOfTwo(a: Opt, x: Opt, o: Opt)
    requires a.kids == [] && |a.data| + |Encode(x)| < 0xFFF0 && |Encode(o)| < 0x1_0004
    ensures HasPath([a, x], [0]) && Behind([a, x], [0]) == [x]
    ensures InBounds([0], |EncodeAll([a, x])|)
    ensures Patched(EncodeAll([a, x]), [0], |Encode(o)|) + Encode(o) == EncodeAll([a.(kids := [o]), x])
      <==> SameBehind([a, x], [0], o)
  {
    hide Patched, Encode, SameBehind;
    var os := [a, x];
    assert os[1..] == [x] && [x][1..] == [] && [0][1..] == [] && os[..0] == [];
    assert HasPath(os, [0]) && Headers(os, [0]) == [0] && Behind(os, [0]) == [x];
    assert EncodeAll(os) == Encode(a) + (Encode(x) + EncodeAll([]));
    EncodeSize(a);
    AddedExactly(os, [0], o);
    assert AddUnder(a.kids, [], o) == [o];
    assert AddUnder(os, [0], o) == [] + [a.(kids := [o])] + [x];
  }

  /** A finished reply unwraps to the request's envelopes, and its options parse back as intended. */
  lemma {:induction false} ReplyMeaning(b: seq<Byte>, kind: Byte, transId: seq<Byte>, forest: seq<Opt>)
    requires RequestOf(b).Some? && |transId| == 3 && kind != RELAY_REPL
    requires 38 * |RequestOf(b).value.relays| + 4 + |EncodeAll(forest)| <= BUF_SIZE
    ensures var rs, m := RequestOf(b).value.relays, [kind] + transId + EncodeAll(forest);
      && Unwrap(RELAY_REPL, Wrap(rs, m), 0) == Some((rs, m))
      && (ParseMany(m[4..]) == Some(forest) <==> AllLegal(forest))
  {
    hide EncodeAll, ParseMany, Unwrap, Wrap, AllLegal;
    var rs, m := RequestOf(b).value.relays, [kind] + transId + EncodeAll(forest);
    UnwrapWrap(rs, m, 0);
    assert m[4..] == EncodeAll(forest);
    ParseExactly(m[4..], forest);
  }

  // ----- A whole reply -------------------------------------------------------------------------

  /** Handles on the right edge, outermost first. */
  ghost predicate Handles(stack: seq<Handle>, os: seq<Opt>, start: nat) {
    |stack| <= EdgeDepth(os) && forall k | 1 <= k <= |stack| :: HandleOn(stack[k - 1], Edge(os, k), start)
  }

  /** Handles that stay good when an option with handle `h` is added under the one at depth `d`. */
  lemma {:induction false} HandlesAfter(stack: seq<Handle>, os: seq<Opt>, start: nat, d: nat, o: Opt, h: Handle)
    requires Handles(stack, os, start) && d <= |stack| && o.kids == []
    requires EdgeDepth(AddAt(os, d, o)) == d + 1 && HandleOn(h, Edge(AddAt(os, d, o), d + 1), start)
    ensures Handles(stack[..d] + [h], AddAt(os, d, o), start)
  {
    hide HandleOn, Edge, EdgeDepth, AddAt;
    var stack', os' := stack[..d] + [h], AddAt(os, d, o);
    forall k | 1 <= k <= d + 1 ensures HandleOn(stack'[k - 1], Edge(os', k), start) {
      if k <= d {
        HandlesSurvive(os, d, o, k);
      }
    }
  }

  /** One addition, at top level or under a handle of `stack`. */
  method AddOne(p: Packet, stack: seq<Handle>, a: Addition) returns (h: Option<Handle>)
    requires p.Valid() && Handles(stack, p.forest, p.hdr + 4) && a.depth <= |stack|
    modifies p`endptr, p`forest, p.buf
    ensures p.Sized() && p.buf[..p.hdr + 4] == old(p.buf[..p.hdr + 4])
    ensures h.None? <==> BUF_SIZE - old(p.endptr) < 4 + |a.payload|
    ensures h.Some? ==> p.Valid() && p.forest == AddAt(old(p.forest), a.depth, a.Leaf())
    ensures h.Some? ==> Handles(stack[..a.depth] + [h.value], p.forest, p.hdr + 4)
    ensures h.Some? ==> p.endptr == old(p.endptr) + 4 + |a.payload|
  {
    hide EncodeAll, Encode, Patched, Edge, EdgeDepth, EdgePath, HandleOn, AddAt, AddUnder, HasPath, Headers, Behind,
      SameBehind;
    ghost var os := p.forest;
    if a.depth == 0 {
      h := p.OptionAlloc(a.code, a.payload);
    } else {
      ghost var path := EdgePath(os, a.depth);
      NothingBehind(os, path, a.Leaf());
      EncodeAddAt(os, a.depth, a.Leaf());
      h := p.NestedOptionAlloc(stack[a.depth - 1], Edge(os, a.depth), path, a.code, a.payload);
    }
    if h.Some? {
      HandlesAfter(stack, os, p.hdr + 4, a.depth, a.Leaf(), h.value);
    }
  }

  /** A run of additions and one more. */
  lemma {:induction false} BuiltNext(adds: seq<Addition>, i: nat)
    requires Applicable(adds) && i < |adds|
    ensures Applicable(adds[..i]) && Applicable(adds[..i + 1]) && adds[i].depth <= EdgeDepth(Built(adds[..i]))
    ensures Built(adds[..i + 1]) == AddAt(Built(adds[..i]), adds[i].depth, adds[i].Leaf())
    ensures EdgeDepth(Built(adds[..i + 1])) == adds[i].depth + 1
    ensures |EncodeAll(Built(adds[..i + 1]))| == |EncodeAll(Built(adds[..i]))| + 4 + |adds[i].payload|
    ensures |EncodeAll(Built(adds[..i + 1]))| <= |EncodeAll(Built(adds))|
    decreases |adds| - i
  {
    hide EncodeAll, EdgeDepth, AddAt;
    var next := adds[..i + 1];
    if i + 1 < |adds| {
      BuiltNext(adds, i + 1);
    } else {
      assert next == adds;
    }
    assert next[..i] == adds[..i];
    var os, o := Built(adds[..i]), adds[i].Leaf();
    EdgeAddAt(os, adds[i].depth, o);
    AddGrows(os, adds[i].depth, o);
    EncodeLeaf(o.code, o.data);
  }

  /** A run of additions behind the options already there; it fails exactly when they do not all fit. */
  method AddAll(p: Packet, adds: seq<Addition>) returns (ok: bool)
    requires p.Valid() && Applicable(adds)
    modifies p`endptr, p`forest, p.buf
    ensures p.Sized() && p.buf[..p.hdr + 4] == old(p.buf[..p.hdr + 4])
    ensures ok <==> old(p.endptr) + |EncodeAll(Built(adds))| <= BUF_SIZE
    ensures ok ==> p.Valid() && p.forest == old(p.forest) + Built(adds)
  {
    hide EncodeAll, EdgeDepth, Edge, HandleOn, AddAt, Applicable;
    ghost var base, end := p.forest, p.endptr;
    var stack: seq<Handle> := [];
    NothingBuilt(adds, base);
    for i := 0 to |adds|
      invariant Applicable(adds[..i]) && p.Valid() && p.forest == base + Built(adds[..i])
      invariant |stack| == EdgeDepth(Built(adds[..i])) && Handles(stack, p.forest, p.hdr + 4)
      invariant p.endptr == end + |EncodeAll(Built(adds[..i]))| && p.buf[..p.hdr + 4] == old(p.buf[..p.hdr + 4])
    {
      BuiltNext(adds, i);
      AddBehind(base, Built(adds[..i]), adds[i].depth, adds[i].Leaf());
      var h := AddOne(p, stack, adds[i]);
      if h.None? {
        return false;
      }
      stack := stack[..adds[i].depth] + [h.value];
    }
    assert adds[..|adds|] == adds;
    return true;
  }

  lemma {:induction false} NothingBuilt(adds: seq<Addition>, base: seq<Opt>)
    ensures Applicable(adds[..0]) && Built(adds[..0]) == [] && EdgeDepth([]) == 0 && EncodeAll([]) == [] && base + [] == base
  {
  }

  /** The identifiers every reply begins with. */
  function Identifiers(serverid: seq<Byte>, clientid: seq<Byte>): seq<Opt> {
    [Opt(SERVERID, serverid, []), Opt(CLIENTID, clientid, [])]
  }

  lemma {:induction false} IdentifierBytes(serverid: seq<Byte>, clientid: seq<Byte>, os: seq<Opt>)
    ensures |EncodeAll(Identifiers(serverid, clientid))| == 8 + |serverid| + |clientid|
    ensures EncodeAll(Identifiers(serverid, clientid) + os) == EncodeAll(Identifiers(serverid, clientid)) + EncodeAll(os)
  {
    hide Encode;
    var s, c := Opt(SERVERID, serverid, []), Opt(CLIENTID, clientid, []);
    EncodeAppend([s, c], os);
    assert [s, c][1..] == [c] && [c][1..] == [];
    assert EncodeAll([s, c]) == Encode(s) + (Encode(c) + EncodeAll([]));
    EncodeLeaf(SERVERID, serverid);
    EncodeLeaf(CLIENTID, clientid);
  }

  lemma {:induction false} HeadAndTail(buf: array<Byte>, lo: nat, mid: nat, hi: nat)
    requires lo <= mid <= hi <= buf.Length
    ensures buf[lo..hi] == buf[..mid][lo..] + buf[mid..hi]
  {
  }

  /** The reply to a request: its envelopes around header, identifiers and the options added; none exactly
      when that exceeds the buffer. */
  method Reply(req: Received, kind: Byte, adds: seq<Addition>) returns (sent: Option<seq<Byte>>)
    requires |req.transId| == 3 && Applicable(adds)
    modifies req
    ensures sent.None? <==>
      38 * |old(req.relays)| + 12 + |req.serverid| + |req.clientid| + |EncodeAll(Built(adds))| > BUF_SIZE
    ensures sent.Some? ==>
      var m := [kind] + req.transId + EncodeAll(Identifiers(req.serverid, req.clientid) + Built(adds));
      sent.value == Wrap(old(req.relays), m)
  {
    hide EncodeAll, Wrap, Applicable;
    ghost var os := Built(adds);
    IdentifierBytes(req.serverid, req.clientid, os);
    var p := AllocReply(req, kind);
    if p == null {
      return None;
    }
    ghost var top := p.buf[..p.hdr + 4];
    assert top[p.hdr..] == [kind] + req.transId;
    var ok := AddAll(p, adds);
    if !ok {
      return None;
    }
    HeadAndTail(p.buf, p.hdr, p.hdr + 4, p.endptr);
    p.FillRelayInfo();
    assert p.buf[0..p.endptr] == p.buf[..p.endptr];
    sent := Some(p.buf[p.hdr..p.endptr]);
  }

  lemma {:induction false} LegalMember(os: seq<Opt>, o: Opt)
    requires AllLegal(os) && o in os
    ensures Legal(o)
    decreases |os|
  {
    hide Legal;
    if o != os[0] {
      LegalMember(os[1..], o);
    }
  }

  /** The client identifier of an accepted request is legal, and the transaction has three bytes. */
  lemma {:induction false} RequestParts(b: seq<Byte>)
    requires RequestOf(b).Some?
    ensures |RequestOf(b).value.transId| == 3 && |RequestOf(b).value.relays| <= HOP_COUNT_LIMIT
    ensures var c := RequestOf(b).value.top.clientid; c.Some? ==> Legal(Opt(CLIENTID, c.value.data, []))
  {
    hide Unwrap, ParseMany, LastWith, Singles;
    var m := Unwrap(RELAY_FORW, b, 0).value.1;
    var c := RequestOf(b).value.top.clientid;
    if c.Some? {
      ParseManySound(m[4..]);
      LegalMember(ParseMany(m[4..]).value, c.value);
    }
  }

  lemma {:induction false} AnswerLegal(serverid: seq<Byte>, clientid: seq<Byte>, adds: seq<Addition>)
    requires Applicable(adds) && |EncodeAll(Built(adds))| < 0x1_0000 && Legal(Opt(CLIENTID, clientid, []))
    ensures AllLegal(Identifiers(serverid, clientid) + Built(adds)) <==> Legal(Opt(SERVERID, serverid, [])) && Proper(adds)
  {
    hide Legal, Proper, Built, EncodeAll;
    var s, c := Opt(SERVERID, serverid, []), Opt(CLIENTID, clientid, []);
    BuiltLegal(adds);
    LegalAppend([s, c], Built(adds));
    assert [s, c][1..] == [c] && [c][1..] == [];
    assert AllLegal([s, c]) <==> Legal(s) && Legal(c) && AllLegal([]);
  }

  /** No other options around any Relay-Message. */
  ghost function Bare(n: nat): (ws: seq<Around>)
    ensures |ws| == n
  {
    seq(n, _ => Around([], []))
  }

  lemma {:induction false} WrapEnveloped(rs: seq<Relay>, m: seq<Byte>)
    ensures Wrap(rs, m) == Enveloped(RELAY_REPL, rs, Bare(|rs|), m)
    decreases |rs|
  {
    hide U16;
    if rs != [] {
      WrapEnveloped(rs[1..], m);
      assert Bare(|rs|)[1..] == Bare(|rs[1..]|);
      var inner := Wrap(rs[1..], m);
      var o := U16(RELAY_MSG) + U16(|inner|) + inner;
      assert EncodeAll([]) + o + EncodeAll([]) == o;
    }
  }

  /** The request leaves room for the reply with these additions, and names its client. */
  ghost predicate Answerable(r: Request, serverid: seq<Byte>, adds: seq<Addition>)
    requires Applicable(adds)
  {
    && r.top.clientid.Some?
    && 38 * |r.relays| + 12 + |serverid| + |r.top.clientid.value.data| + |EncodeAll(Built(adds))| <= BUF_SIZE
  }

  /** What is sent is the request's envelopes around type, its transaction, both identifiers and the additions. */
  ghost predicate Answered(r: Request, serverid: seq<Byte>, kind: Byte, adds: seq<Addition>, sent: seq<Byte>)
    requires Applicable(adds)
  {
    && Answerable(r, serverid, adds)
    && var forest := Identifiers(serverid, r.top.clientid.value.data) + Built(adds);
       var m := [kind] + r.transId + EncodeAll(forest);
       && sent == Enveloped(RELAY_REPL, r.relays, Bare(|r.relays|), m)
       && |sent| >= 4 && Unwrap(RELAY_REPL, sent, 0) == Some((r.relays, m))
       && |m| >= 4 && (ParseMany(m[4..]) == Some(forest) <==> Legal(Opt(SERVERID, serverid, [])) && Proper(adds))
  }

  /** From datagram to datagram: parse the request, start the reply, add options, wrap it again.  Whatever request
      the received bytes hold is answered exactly when there is room; what is sent unwraps to the request's
      envelopes and the message built, whose options parse back exactly when the server's identifier is legal and
      every addition proper. */
  method Answer(datagram: seq<Byte>, serverid: seq<Byte>, kind: Byte, adds: seq<Addition>) returns (sent: Option<seq<Byte>>)
    requires Applicable(adds) && kind != RELAY_REPL
    ensures sent.Some? ==> exists r, ws :: Holds(datagram, r, ws) && Answered(r, serverid, kind, adds, sent.value)
    ensures |datagram| < 0x1_0000 ==> forall r, ws | Holds(datagram, r, ws) ::
      && (sent.Some? <==> Answerable(r, serverid, adds))
      && (sent.Some? ==> Answered(r, serverid, kind, adds, sent.value))
  {
    hide EncodeAll, ParseMany, Unwrap, Wrap, AllLegal, Legal, Proper, Applicable, RequestOf, Holds, Answered;
    var req := ParsePacket(datagram);
    forall r, ws | |datagram| < 0x1_0000 && Holds(datagram, r, ws) ensures req == Some(r) {
      RequestComplete(datagram, r, ws);
    }
    if req.None? || req.value.top.clientid.None? {
      return None;
    }
    RequestParts(datagram);
    var clientid := req.value.top.clientid.value.data;
    var rcv := new Received(req.value.relays, req.value.transId, serverid, clientid);
    sent := Reply(rcv, kind, adds);
    if sent.Some? {
      ghost var ws := RequestSound(datagram);
      AnswerMeaning(datagram, serverid, kind, adds, sent.value);
    }
  }

  lemma {:induction false} AnswerMeaning(datagram: seq<Byte>, serverid: seq<Byte>, kind: Byte, adds: seq<Addition>,
                                         sent: seq<Byte>)
    requires Applicable(adds) && kind != RELAY_REPL && RequestOf(datagram).Some?
    requires Answerable(RequestOf(datagram).value, serverid, adds)
    requires var r := RequestOf(datagram).value;
      sent == Wrap(r.relays, [kind] + r.transId + EncodeAll(Identifiers(serverid, r.top.clientid.value.data) + Built(adds)))
    ensures Answered(RequestOf(datagram).value, serverid, kind, adds, sent)
  {
    hide EncodeAll, ParseMany, Unwrap, Wrap, AllLegal, Legal, Proper, Applicable, RequestOf, Enveloped;
    var r := RequestOf(datagram).value;
    var clientid := r.top.clientid.value.data;
    var forest := Identifiers(serverid, clientid) + Built(adds);
    RequestParts(datagram);
    IdentifierBytes(serverid, clientid, Built(adds));
    AnswerLegal(serverid, clientid, adds);
    ReplyMeaning(datagram, kind, r.transId, forest);
    WrapEnveloped(r.relays, [kind] + r.transId + EncodeAll(forest));
  }
}
