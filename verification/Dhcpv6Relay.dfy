/**
  Relay envelopes (sections 19.3 and 21.10 of RFC 8415) and whole packets: relay messages are
  unwrapped on receive, and a reply is wrapped in the same envelopes again.
 */
module Dhcpv6Relay {
  import opened Base
  import opened Dhcpv6Options

  const RELAY_FORW: Byte := 12
  const RELAY_REPL: Byte := 13
  const HOP_COUNT_LIMIT: nat := 8

  type Addr = d: seq<Byte> | |d| == 16 witness seq(16, _ => 0)

  datatype Relay = Relay(hop: Byte, link: Addr, peer: Addr)

  function RelayHead(kind: Byte, r: Relay): (b: seq<Byte>)
    ensures |b| == 34
  {
    [kind, r.hop] + r.link + r.peer
  }

  /** The bytes of `m` inside the reply envelopes `rs`, outermost first. */
  function Wrap(rs: seq<Relay>, m: seq<Byte>): (b: seq<Byte>)
    ensures |b| == 38 * |rs| + |m|
  {
    if rs == [] then m
    else
      var inner := Wrap(rs[1..], m);
      RelayHead(RELAY_REPL, rs[0]) + (U16(RELAY_MSG) + U16(|inner|) + inner)
  }

  /** The payload of the only Relay-Message option in a sequence of options that is otherwise skipped. */
  function ScanRelay(d: seq<Byte>, found: Option<seq<Byte>>): (r: Option<seq<Byte>>)
    ensures r.Some? ==> r == found || 4 <= |r.value| < |d|
  {
    if d == [] then found
    else if |d| < 4 || 4 + ReadU16(d, 2) > |d| then None
    else
      var n := 4 + ReadU16(d, 2);
      if ReadU16(d, 0) == RELAY_MSG then
        if found.Some? || n < 8 then None else ScanRelay(d[n..], Some(d[4..n]))
      else ScanRelay(d[n..], found)
  }

  /** Peels envelopes of the given kind off a message, at most eight. */
  function Unwrap(kind: Byte, b: seq<Byte>, depth: nat): (r: Option<(seq<Relay>, seq<Byte>)>)
    requires |b| >= 4
    ensures r.Some? ==> |r.value.1| >= 4 && r.value.1[0] != kind
    ensures r.Some? && depth <= HOP_COUNT_LIMIT ==> depth + |r.value.0| <= HOP_COUNT_LIMIT
    decreases |b|
  {
    if b[0] != kind then Some(([], b))
    else if depth >= HOP_COUNT_LIMIT || |b| < 34 then None
    else
      var inner := ScanRelay(b[34..], None);
      if inner.None? then None
      else
        var rest := Unwrap(kind, inner.value, depth + 1);
        if rest.None? then None
        else Some(([Relay(b[1], b[2..18], b[18..34])] + rest.value.0, rest.value.1))
  }

  lemma {:induction false} OnlyOption(inner: seq<Byte>)
    requires 4 <= |inner| < 0x1_0000
    ensures ScanRelay(U16(RELAY_MSG) + U16(|inner|) + inner, None) == Some(inner)
  {
    hide U16, ReadU16;
    var d := U16(RELAY_MSG) + U16(|inner|) + inner;
    var o := Opt(RELAY_MSG, inner, []);
    assert o.data + EncodeAll([]) == inner;
    EncodeHead(o, []);
    assert Encode(o) + [] == d;
    assert d[|d|..] == [];
  }

  /** Unwrapping a wrapped message gives back the same envelopes in the same order, and the message. */
  lemma {:induction false} UnwrapWrap(rs: seq<Relay>, m: seq<Byte>, depth: nat)
    requires |m| >= 4 && m[0] != RELAY_REPL && depth + |rs| <= HOP_COUNT_LIMIT && |Wrap(rs, m)| < 0x1_0000
    ensures Unwrap(RELAY_REPL, Wrap(rs, m), depth) == Some((rs, m))
    decreases |rs|
  {
    hide U16, ScanRelay;
    if rs != [] {
      var b, inner, r := Wrap(rs, m), Wrap(rs[1..], m), rs[0];
      UnwrapWrap(rs[1..], m, depth + 1);
      assert b[34..] == U16(RELAY_MSG) + U16(|inner|) + inner;
      OnlyOption(inner);
      assert b[1] == r.hop && b[2..18] == r.link && b[18..34] == r.peer;
      assert rs == [r] + rs[1..];
    }
  }

  /** The first envelope: its head, and a Relay-Message option over all the rest. */
  lemma {:induction false} FirstEnvelope(rs: seq<Relay>, m: seq<Byte>)
    requires rs != [] && |Wrap(rs, m)| < 0x1_0000
    ensures var b, inner := Wrap(rs, m), Wrap(rs[1..], m);
      && b[38..] == inner && b[0] == RELAY_REPL && b[1] == rs[0].hop
      && ReadU16(b, 34) == RELAY_MSG && ReadU16(b, 36) == |inner|
  {
    var b, inner := Wrap(rs, m), Wrap(rs[1..], m);
    var o := Opt(RELAY_MSG, inner, []);
    assert o.data + EncodeAll([]) == inner;
    assert b[34..] == Encode(o) + [];
    EncodeHead(o, []);
    hide U16, Encode;
    assert b[34] == b[34..][0] && b[35] == b[34..][1] && b[36] == b[34..][2] && b[37] == b[34..][3];
    assert b[38..] == b[34..][4..];
  }

  /** Envelope `k` starts at byte 38k, and its Relay-Message option reaches exactly to the end of the packet. */
  lemma {:induction false} EnvelopeAt(rs: seq<Relay>, m: seq<Byte>, k: nat)
    requires k < |rs| && |Wrap(rs, m)| < 0x1_0000
    ensures var b := Wrap(rs, m);
      && b[38 * k..] == Wrap(rs[k..], m) && b[38 * k] == RELAY_REPL && b[38 * k + 1] == rs[k].hop
      && ReadU16(b, 38 * k + 34) == RELAY_MSG && 38 * k + 38 + ReadU16(b, 38 * k + 36) == |b|
    decreases k
  {
    hide Wrap;
    var b, inner := Wrap(rs, m), Wrap(rs[1..], m);
    FirstEnvelope(rs, m);
    if k == 0 {
      assert rs[0..] == rs && b[0..] == b;
    } else {
      EnvelopeAt(rs[1..], m, k - 1);
      assert rs[1..][k - 1..] == rs[k..] && rs[1..][k - 1] == rs[k];
      TailBytes(b, inner, 38 * (k - 1));
    }
  }

  lemma {:induction false} TailBytes(b: seq<Byte>, inner: seq<Byte>, p: nat)
    requires |b| >= 38 && b[38..] == inner && p + 38 <= |inner|
    ensures b[p + 38..] == inner[p..] && b[p + 38] == inner[p] && b[p + 39] == inner[p + 1]
    ensures ReadU16(b, p + 72) == ReadU16(inner, p + 34) && ReadU16(b, p + 74) == ReadU16(inner, p + 36)
  {
  }

  // ----- Receiving a packet --------------------------------------------------------------------

  const CLIENTID: nat := 1
  const SERVERID: nat := 2

  datatype Top = Top(opts: seq<Opt>, clientid: Option<Opt>, serverid: Option<Opt>, rapid: bool)

  datatype Request = Request(relays: seq<Relay>, kind: Byte, transId: seq<Byte>, top: Top)

  function LastWith(os: seq<Opt>, code: nat): (r: Option<Opt>)
    ensures r.None? <==> forall o | o in os :: o.code != code
    ensures r.Some? ==> r.value in os && r.value.code == code
  {
    if os == [] then None
    else if os[|os| - 1].code == code then Some(os[|os| - 1])
    else LastWith(os[..|os| - 1], code)
  }

  /** AFTR-Name and Rapid-Commit occur at most once, and Rapid-Commit is empty. */
  predicate Singles(os: seq<Opt>) {
    && (forall i, j | 0 <= i < j < |os| :: os[i].code == os[j].code ==> os[i].code !in {AFTR_NAME, RAPID_COMMIT})
    && (forall i | 0 <= i < |os| :: os[i].code == RAPID_COMMIT ==> os[i].data == [])
  }

  function TopOf(r: Option<seq<Opt>>): Option<Top> {
    if r.None? || !Singles(r.value) then None
    else Some(Top(r.value, LastWith(r.value, CLIENTID), LastWith(r.value, SERVERID),
                  LastWith(r.value, RAPID_COMMIT).Some?))
  }

  /** What a received datagram means. */
  function RequestOf(b: seq<Byte>): Option<Request> {
    if |b| < 4 then None
    else
      var u := Unwrap(RELAY_FORW, b, 0);
      if u.None? then None
      else
        var m := u.value.1;
        var top := TopOf(ParseMany(m[4..]));
        if top.None? then None else Some(Request(u.value.0, m[0], m[1..4], top.value))
  }

  /** Unwrapping with some envelopes already peeled off. */
  function Outer(rs: seq<Relay>, r: Option<(seq<Relay>, seq<Byte>)>): Option<(seq<Relay>, seq<Byte>)> {
    if r.None? then None else Some((rs + r.value.0, r.value.1))
  }

  lemma {:induction false} OuterNothing(rs: seq<Relay>, r: Option<(seq<Relay>, seq<Byte>)>, m: seq<Byte>)
    ensures Outer([], r) == r && Outer(rs, Some(([], m))) == Some((rs, m))
  {
    assert r.Some? ==> [] + r.value.0 == r.value.0;
    assert rs + [] == rs;
  }

  /** Peeling one envelope off `buf[hdr..end]`, given what the scan behind its header found. */
  lemma {:induction false} PeelOne(rs: seq<Relay>, buf: seq<Byte>, hdr: nat, end: nat, depth: nat)
    requires hdr + 34 <= end <= |buf| && buf[hdr] == RELAY_FORW && depth < HOP_COUNT_LIMIT
    ensures var r := Relay(buf[hdr + 1], buf[hdr + 2..hdr + 18], buf[hdr + 18..hdr + 34]);
      var inner := ScanRelay(buf[hdr + 34..end], None);
      Outer(rs, Unwrap(RELAY_FORW, buf[hdr..end], depth)) ==
        if inner.None? then None else Outer(rs + [r], Unwrap(RELAY_FORW, inner.value, depth + 1))
  {
    hide ScanRelay;
    var b := buf[hdr..end];
    var r := Relay(buf[hdr + 1], buf[hdr + 2..hdr + 18], buf[hdr + 18..hdr + 34]);
    SliceSlice(buf, hdr, end, 2, 18);
    SliceSlice(buf, hdr, end, 18, 34);
    assert b[34..] == buf[hdr + 34..end];
    var inner := ScanRelay(b[34..], None);
    if inner.Some? {
      var rest := Unwrap(RELAY_FORW, inner.value, depth + 1);
      assert rest.Some? ==> rs + ([r] + rest.value.0) == rs + [r] + rest.value.0;
    }
  }

  /** Bounds of the only Relay-Message payload between `begin` and `end`. */
  method FindRelayMsg(buf: seq<Byte>, begin: nat, end: nat) returns (r: Option<(nat, nat)>)
    requires begin <= end <= |buf|
    ensures r.None? ==> ScanRelay(buf[begin..end], None).None?
    ensures r.Some? ==> begin + 4 <= r.value.0 && r.value.0 + 4 <= r.value.1 <= end
    ensures r.Some? ==> ScanRelay(buf[begin..end], None) == Some(buf[r.value.0..r.value.1])
  {
    hide ReadU16;
    var ptr := begin;
    r := None;
    ghost var found: Option<seq<Byte>> := None;
    while ptr < end
      invariant begin <= ptr <= end && r.Some? == found.Some?
      invariant r.Some? ==> begin + 4 <= r.value.0 && r.value.0 + 4 <= r.value.1 <= end
      invariant r.Some? ==> found.value == buf[r.value.0..r.value.1]
      invariant ScanRelay(buf[begin..end], None) == ScanRelay(buf[ptr..end], found)
      decreases end - ptr
    {
      if ptr + 4 > end {
        return None;
      }
      SliceRead(buf, ptr, end, 0);
      SliceRead(buf, ptr, end, 2);
      var n := 4 + ReadU16(buf, ptr + 2);
      if ptr + n > end {
        return None;
      }
      SliceSlice(buf, ptr, end, 4, n);
      SliceSlice(buf, ptr, end, n, end - ptr);
      assert buf[ptr..end][n..] == buf[ptr + n..end];
      if ReadU16(buf, ptr) == RELAY_MSG {
        if r.Some? || n < 8 {
          return None;
        }
        r := Some((ptr + 4, ptr + n));
        found := Some(buf[ptr + 4..ptr + n]);
      }
      ptr := ptr + n;
    }
  }

  /** The header read before parsing agrees with the option that parsing then yields. */
  lemma {:induction false} PeekHeader(b: seq<Byte>)
    requires ParseOne(b).Some?
    ensures |b| >= 4 && 4 + ReadU16(b, 2) <= |b|
    ensures var o := ParseOne(b).value.0;
      o.code == ReadU16(b, 0) && (o.code == RAPID_COMMIT ==> |o.data| == ReadU16(b, 2))
  {
    hide MinLen, ValidAftr, ReadU16;
  }

  lemma {:induction false} FirstOption(b: seq<Byte>)
    requires b != [] && ParseMany(b).Some?
    ensures ParseOne(b).Some? && ParseMany(b).value != [] && ParseMany(b).value[0] == ParseOne(b).value.0
  {
    hide ParseOne;
  }

  lemma {:induction false} LastWithAppend(os: seq<Opt>, o: Opt, code: nat)
    ensures LastWith(os + [o], code) == if o.code == code then Some(o) else LastWith(os, code)
  {
    assert (os + [o])[..|os|] == os;
  }

  /** A second single-use option, or a Rapid-Commit with a payload, spoils the packet whatever follows. */
  lemma {:induction false} Spoiled(done: seq<Opt>, rest: seq<Opt>)
    requires rest != []
    requires
      || (rest[0].code in {AFTR_NAME, RAPID_COMMIT} && LastWith(done, rest[0].code).Some?)
      || (rest[0].code == RAPID_COMMIT && rest[0].data != [])
    ensures !Singles(done + rest)
  {
    hide LastWith;
    var os := done + rest;
    assert os[|done|] == rest[0];
    if LastWith(done, rest[0].code).Some? {
      var x := LastWith(done, rest[0].code).value;
      var i: nat :| i < |done| && done[i] == x;
      assert os[i].code == os[|done|].code;
    }
  }

  lemma {:induction false} SinglesAppend(os: seq<Opt>, o: Opt)
    requires Singles(os) && (o.code == RAPID_COMMIT ==> o.data == [])
    requires o.code in {AFTR_NAME, RAPID_COMMIT} ==> LastWith(os, o.code).None?
    ensures Singles(os + [o])
  {
    hide LastWith;
    var os' := os + [o];
    forall i, j | 0 <= i < j < |os'| && os'[i].code == os'[j].code
      ensures os'[i].code !in {AFTR_NAME, RAPID_COMMIT}
    {
      if j == |os| {
        assert os[i] in os;
      }
    }
  }

  /** Checks made on the header at `ptr` before the option is parsed. */
  method Screen(buf: seq<Byte>, ptr: nat, end: nat, aftrSeen: bool, rapid: bool, ghost done: seq<Opt>) returns (ok: bool)
    requires ptr < end <= |buf|
    requires aftrSeen == LastWith(done, AFTR_NAME).Some? && rapid == LastWith(done, RAPID_COMMIT).Some?
    ensures ok ==> ParseOne(buf[ptr..end]).Some? && Singles(done) ==> Singles(done + [ParseOne(buf[ptr..end]).value.0])
    ensures !ok ==> TopOf(Prepend(done, ParseMany(buf[ptr..end]))).None?
  {
    hide ReadU16, ParseOne, ParseMany, Singles, LastWith;
    ghost var b := buf[ptr..end];
    ghost var r, os := ParseOne(b), ParseMany(b);
    if os.Some? {
      FirstOption(b);
    }
    if r.Some? {
      PeekHeader(b);
    }
    if ptr + 4 > end {
      return false;
    }
    SliceRead(buf, ptr, end, 0);
    SliceRead(buf, ptr, end, 2);
    var code, len := ReadU16(buf, ptr), ReadU16(buf, ptr + 2);
    if ptr + 4 + len > end {
      return false;
    }
    if (code == AFTR_NAME && aftrSeen) || (code == RAPID_COMMIT && (rapid || len > 0)) {
      if os.Some? {
        Spoiled(done, os.value);
      }
      return false;
    }
    if r.Some? && Singles(done) {
      SinglesAppend(done, r.value.0);
    }
    return true;
  }

  function Noted(t: Top, o: Opt): Top {
    Top(t.opts + [o],
        if o.code == CLIENTID then Some(o) else t.clientid,
        if o.code == SERVERID then Some(o) else t.serverid,
        t.rapid || o.code == RAPID_COMMIT)
  }

  ghost predicate UpToDate(t: Top) {
    && t.clientid == LastWith(t.opts, CLIENTID) && t.serverid == LastWith(t.opts, SERVERID)
    && t.rapid == LastWith(t.opts, RAPID_COMMIT).Some?
  }

  lemma {:induction false} NotedOne(t: Top, o: Opt, rest: Option<seq<Opt>>)
    requires UpToDate(t)
    ensures UpToDate(Noted(t, o))
    ensures LastWith(t.opts + [o], AFTR_NAME).Some? == (o.code == AFTR_NAME || LastWith(t.opts, AFTR_NAME).Some?)
    ensures rest.Some? ==> Prepend(t.opts, Some([o] + rest.value)) == Prepend(t.opts + [o], rest)
  {
    hide LastWith;
    LastWithAppend(t.opts, o, CLIENTID);
    LastWithAppend(t.opts, o, SERVERID);
    LastWithAppend(t.opts, o, RAPID_COMMIT);
    LastWithAppend(t.opts, o, AFTR_NAME);
    assert rest.Some? ==> t.opts + ([o] + rest.value) == t.opts + [o] + rest.value;
  }

  lemma NothingYet()
    ensures Singles([]) && forall code :: LastWith([], code) == None
  {
  }

  /** The options of the innermost message, with the identifiers picked out on the way. */
  method ParseTop(buf: seq<Byte>, begin: nat, end: nat) returns (top: Option<Top>)
    requires begin <= end <= |buf|
    ensures top == TopOf(ParseMany(buf[begin..end]))
  {
    hide ParseOne, LastWith, Singles, ReadU16;
    var ptr := begin;
    var acc := Top([], None, None, false);
    var aftrSeen := false;
    ghost var whole := ParseMany(buf[begin..end]);
    PrependNothing([], whole);
    NothingYet();
    while ptr < end
      invariant begin <= ptr <= end
      invariant whole == Prepend(acc.opts, ParseMany(buf[ptr..end])) && Singles(acc.opts)
      invariant UpToDate(acc) && aftrSeen == LastWith(acc.opts, AFTR_NAME).Some?
    {
      var ok := Screen(buf, ptr, end, aftrSeen, acc.rapid, acc.opts);
      if !ok {
        return None;
      }
      var o, next := ParseOption(buf, ptr, end);
      if o.None? {
        return None;
      }
      assert buf[ptr..end][next - ptr..] == buf[next..end];
      NotedOne(acc, o.value, ParseMany(buf[next..end]));
      acc, aftrSeen := Noted(acc, o.value), aftrSeen || o.value.code == AFTR_NAME;
      ptr := next;
    }
    PrependNothing(acc.opts, None);
    top := Some(acc);
  }

  lemma {:induction false} UnwrapEnds(b: seq<Byte>, depth: nat)
    requires |b| >= 4
    ensures b[0] != RELAY_FORW ==> Unwrap(RELAY_FORW, b, depth) == Some(([], b))
    ensures b[0] == RELAY_FORW && (depth >= HOP_COUNT_LIMIT || |b| < 34) ==> Unwrap(RELAY_FORW, b, depth) == None
  {
    hide ScanRelay;
  }

  /** Parses a datagram: exactly its meaning, and nothing else is accepted. */
  method ParsePacket(buf: seq<Byte>) returns (p: Option<Request>)
    ensures p == RequestOf(buf)
  {
    hide ScanRelay, ParseMany, TopOf, Unwrap;
    if |buf| < 4 {
      return None;
    }
    var hdr: nat, end: nat, depth: nat := 0, |buf|, 0;
    var relays: seq<Relay> := [];
    assert buf[0..|buf|] == buf;
    OuterNothing([], Unwrap(RELAY_FORW, buf, 0), []);
    while buf[hdr] == RELAY_FORW
      invariant hdr + 4 <= end <= |buf| && depth == |relays|
      invariant Unwrap(RELAY_FORW, buf, 0) == Outer(relays, Unwrap(RELAY_FORW, buf[hdr..end], depth))
      decreases end - hdr
    {
      UnwrapEnds(buf[hdr..end], depth);
      if depth >= HOP_COUNT_LIMIT {
        return None;
      }
      if hdr + 34 > end {
        return None;
      }
      PeelOne(relays, buf, hdr, end, depth);
      relays := relays + [Relay(buf[hdr + 1], buf[hdr + 2..hdr + 18], buf[hdr + 18..hdr + 34])];
      var inner := FindRelayMsg(buf, hdr + 34, end);
      if inner.None? {
        return None;
      }
      depth := depth + 1;
      hdr, end := inner.value.0, inner.value.1;
    }
    ghost var m := buf[hdr..end];
    UnwrapEnds(m, depth);
    OuterNothing(relays, None, m);
    SliceSlice(buf, hdr, end, 1, 4);
    SliceSlice(buf, hdr, end, 4, end - hdr);
    assert m[4..] == buf[hdr + 4..end];
    var top := ParseTop(buf, hdr + 4, end);
    if top.Some? {
      p := Some(Request(relays, buf[hdr], buf[hdr + 1..hdr + 4], top.value));
    } else {
      p := None;
    }
  }
}
