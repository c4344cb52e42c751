/**
  Whole datagrams as bytes: relay envelopes with other options around the one Relay-Message, and the
  message inside.  The receive path reads exactly what was written.
 */
module Dhcpv6Datagram {
  import opened Base
  import opened Dhcpv6Options
  import opened Dhcpv6Builder
  import opened Dhcpv6Relay

  /** Other options of an envelope, in front of and behind its Relay-Message. */
  datatype Around = Around(front: seq<Opt>, back: seq<Opt>)

  /** An option that the search for the Relay-Message skips. */
  ghost predicate Skipped(o: Opt) {
    o.code < 0x1_0000 && o.code != RELAY_MSG && |Encode(o)| < 0x1_0004
  }

  ghost predicate AllSkipped(os: seq<Opt>) {
    forall o | o in os :: Skipped(o)
  }

  ghost predicate AroundOk(ws: seq<Around>) {
    forall w | w in ws :: AllSkipped(w.front) && AllSkipped(w.back)
  }

  /** The bytes of one envelope around `inner`: type, hop count, link and peer address, options. */
  ghost function Envelope(kind: Byte, r: Relay, w: Around, inner: seq<Byte>): (b: seq<Byte>)
    ensures |b| == 38 + |EncodeAll(w.front)| + |inner| + |EncodeAll(w.back)|
  {
    [kind, r.hop] + r.link + r.peer
    + (EncodeAll(w.front) + (U16(RELAY_MSG) + U16(|inner|) + inner) + EncodeAll(w.back))
  }

  /** A message inside envelopes, outermost first. */
  ghost function Enveloped(kind: Byte, rs: seq<Relay>, ws: seq<Around>, m: seq<Byte>): (b: seq<Byte>)
    requires |ws| == |rs|
    ensures |b| >= |m|
    decreases |rs|
  {
    if rs == [] then m else Envelope(kind, rs[0], ws[0], Enveloped(kind, rs[1..], ws[1..], m))
  }

  // ----- The search for the Relay-Message ------------------------------------------------------

  lemma {:induction false} SkipOne(o: Opt, rest: seq<Byte>, found: Option<seq<Byte>>)
    requires Skipped(o)
    ensures ScanRelay(Encode(o) + rest, found) == ScanRelay(rest, found)
  {
    hide U16, ReadU16, Encode;
    EncodeHead(o, rest);
    var d := Encode(o) + rest;
    assert d[|Encode(o)|..] == rest;
  }

  lemma {:induction false} SkipAll(os: seq<Opt>, rest: seq<Byte>, found: Option<seq<Byte>>)
    requires AllSkipped(os)
    ensures ScanRelay(EncodeAll(os) + rest, found) == ScanRelay(rest, found)
    decreases |os|
  {
    hide Encode, ScanRelay, Skipped;
    if os == [] {
      assert [] + rest == rest;
    } else {
      SkipAll(os[1..], rest, found);
      SkipOne(os[0], EncodeAll(os[1..]) + rest, found);
      assert EncodeAll(os) + rest == Encode(os[0]) + (EncodeAll(os[1..]) + rest);
    }
  }

  lemma {:induction false} TakeOne(inner: seq<Byte>, rest: seq<Byte>)
    requires 4 <= |inner| < 0x1_0000
    ensures ScanRelay(U16(RELAY_MSG) + U16(|inner|) + inner + rest, None) == ScanRelay(rest, Some(inner))
  {
    hide U16, ReadU16;
    var o := Opt(RELAY_MSG, inner, []);
    assert o.data + EncodeAll([]) == inner;
    assert Encode(o) == U16(RELAY_MSG) + U16(|inner|) + inner;
    hide Encode;
    EncodeHead(o, rest);
    var d := Encode(o) + rest;
    assert d[|Encode(o)|..] == rest;
  }

  /** The search finds the one Relay-Message among other options. */
  lemma {:induction false} ScanFinds(w: Around, inner: seq<Byte>)
    requires AllSkipped(w.front) && AllSkipped(w.back) && 4 <= |inner| < 0x1_0000
    ensures ScanRelay(EncodeAll(w.front) + (U16(RELAY_MSG) + U16(|inner|) + inner) + EncodeAll(w.back), None) == Some(inner)
  {
    hide U16, EncodeAll, AllSkipped;
    var f, o, g := EncodeAll(w.front), U16(RELAY_MSG) + U16(|inner|) + inner, EncodeAll(w.back);
    SkipAll(w.front, o + g, None);
    assert f + o + g == f + (o + g);
    TakeOne(inner, g);
    SkipAll(w.back, [], Some(inner));
    assert g + [] == g;
  }

  /** What the search accepts is one Relay-Message among other options. */
  lemma {:induction false} ScanRest(d: seq<Byte>, found: Option<seq<Byte>>) returns (os: seq<Opt>)
    requires ScanRelay(d, found).Some? && found.Some?
    ensures ScanRelay(d, found) == found && AllSkipped(os) && d == EncodeAll(os)
    decreases |d|
  {
    hide ReadU16;
    if d == [] {
      os := [];
    } else {
      var o, n := RawOption(d);
      var rest := ScanRest(d[n..], found);
      os := [o] + rest;
      assert os[1..] == rest;
    }
  }

  /** The raw option at the front of some bytes. */
  lemma {:induction false} RawOption(d: seq<Byte>) returns (o: Opt, n: nat)
    requires |d| >= 4 && 4 + ReadU16(d, 2) <= |d|
    ensures n == 4 + ReadU16(d, 2) && o == Opt(ReadU16(d, 0), d[4..n], []) && Encode(o) == d[..n]
    ensures d == Encode(o) + d[n..] && |Encode(o)| < 0x1_0004
  {
    n := 4 + ReadU16(d, 2);
    o := Opt(ReadU16(d, 0), d[4..n], []);
    ReadBack(d, 0);
    ReadBack(d, 2);
    hide U16, ReadU16;
    assert o.data + EncodeAll([]) == d[4..n];
    assert d[..2] + d[2..4] + d[4..n] == d[..n];
  }

  lemma {:induction false} ScanSound(d: seq<Byte>) returns (w: Around)
    requires ScanRelay(d, None).Some?
    ensures var inner := ScanRelay(d, None).value;
      && AllSkipped(w.front) && AllSkipped(w.back)
      && d == EncodeAll(w.front) + (U16(RELAY_MSG) + U16(|inner|) + inner) + EncodeAll(w.back)
    decreases |d|
  {
    hide ReadU16, U16, Encode;
    var o, n := RawOption(d);
    if o.code == RELAY_MSG {
      var back := ScanRest(d[n..], Some(d[4..n]));
      w := Around([], back);
      EncodeRaw(o);
      assert EncodeAll([]) + Encode(o) == Encode(o);
    } else {
      var w' := ScanSound(d[n..]);
      w := Around([o] + w'.front, w'.back);
      assert w.front[1..] == w'.front;
      var inner := ScanRelay(d, None).value;
      var x, f, m, g := Encode(o), EncodeAll(w'.front), U16(RELAY_MSG) + U16(|inner|) + inner, EncodeAll(w'.back);
      assert x + (f + m + g) == (x + f) + m + g;
    }
  }

  lemma {:induction false} EncodeRaw(o: Opt)
    requires o.kids == []
    ensures Encode(o) == U16(o.code) + U16(|o.data|) + o.data
  {
    hide U16;
    assert o.data + EncodeAll([]) == o.data;
  }

  // ----- Envelopes -----------------------------------------------------------------------------

  lemma {:induction false} EnvelopeParts(kind: Byte, r: Relay, w: Around, inner: seq<Byte>)
    ensures var b := Envelope(kind, r, w, inner);
      && b[0] == kind && b[1] == r.hop && b[2..18] == r.link && b[18..34] == r.peer
      && b[34..] == EncodeAll(w.front) + (U16(RELAY_MSG) + U16(|inner|) + inner) + EncodeAll(w.back)
  {
    hide U16, EncodeAll;
  }

  /** Envelopes are read back in order, with hop count, link and peer address, whatever options are around. */
  lemma {:induction false} UnwrapEnveloped(kind: Byte, rs: seq<Relay>, ws: seq<Around>, m: seq<Byte>, depth: nat)
    requires |ws| == |rs| && AroundOk(ws) && |m| >= 4 && m[0] != kind && depth + |rs| <= HOP_COUNT_LIMIT
    requires |Enveloped(kind, rs, ws, m)| < 0x1_0000
    ensures Unwrap(kind, Enveloped(kind, rs, ws, m), depth) == Some((rs, m))
    decreases |rs|
  {
    hide ScanRelay, Envelope, AllSkipped;
    if rs != [] {
      var inner := Enveloped(kind, rs[1..], ws[1..], m);
      UnwrapEnveloped(kind, rs[1..], ws[1..], m, depth + 1);
      EnvelopeParts(kind, rs[0], ws[0], inner);
      ScanFinds(ws[0], inner);
      assert rs == [rs[0]] + rs[1..];
    }
  }

  /** Nothing but envelopes around a message is accepted. */
  lemma {:induction false} UnwrapSound(kind: Byte, b: seq<Byte>, depth: nat) returns (ws: seq<Around>)
    requires |b| >= 4 && Unwrap(kind, b, depth).Some?
    ensures var (rs, m) := Unwrap(kind, b, depth).value;
      |ws| == |rs| && AroundOk(ws) && b == Enveloped(kind, rs, ws, m)
    decreases |b|
  {
    hide ScanRelay, AllSkipped;
    if b[0] != kind {
      ws := [];
    } else {
      var inner := ScanRelay(b[34..], None).value;
      var w := ScanSound(b[34..]);
      var rest := UnwrapSound(kind, inner, depth + 1);
      ws := [w] + rest;
      var rs := Unwrap(kind, b, depth).value.0;
      assert rs[1..] == Unwrap(kind, inner, depth + 1).value.0 && ws[1..] == rest;
      assert b == [kind, rs[0].hop] + rs[0].link + rs[0].peer + b[34..];
    }
  }

  // ----- Whole datagrams -----------------------------------------------------------------------

  /** `o` is the last option with this code, if there is any. */
  ghost predicate LastOf(os: seq<Opt>, code: nat, o: Option<Opt>) {
    match o
    case None => forall x | x in os :: x.code != code
    case Some(x) => exists i | 0 <= i < |os| :: os[i] == x && x.code == code && forall j | i < j < |os| :: os[j].code != code
  }

  lemma {:induction false} LastWithIs(os: seq<Opt>, code: nat)
    ensures LastOf(os, code, LastWith(os, code))
    decreases |os|
  {
    if os != [] && os[|os| - 1].code != code {
      LastWithIs(os[..|os| - 1], code);
      if LastWith(os, code).Some? {
        var front, x := os[..|os| - 1], LastWith(os, code).value;
        var i :| 0 <= i < |front| && front[i] == x && forall j | i < j < |front| :: front[j].code != code;
        assert os[i] == x && forall j | i < j < |os| :: os[j].code != code;
      }
    }
  }

  lemma {:induction false} LastOfOne(os: seq<Opt>, code: nat, o: Option<Opt>)
    requires LastOf(os, code, o)
    ensures o == LastWith(os, code)
  {
    LastWithIs(os, code);
  }

  /** The datagram holds this request: envelopes with their relays around type, transaction and legal options. */
  ghost predicate Holds(b: seq<Byte>, r: Request, ws: seq<Around>) {
    && |ws| == |r.relays| <= HOP_COUNT_LIMIT && AroundOk(ws) && |r.transId| == 3 && r.kind != RELAY_FORW
    && b == Enveloped(RELAY_FORW, r.relays, ws, [r.kind] + r.transId + EncodeAll(r.top.opts))
    && AllLegal(r.top.opts) && Singles(r.top.opts)
    && LastOf(r.top.opts, CLIENTID, r.top.clientid) && LastOf(r.top.opts, SERVERID, r.top.serverid)
    && (r.top.rapid <==> exists o :: o in r.top.opts && o.code == RAPID_COMMIT)
  }

  /** Every datagram that holds a request is accepted as that request. */
  lemma {:induction false} RequestComplete(b: seq<Byte>, r: Request, ws: seq<Around>)
    requires Holds(b, r, ws) && |b| < 0x1_0000
    ensures RequestOf(b) == Some(r)
  {
    hide Enveloped, Unwrap, ParseMany, AllLegal, Singles, LastWith, LastOf, AroundOk, EncodeAll;
    var os := r.top.opts;
    var m := [r.kind] + r.transId + EncodeAll(os);
    UnwrapEnveloped(RELAY_FORW, r.relays, ws, m, 0);
    assert m[1..4] == r.transId && m[4..] == EncodeAll(os);
    ParseExactly(m[4..], os);
    LastOfOne(os, CLIENTID, r.top.clientid);
    LastOfOne(os, SERVERID, r.top.serverid);
  }

  /** Every accepted datagram holds the request it is accepted as. */
  lemma {:induction false} RequestSound(b: seq<Byte>) returns (ws: seq<Around>)
    requires RequestOf(b).Some?
    ensures Holds(b, RequestOf(b).value, ws)
  {
    hide Enveloped, Unwrap, ParseMany, AllLegal, Singles, LastWith, LastOf, AroundOk, EncodeAll;
    var r := RequestOf(b).value;
    var m := Unwrap(RELAY_FORW, b, 0).value.1;
    ws := UnwrapSound(RELAY_FORW, b, 0);
    ParseManySound(m[4..]);
    assert m == [r.kind] + r.transId + m[4..];
    LastWithIs(r.top.opts, CLIENTID);
    LastWithIs(r.top.opts, SERVERID);
  }
}
