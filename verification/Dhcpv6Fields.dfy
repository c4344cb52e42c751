/**
  The fixed parts of DHCPv6 options as sequences of fields: their sizes are the shortest payloads the
  dictionary allows, and what is written into the fields is read back from them.
 */
module Dhcpv6Fields {
  import opened Base
  import opened Powers
  import opened Dhcpv6Options
  import Ipv6Range

  /** Widths in bytes of the fields in front of the variable part of an option. */
  function Layout(code: nat): seq<nat> {
    match code
    case 1 | 2 => [2]              // DUID type
    case 3 | 25 => [4, 4, 4]       // IAID, T1, T2
    case 4 => [4]                  // IAID
    case 5 => [16, 4, 4]           // address, preferred and valid lifetime
    case 7 | 19 => [1]             // preference; message type
    case 8 | 13 => [2]             // elapsed time; status code
    case 9 => [1, 3]               // message type, transaction
    case 12 => [16]                // server address
    case 26 => [4, 4, 1, 16]       // preferred and valid lifetime, prefix length, prefix
    case _ => []
  }

  function Size(ws: seq<nat>): nat {
    if ws == [] then 0 else ws[0] + Size(ws[1..])
  }

  ghost predicate Fit(ws: seq<nat>, vs: seq<nat>) {
    |vs| == |ws| && forall i | 0 <= i < |ws| :: vs[i] < Pow2(8 * ws[i])
  }

  /** The bytes of some fields, each in network byte order. */
  ghost function Fields(ws: seq<nat>, vs: seq<nat>): (d: seq<Byte>)
    requires Fit(ws, vs)
    ensures |d| == Size(ws)
  {
    if ws == [] then [] else Ipv6Range.Bytes(vs[0], ws[0]) + Fields(ws[1..], vs[1..])
  }

  /** Field `i` as read from the payload. */
  ghost function Field(ws: seq<nat>, d: seq<Byte>, i: nat): nat
    requires i < |ws| && Size(ws) <= |d|
    decreases i
  {
    if i == 0 then Ipv6Range.Value(d[..ws[0]]) else Field(ws[1..], d[ws[0]..], i - 1)
  }

  lemma {:induction false} FieldBack(ws: seq<nat>, vs: seq<nat>, tail: seq<Byte>, i: nat)
    requires Fit(ws, vs) && i < |ws|
    ensures Field(ws, Fields(ws, vs) + tail, i) == vs[i]
    decreases i
  {
    hide Pow2;
    var x, d := Ipv6Range.Bytes(vs[0], ws[0]), Fields(ws, vs) + tail;
    assert d[..ws[0]] == x && d[ws[0]..] == Fields(ws[1..], vs[1..]) + tail;
    if i > 0 {
      FieldBack(ws[1..], vs[1..], tail, i - 1);
    }
  }

  lemma LayoutSize(code: nat)
    ensures Size(Layout(code)) == MinLen(code)
  {
    SizeFour(4, 4, 1, 16);
    SizeFour(16, 4, 4, 0);
    SizeFour(4, 4, 4, 0);
    assert [1, 3][1..] == [3];
  }

  lemma SizeFour(a: nat, b: nat, c: nat, d: nat)
    ensures Size([a, b, c, d]) == a + b + c + d && Size([a, b, c]) == a + b + c
  {
    assert [a, b, c, d][1..] == [b, c, d] && [b, c, d][1..] == [c, d] && [c, d][1..] == [d];
    assert [a, b, c][1..] == [b, c] && [b, c][1..] == [c];
    assert [d][1..] == [] && [c][1..] == [];
    assert Size([d]) == d && Size([c]) == c;
    assert Size([c, d]) == c + d && Size([b, c]) == b + c;
    assert Size([b, c, d]) == b + (c + d);
  }

  /** An identity association, address or prefix made of its fields and legal inner options parses to just these,
      and each field reads back. */
  lemma {:induction false} ContainerReadBack(code: nat, vs: seq<nat>, kids: seq<Opt>, i: nat)
    requires code in {IA_NA, IA_TA, IAADDR, IA_PD, IAPREFIX} && Fit(Layout(code), vs) && i < |vs|
    requires AllLegal(kids) && MinLen(code) + |EncodeAll(kids)| < 0x1_0000
    ensures var o := Opt(code, Fields(Layout(code), vs), kids);
      && ParseMany(EncodeAll([o])) == Some([o])
      && Field(Layout(code), o.data, i) == vs[i]
      && |Encode(o)| == 4 + Size(Layout(code)) + |EncodeAll(kids)|
  {
    hide Fields, Field, Layout, Size, ParseMany, Pow2;
    var d := Fields(Layout(code), vs);
    var o := Opt(code, d, kids);
    LayoutSize(code);
    FieldBack(Layout(code), vs, [], i);
    assert d + [] == d;
    assert |d + EncodeAll(kids)| == MinLen(code) + |EncodeAll(kids)|;
    assert [o][1..] == [];
    assert AllLegal([o]) <==> Legal(o) && AllLegal([]);
    assert Legal(o);
    ParseExactly(EncodeAll([o]), [o]);
  }

  /** Any other option parses exactly when it holds at least its fields, and each field reads back. */
  lemma {:induction false} LeafReadBack(code: nat, vs: seq<nat>, tail: seq<Byte>)
    requires code < 0x1_0000 && code !in {IA_NA, IA_TA, IAADDR, IA_PD, IAPREFIX, AFTR_NAME}
    requires Fit(Layout(code), vs) && MinLen(code) + |tail| < 0x1_0000
    ensures var o := Opt(code, Fields(Layout(code), vs) + tail, []);
      && ParseMany(EncodeAll([o])) == Some([o])
      && forall i | 0 <= i < |vs| :: Field(Layout(code), o.data, i) == vs[i]
    ensures forall d: seq<Byte> | |d| < Size(Layout(code)) :: ParseMany(EncodeAll([Opt(code, d, [])])) != Some([Opt(code, d, [])])
  {
    hide Fields, Field, Layout, Size, ParseMany, Pow2;
    var ws := Layout(code);
    LayoutSize(code);
    var o := Opt(code, Fields(ws, vs) + tail, []);
    forall i | 0 <= i < |vs| ensures Field(ws, o.data, i) == vs[i] {
      FieldBack(ws, vs, tail, i);
    }
    LeafLegal(o);
    ParseExactly(EncodeAll([o]), [o]);
    forall d: seq<Byte> | |d| < Size(ws) ensures ParseMany(EncodeAll([Opt(code, d, [])])) != Some([Opt(code, d, [])]) {
      LeafLegal(Opt(code, d, []));
      ParseExactly(EncodeAll([Opt(code, d, [])]), [Opt(code, d, [])]);
    }
  }

  lemma {:induction false} LeafLegal(o: Opt)
    requires o.code < 0x1_0000 && o.code !in {IA_NA, IA_TA, IAADDR, IA_PD, IAPREFIX, AFTR_NAME}
    requires o.kids == [] && |o.data| < 0x1_0000
    ensures AllLegal([o]) <==> |o.data| >= MinLen(o.code)
  {
    assert [o][1..] == [];
    assert AllLegal([o]) <==> Legal(o) && AllLegal([]);
    assert o.data + EncodeAll([]) == o.data;
  }

  // ----- Names ---------------------------------------------------------------------------------

  ghost predicate LabelsOk(ls: seq<seq<Byte>>) {
    forall i | 0 <= i < |ls| :: 1 <= |ls[i]| <= 63
  }

  /** A name on the wire: each label behind its length, and a zero. */
  ghost function NameBytes(ls: seq<seq<Byte>>): seq<Byte>
    requires LabelsOk(ls)
  {
    if ls == [] then [0] else [|ls[0]|] + ls[0] + NameBytes(ls[1..])
  }

  /** Every name of labels of 1 to 63 bytes is well-formed. */
  lemma {:induction false} NameWellFormed(ls: seq<seq<Byte>>)
    requires LabelsOk(ls)
    ensures Labels(NameBytes(ls))
    decreases |ls|
  {
    if ls != [] {
      NameWellFormed(ls[1..]);
      var d := NameBytes(ls);
      assert d[1 + d[0]..] == NameBytes(ls[1..]);
    }
  }

  /** And nothing else is. */
  lemma {:induction false} NameOfLabels(d: seq<Byte>) returns (ls: seq<seq<Byte>>)
    requires Labels(d)
    ensures LabelsOk(ls) && d == NameBytes(ls)
    decreases |d|
  {
    if d[0] == 0 {
      ls := [];
    } else {
      var n := 1 + d[0];
      var rest := NameOfLabels(d[n..]);
      ls := [d[1..n]] + rest;
      assert ls[1..] == rest;
      assert d == [d[0]] + d[1..n] + d[n..];
    }
  }
}
