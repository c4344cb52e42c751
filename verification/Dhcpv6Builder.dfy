/**
  The append-only packet builder: options are added at the end of a fixed buffer, and an option
  nested in a container patches the length field of every ancestor.
 */
module Dhcpv6Builder {
  import opened Base
  import opened Dhcpv6Options

  const BUF_SIZE: nat := 4096

  // ----- Option forests and their right edge ---------------------------------------------------

  /** Length of the right edge: the last option, its last inner option, and so on. */
  function EdgeDepth(os: seq<Opt>): nat
    decreases os
  {
    if os == [] then 0 else 1 + EdgeDepth(os[|os| - 1].kids)
  }

  /** Adds `o` as the last inner option of the option at depth `d` of the right edge. */
  function AddAt(os: seq<Opt>, d: nat, o: Opt): seq<Opt>
    requires d <= EdgeDepth(os)
    decreases d
  {
    if d == 0 then os + [o]
    else
      var last := os[|os| - 1];
      os[..|os| - 1] + [last.(kids := AddAt(last.kids, d - 1, o))]
  }

  /** Positions, in the encoded forest, of the headers along the right edge down to depth `d`. */
  function Edge(os: seq<Opt>, d: nat): (ps: seq<nat>)
    requires d <= EdgeDepth(os)
    ensures |ps| == d
    decreases d
  {
    if d == 0 then []
    else
      var n := |os| - 1;
      var p := |EncodeAll(os[..n])|;
      [p] + Shift(Edge(os[n].kids, d - 1), p + 4 + |os[n].data|)
  }

  function Shift(ps: seq<nat>, k: nat): (r: seq<nat>)
    ensures |r| == |ps| && forall i | 0 <= i < |ps| :: r[i] == ps[i] + k
  {
    seq(|ps|, i requires 0 <= i < |ps| => ps[i] + k)
  }

  /** The length field of the option header at `p` grows by `delta`. */
  function PatchOne(b: seq<Byte>, p: nat, delta: nat): (r: seq<Byte>)
    requires p + 4 <= |b|
    ensures |r| == |b|
  {
    var len := U16(ReadU16(b, p + 2) + delta);
    b[p + 2 := len[0]][p + 3 := len[1]]
  }

  ghost predicate InBounds(ps: seq<nat>, n: nat) {
    forall i | 0 <= i < |ps| :: ps[i] + 4 <= n
  }

  /** Patches every header in `ps`, the last one first. */
  function Patched(b: seq<Byte>, ps: seq<nat>, delta: nat): (r: seq<Byte>)
    requires InBounds(ps, |b|)
    ensures |r| == |b|
  {
    if ps == [] then b else PatchOne(Patched(b, ps[1..], delta), ps[0], delta)
  }

  lemma {:induction false} PatchedNone(b: seq<Byte>, delta: nat)
    ensures Patched(b, [], delta) == b
  {
  }

  lemma {:induction false} EncodeAppend(a: seq<Opt>, b: seq<Opt>)
    ensures EncodeAll(a + b) == EncodeAll(a) + EncodeAll(b)
    decreases |a|
  {
    hide Encode;
    if a == [] {
      assert a + b == b;
    } else {
      assert (a + b)[1..] == a[1..] + b;
      EncodeAppend(a[1..], b);
    }
  }

  lemma {:induction false} EncodeLast(os: seq<Opt>)
    requires os != []
    ensures var n := |os| - 1; EncodeAll(os) == EncodeAll(os[..n]) + Encode(os[n])
  {
    hide Encode;
    var n := |os| - 1;
    assert os == os[..n] + [os[n]];
    EncodeAppend(os[..n], [os[n]]);
    assert EncodeAll([os[n]]) == Encode(os[n]) + EncodeAll([]);
  }

  lemma {:induction false} PatchOneShift(a: seq<Byte>, b: seq<Byte>, p: nat, delta: nat)
    requires p + 4 <= |b|
    ensures PatchOne(a + b, |a| + p, delta) == a + PatchOne(b, p, delta)
  {
  }

  /** Patches inside `b` do not touch what precedes it. */
  lemma {:induction false} PatchedShift(a: seq<Byte>, b: seq<Byte>, ps: seq<nat>, delta: nat)
    requires InBounds(ps, |b|)
    ensures InBounds(Shift(ps, |a|), |a + b|) && Patched(a + b, Shift(ps, |a|), delta) == a + Patched(b, ps, delta)
    decreases |ps|
  {
    hide PatchOne;
    if ps != [] {
      assert Shift(ps, |a|)[1..] == Shift(ps[1..], |a|);
      PatchedShift(a, b, ps[1..], delta);
      PatchOneShift(a, Patched(b, ps[1..], delta), ps[0], delta);
    }
  }

  lemma {:induction false} PatchHeader(a: seq<Byte>, code: nat, len: nat, rest: seq<Byte>, delta: nat)
    requires len < 0x1_0000
    ensures PatchOne(a + (U16(code) + U16(len)) + rest, |a|, delta) == a + (U16(code) + U16(len + delta)) + rest
  {
    var b := a + (U16(code) + U16(len)) + rest;
    assert b[|a| + 2] == U16(len)[0] && b[|a| + 3] == U16(len)[1];
    assert ReadU16(b, |a| + 2) == len;
  }

  // ----- Additions under any option ------------------------------------------------------------

  /** `path` leads to an option, as the index at each level; the empty path is the packet itself. */
  predicate HasPath(os: seq<Opt>, path: seq<nat>)
    decreases |path|
  {
    path == [] || (path[0] < |os| && HasPath(os[path[0]].kids, path[1..]))
  }

  /** What is meant by adding `o` under the option at `path`: it becomes its last inner option. */
  function AddUnder(os: seq<Opt>, path: seq<nat>, o: Opt): seq<Opt>
    requires HasPath(os, path)
    decreases |path|
  {
    if path == [] then os + [o]
    else
      var n := os[path[0]];
      os[..path[0]] + [n.(kids := AddUnder(n.kids, path[1..], o))] + os[path[0] + 1..]
  }

  /** Positions of the headers of the option at `path` and its ancestors, outermost first. */
  function Headers(os: seq<Opt>, path: seq<nat>): (ps: seq<nat>)
    requires HasPath(os, path)
    ensures |ps| == |path|
    decreases |path|
  {
    if path == [] then []
    else
      var n, p := os[path[0]], |EncodeAll(os[..path[0]])|;
      [p] + Shift(Headers(n.kids, path[1..]), p + 4 + |n.data|)
  }

  /** The options that lie behind the end of the option at `path`, siblings of its ancestors included. */
  function Behind(os: seq<Opt>, path: seq<nat>): seq<Opt>
    requires HasPath(os, path)
    decreases |path|
  {
    if path == [] then [] else Behind(os[path[0]].kids, path[1..]) + os[path[0] + 1..]
  }

  /** The bytes of a forest around its option `i`. */
  lemma {:induction false} EncodeAround(a: seq<Opt>, n: Opt, z: seq<Opt>)
    ensures EncodeAll(a + [n] + z) == EncodeAll(a) + (U16(n.code) + U16(|n.data + EncodeAll(n.kids)|))
                                      + (n.data + EncodeAll(n.kids) + EncodeAll(z))
  {
    hide U16, EncodeAll;
    EncodeAppend(a + [n], z);
    EncodeLast(a + [n]);
    assert (a + [n])[..|a|] == a;
    var x, y, body := EncodeAll(a), EncodeAll(z), n.data + EncodeAll(n.kids);
    var head := U16(n.code) + U16(|body|);
    assert x + (head + body) + y == x + head + (body + y);
  }

  /** Patches inside `b` do not touch what follows it. */
  lemma {:induction false} PatchedFront(b: seq<Byte>, c: seq<Byte>, ps: seq<nat>, delta: nat)
    requires InBounds(ps, |b|)
    ensures InBounds(ps, |b + c|) && Patched(b + c, ps, delta) == Patched(b, ps, delta) + c
    decreases |ps|
  {
    if ps != [] {
      PatchedFront(b, c, ps[1..], delta);
      var x := Patched(b, ps[1..], delta);
      assert PatchOne(x + c, ps[0], delta) == PatchOne(x, ps[0], delta) + c;
    }
  }

  /** Patching the header of option `n` and headers inside it. */
  lemma {:induction false} PatchedAround(a: seq<Opt>, n: Opt, z: seq<Opt>, hs: seq<nat>, delta: nat)
    requires InBounds(hs, |EncodeAll(n.kids)|) && |n.data + EncodeAll(n.kids)| < 0x1_0000
    ensures var b, p := EncodeAll(a + [n] + z), |EncodeAll(a)|;
      var ps := [p] + Shift(hs, p + 4 + |n.data|);
      && InBounds(ps, |b|)
      && Patched(b, ps, delta) == EncodeAll(a) + (U16(n.code) + U16(|n.data + EncodeAll(n.kids)| + delta))
                                  + (n.data + Patched(EncodeAll(n.kids), hs, delta) + EncodeAll(z))
  {
    hide PatchOne, U16, EncodeAll;
    var x, body, y := EncodeAll(a), EncodeAll(n.kids), EncodeAll(z);
    var head := U16(n.code) + U16(|n.data + body|);
    EncodeAround(a, n, z);
    var front := x + head + n.data;
    assert EncodeAll(a + [n] + z) == front + (body + y);
    PatchedFront(body, y, hs, delta);
    PatchedShift(front, body + y, hs, delta);
    var inner := Patched(body, hs, delta);
    assert front + (inner + y) == x + head + (n.data + inner + y);
    var ps := [|x|] + Shift(hs, |front|);
    assert ps[1..] == Shift(hs, |front|);
    PatchHeader(x, n.code, |n.data + body|, n.data + inner + y, delta);
  }

  lemma {:induction false} SplitAtTop(os: seq<Opt>, o: Opt)
    ensures Patched(EncodeAll(os), [], |Encode(o)|) == EncodeAll(os) + EncodeAll([])
    ensures EncodeAll(os + [o]) == EncodeAll(os) + Encode(o) + EncodeAll([])
  {
    hide Encode;
    EncodeLast(os + [o]);
    assert (os + [o])[..|os|] == os;
  }

  /** Both what is written and what is meant begin with the same bytes and go on with the new option and
      with what lies behind its parent, in different order. */
  lemma {:induction false} AddSplit(os: seq<Opt>, path: seq<nat>, o: Opt) returns (front: seq<Byte>)
    requires HasPath(os, path) && |EncodeAll(os)| < 0x1_0000
    ensures InBounds(Headers(os, path), |EncodeAll(os)|)
    ensures Patched(EncodeAll(os), Headers(os, path), |Encode(o)|) == front + EncodeAll(Behind(os, path))
    ensures EncodeAll(AddUnder(os, path, o)) == front + Encode(o) + EncodeAll(Behind(os, path))
    decreases |path|
  {
    hide PatchOne, U16, EncodeAll, Patched;
    var e := Encode(o);
    if path == [] {
      front := EncodeAll(os);
      SplitAtTop(os, o);
    } else {
      var a, n, z := os[..path[0]], os[path[0]], os[path[0] + 1..];
      var x, y, s := EncodeAll(a), EncodeAll(z), EncodeAll(Behind(n.kids, path[1..]));
      assert os == a + [n] + z;
      EncodeAround(a, n, z);
      var inner := AddSplit(n.kids, path[1..], o);
      PatchedAround(a, n, z, Headers(n.kids, path[1..]), |e|);
      EncodeAround(a, n.(kids := AddUnder(n.kids, path[1..], o)), z);
      EncodeAppend(Behind(n.kids, path[1..]), z);
      var head := U16(n.code) + U16(|n.data + EncodeAll(n.kids)| + |e|);
      front := x + head + (n.data + inner);
      assert x + head + (n.data + (inner + s) + y) == front + (s + y);
      assert x + head + (n.data + (inner + e + s) + y) == front + e + (s + y);
    }
  }

  lemma {:induction false} Cancel(front: seq<Byte>, x: seq<Byte>, y: seq<Byte>)
    requires front + x == front + y
    ensures x == y
  {
    assert x == (front + x)[|front|..] && y == (front + y)[|front|..];
  }

  /** Patching and appending writes what is meant exactly when the new option's bytes may change places with
      those behind its parent. */
  lemma {:induction false} PlacedExactly(os: seq<Opt>, path: seq<nat>, o: Opt)
    requires HasPath(os, path) && |EncodeAll(os)| < 0x1_0000
    ensures InBounds(Headers(os, path), |EncodeAll(os)|)
    ensures var e, s := Encode(o), EncodeAll(Behind(os, path));
      Patched(EncodeAll(os), Headers(os, path), |e|) + e == EncodeAll(AddUnder(os, path, o)) <==> e + s == s + e
  {
    hide Encode, EncodeAll, Patched, Headers, Behind, AddUnder;
    var e, s := Encode(o), EncodeAll(Behind(os, path));
    var front := AddSplit(os, path, o);
    assert front + s + e == front + (s + e) && front + e + s == front + (e + s);
    if front + (s + e) == front + (e + s) {
      Cancel(front, s + e, e + s);
    }
  }

  /** The length of an option can be read from its third and fourth byte. */
  lemma {:induction false} SameSize(x: Opt, y: Opt)
    requires |Encode(x)| < 0x1_0004 && |Encode(y)| < 0x1_0004 && Encode(x)[..4] == Encode(y)[..4]
    ensures |Encode(x)| == |Encode(y)|
  {
    forall o | o in {x, y} ensures |Encode(o)| == 4 + ReadU16(Encode(o)[..4], 2) {
      var n := |o.data + EncodeAll(o.kids)|;
      assert Encode(o)[2] == U16(n)[0] && Encode(o)[3] == U16(n)[1];
    }
  }

  /** That is so exactly when every option behind has the bytes of the new one. */
  lemma {:induction false} SwapsExactly(o: Opt, rest: seq<Opt>)
    requires |Encode(o)| < 0x1_0004 && |EncodeAll(rest)| < 0x1_0000
    ensures Encode(o) + EncodeAll(rest) == EncodeAll(rest) + Encode(o) <==> forall x | x in rest :: Encode(x) == Encode(o)
    decreases |rest|
  {
    hide Encode;
    if rest != [] {
      var e, x, f, s := Encode(o), rest[0], Encode(rest[0]), EncodeAll(rest[1..]);
      assert EncodeAll(rest) == f + s;
      SwapsExactly(o, rest[1..]);
      if e + (f + s) == (f + s) + e {
        assert e[..4] == (e + (f + s))[..4] && f[..4] == ((f + s) + e)[..4];
        SameSize(o, x);
        assert e == (e + (f + s))[..|e|] && f == ((f + s) + e)[..|f|];
      }
      if e == f {
        assert (e + s) + e == e + (s + e);
        if e + (e + s) == e + (s + e) {
          Cancel(e, e + s, s + e);
        }
      }
      assert forall y | y in rest :: y == x || y in rest[1..];
    }
  }

  /** Every option behind the one at `path` has the bytes of `o`; so it is on the right edge, where there is none. */
  ghost predicate SameBehind(os: seq<Opt>, path: seq<nat>, o: Opt)
    requires HasPath(os, path)
  {
    forall x | x in Behind(os, path) :: Encode(x) == Encode(o)
  }

  /** An addition under any option writes what is meant exactly when only copies of the new option are behind. */
  lemma {:induction false} AddedExactly(os: seq<Opt>, path: seq<nat>, o: Opt)
    requires HasPath(os, path) && |EncodeAll(os)| < 0x1_0000 && |Encode(o)| < 0x1_0004
    ensures InBounds(Headers(os, path), |EncodeAll(os)|)
    ensures Patched(EncodeAll(os), Headers(os, path), |Encode(o)|) + Encode(o) == EncodeAll(AddUnder(os, path, o))
      <==> SameBehind(os, path, o)
  {
    hide Encode, EncodeAll, Patched, Headers, Behind, AddUnder;
    var front := AddSplit(os, path, o);
    PlacedExactly(os, path, o);
    SwapsExactly(o, Behind(os, path));
  }

  /** With nothing behind, the option is on the right edge. */
  lemma {:induction false} NothingBehind(os: seq<Opt>, path: seq<nat>, o: Opt)
    requires HasPath(os, path) && Behind(os, path) == []
    ensures |path| <= EdgeDepth(os) && Headers(os, path) == Edge(os, |path|)
    ensures AddUnder(os, path, o) == AddAt(os, |path|, o)
    decreases |path|
  {
    hide EncodeAll, Shift;
    if path != [] {
      assert path[0] == |os| - 1;
      NothingBehind(os[path[0]].kids, path[1..], o);
      assert os[path[0] + 1..] == [];
    }
  }

  /** The way down the right edge. */
  function EdgePath(os: seq<Opt>, d: nat): (path: seq<nat>)
    requires d <= EdgeDepth(os)
    ensures |path| == d && HasPath(os, path) && Behind(os, path) == []
    decreases d
  {
    if d == 0 then [] else [|os| - 1] + EdgePath(os[|os| - 1].kids, d - 1)
  }

  // ----- Additions on the right edge -----------------------------------------------------------

  /** Adding an option is appending its bytes and lengthening the headers along the edge. */
  lemma {:induction false} EncodeAddAt(os: seq<Opt>, d: nat, o: Opt)
    requires d <= EdgeDepth(os) && |EncodeAll(os)| < 0x1_0000
    ensures InBounds(Edge(os, d), |EncodeAll(os)|)
    ensures EncodeAll(AddAt(os, d, o)) == Patched(EncodeAll(os), Edge(os, d), |Encode(o)|) + Encode(o)
  {
    hide Encode, Patched, Headers, AddUnder, Edge, EdgeDepth, EdgePath, AddAt;
    var path := EdgePath(os, d);
    NothingBehind(os, path, o);
    PlacedExactly(os, path, o);
    assert Encode(o) + [] == [] + Encode(o);
  }

  lemma {:induction false} ShiftAppend(ps: seq<nat>, p: nat, k: nat)
    ensures Shift(ps + [p], k) == Shift(ps, k) + [p + k]
  {
  }

  lemma {:induction false} DepthOfLast(os: seq<Opt>)
    requires EdgeDepth(os) > 0
    ensures os != [] && EdgeDepth(os) == 1 + EdgeDepth(os[|os| - 1].kids)
  {
  }

  lemma {:induction false} DepthWithLast(front: seq<Opt>, n: Opt)
    ensures EdgeDepth(front + [n]) == 1 + EdgeDepth(n.kids)
  {
    var os := front + [n];
    assert os[|os| - 1] == n;
  }

  lemma {:induction false} EdgeUnfold(os: seq<Opt>, d: nat)
    requires 0 < d <= EdgeDepth(os)
    ensures os != [] && d - 1 <= EdgeDepth(os[|os| - 1].kids)
    ensures var n, p := |os| - 1, |EncodeAll(os[..|os| - 1])|;
      Edge(os, d) == [p] + Shift(Edge(os[n].kids, d - 1), p + 4 + |os[n].data|)
  {
    hide EncodeAll, Shift;
  }

  /** The edge of a forest with a given last option. */
  lemma {:induction false} EdgeOfLast(front: seq<Opt>, n: Opt, d: nat)
    requires d <= EdgeDepth(n.kids)
    ensures EdgeDepth(front + [n]) == 1 + EdgeDepth(n.kids)
    ensures var p := |EncodeAll(front)|; Edge(front + [n], d + 1) == [p] + Shift(Edge(n.kids, d), p + 4 + |n.data|)
  {
    hide EncodeAll, Encode, Shift, EdgeDepth, Edge;
    var os := front + [n];
    DepthWithLast(front, n);
    EdgeUnfold(os, d + 1);
    assert os[..|os| - 1] == front && os[|os| - 1] == n;
  }

  /** The edge after an addition: as before down to depth `d`, then the new option at the old end. */
  lemma {:induction false} EdgeAddAt(os: seq<Opt>, d: nat, o: Opt)
    requires d <= EdgeDepth(os) && o.kids == []
    ensures EdgeDepth(AddAt(os, d, o)) == d + 1
    ensures Edge(AddAt(os, d, o), d + 1) == Edge(os, d) + [|EncodeAll(os)|]
    decreases d
  {
    if d == 0 {
      EdgeOfLast(os, o, 0);
    } else {
      EdgeAddUnder(os, d, o);
    }
  }

  lemma {:induction false} EdgeAddUnder(os: seq<Opt>, d: nat, o: Opt)
    requires 0 < d <= EdgeDepth(os) && o.kids == []
    ensures EdgeDepth(AddAt(os, d, o)) == d + 1
    ensures Edge(AddAt(os, d, o), d + 1) == Edge(os, d) + [|EncodeAll(os)|]
    decreases d, 0
  {
    hide EncodeAll, Encode, Shift, Edge;
    var k := |os| - 1;
    var n, front := os[k], os[..k];
    DepthOfLast(os);
    hide EdgeDepth;
    var n' := n.(kids := AddAt(n.kids, d - 1, o));
    var off := |EncodeAll(front)| + 4 + |n.data|;
    EdgeAddAt(n.kids, d - 1, o);
    EdgeOfLast(front, n', d);
    assert os == front + [n];
    EdgeOfLast(front, n, d - 1);
    EncodeLast(os);
    EncodeSize(n);
    ShiftAppend(Edge(n.kids, d - 1), |EncodeAll(n.kids)|, off);
  }

  lemma {:induction false} EncodeSize(o: Opt)
    ensures |Encode(o)| == 4 + |o.data| + |EncodeAll(o.kids)|
  {
  }

  lemma {:induction false} EdgePrefix(os: seq<Opt>, d: nat, k: nat)
    requires k <= d <= EdgeDepth(os)
    ensures Edge(os, k) == Edge(os, d)[..k]
    decreases k
  {
    hide EncodeAll;
    if k > 0 {
      var n := |os| - 1;
      EdgePrefix(os[n].kids, d - 1, k - 1);
    }
  }

  /** Handles on the ancestors of an addition stay valid. */
  lemma {:induction false} HandlesSurvive(os: seq<Opt>, d: nat, o: Opt, k: nat)
    requires k <= d <= EdgeDepth(os) && o.kids == []
    ensures k <= EdgeDepth(AddAt(os, d, o)) && Edge(AddAt(os, d, o), k) == Edge(os, k)
  {
    hide Edge, EdgeDepth, AddAt;
    EdgeAddAt(os, d, o);
    EdgePrefix(AddAt(os, d, o), d + 1, k);
    EdgePrefix(os, d, k);
    assert (Edge(os, d) + [|EncodeAll(os)|])[..k] == Edge(os, d)[..k];
  }

  /** The option at depth `d` of the edge takes inner options; the packet itself (depth 0) always does. */
  predicate OpenAt(os: seq<Opt>, d: nat)
    requires d <= EdgeDepth(os)
    decreases d
  {
    d == 0 || (if d == 1 then Nested(os[|os| - 1].code) else OpenAt(os[|os| - 1].kids, d - 1))
  }

  lemma {:induction false} LegalAppend(a: seq<Opt>, b: seq<Opt>)
    ensures AllLegal(a + b) <==> AllLegal(a) && AllLegal(b)
    decreases |a|
  {
    hide Legal;
    if a == [] {
      assert a + b == b;
    } else {
      assert (a + b)[1..] == a[1..] + b;
      LegalAppend(a[1..], b);
    }
  }

  lemma {:induction false} LegalLast(os: seq<Opt>)
    requires os != []
    ensures var n := |os| - 1; AllLegal(os) <==> AllLegal(os[..n]) && Legal(os[n])
  {
    hide Legal;
    var n := |os| - 1;
    assert os == os[..n] + [os[n]];
    LegalAppend(os[..n], [os[n]]);
    assert AllLegal([os[n]]) <==> Legal(os[n]) && AllLegal([]);
  }

  /** An addition keeps the forest parseable exactly when the new option is legal and its parent is a container. */
  lemma {:induction false} AddKeepsLegal(os: seq<Opt>, d: nat, o: Opt)
    requires d <= EdgeDepth(os) && AllLegal(os) && |EncodeAll(AddAt(os, d, o))| < 0x1_0000
    ensures AllLegal(AddAt(os, d, o)) <==> Legal(o) && OpenAt(os, d)
    decreases d
  {
    hide Encode, EncodeAll, Legal, AllLegal, Nested;
    var os' := AddAt(os, d, o);
    LegalLast(os');
    EncodeLast(os');
    if d == 0 {
      assert os'[..|os|] == os;
    } else {
      var k := |os| - 1;
      var n := os[k];
      var n' := n.(kids := AddAt(n.kids, d - 1, o));
      LegalLast(os);
      assert os'[..k] == os[..k] && os'[k] == n';
      EncodeSize(n');
      LegalNode(n);
      LegalNode(n');
      if d > 1 {
        assert n.kids != [];
      }
      if Nested(n.code) {
        AddKeepsLegal(n.kids, d - 1, o);
      } else {
        AddNonEmpty(n.kids, d - 1, o);
        NotNestedNotOpen(os, d);
      }
    }
  }

  lemma {:induction false} LegalNode(o: Opt)
    ensures Legal(o) <==>
      && o.code < 0x1_0000 && |Encode(o)| < 0x1_0004
      && if Nested(o.code) then |o.data| == MinLen(o.code) && AllLegal(o.kids)
         else o.kids == [] && |o.data| >= MinLen(o.code) && (o.code == AFTR_NAME ==> ValidAftr(o.data))
  {
  }

  lemma {:induction false} AddNonEmpty(os: seq<Opt>, d: nat, o: Opt)
    requires d <= EdgeDepth(os)
    ensures AddAt(os, d, o) != []
  {
  }

  lemma {:induction false} NotNestedNotOpen(os: seq<Opt>, d: nat)
    requires 0 < d <= EdgeDepth(os) && !Nested(os[|os| - 1].code) && (d > 1 ==> os[|os| - 1].kids == [])
    ensures !OpenAt(os, d)
  {
  }

  /** Options in front of the place of an addition make no difference. */
  lemma {:induction false} AddBehind(base: seq<Opt>, os: seq<Opt>, d: nat, o: Opt)
    requires d <= EdgeDepth(os)
    ensures d <= EdgeDepth(base + os) && AddAt(base + os, d, o) == base + AddAt(os, d, o)
  {
    if d == 0 {
      assert base + os + [o] == base + (os + [o]);
    } else {
      var k := |os| - 1;
      var whole := base + os;
      assert whole[|whole| - 1] == os[k] && whole[..|whole| - 1] == base + os[..k];
    }
  }

  // ----- Whole runs of additions ---------------------------------------------------------------

  lemma {:induction false} AddGrows(os: seq<Opt>, d: nat, o: Opt)
    requires d <= EdgeDepth(os)
    ensures |EncodeAll(AddAt(os, d, o))| == |EncodeAll(os)| + |Encode(o)|
    decreases d
  {
    hide Encode, EncodeAll;
    var os' := AddAt(os, d, o);
    EncodeLast(os');
    if d == 0 {
      assert os'[..|os|] == os;
    } else {
      var k := |os| - 1;
      AddGrows(os[k].kids, d - 1, o);
      assert os'[..k] == os[..k];
      EncodeLast(os);
      EncodeSize(os[k]);
      EncodeSize(os'[k]);
    }
  }

  /** A forest that would not parse back does not become parseable by further additions. */
  lemma {:induction false} AddNeverRepairs(os: seq<Opt>, d: nat, o: Opt)
    requires d <= EdgeDepth(os) && AllLegal(AddAt(os, d, o))
    ensures AllLegal(os)
    decreases d
  {
    hide Encode, EncodeAll, Legal, AllLegal, Nested;
    var os' := AddAt(os, d, o);
    LegalLast(os');
    if d == 0 {
      assert os'[..|os|] == os;
    } else {
      var k := |os| - 1;
      var n, n' := os[k], os'[k];
      assert os'[..k] == os[..k];
      LegalNode(n');
      AddNonEmpty(n.kids, d - 1, o);
      AddNeverRepairs(n.kids, d - 1, o);
      AddGrows(n.kids, d - 1, o);
      EncodeSize(n);
      EncodeSize(n');
      LegalNode(n);
      LegalLast(os);
    }
  }

  /** One call of the builder: a leaf added under the option at `depth` of the right edge (0: top level). */
  datatype Addition = Addition(depth: nat, code: nat, payload: seq<Byte>) {
    function Leaf(): Opt { Opt(code, payload, []) }
  }

  /** Every addition names a place on the right edge as it is by then. */
  ghost predicate Applicable(adds: seq<Addition>)
    decreases |adds|, 0
  {
    adds == [] ||
    var n := |adds| - 1;
    Applicable(adds[..n]) && adds[n].depth <= EdgeDepth(Built(adds[..n]))
  }

  /** The forest a run of additions builds. */
  ghost function Built(adds: seq<Addition>): seq<Opt>
    requires Applicable(adds)
    decreases |adds|, 1
  {
    if adds == [] then []
    else
      var n := |adds| - 1;
      AddAt(Built(adds[..n]), adds[n].depth, adds[n].Leaf())
  }

  /** Every option added is legal by itself and goes into a container. */
  ghost predicate Proper(adds: seq<Addition>)
    requires Applicable(adds)
    decreases |adds|
  {
    adds == [] ||
    var n := |adds| - 1;
    Proper(adds[..n]) && Legal(adds[n].Leaf()) && OpenAt(Built(adds[..n]), adds[n].depth)
  }

  lemma {:induction false} BuiltLegal(adds: seq<Addition>)
    requires Applicable(adds) && |EncodeAll(Built(adds))| < 0x1_0000
    ensures AllLegal(Built(adds)) <==> Proper(adds)
    decreases |adds|
  {
    hide Encode, EncodeAll, Legal, OpenAt, AddAt;
    if adds != [] {
      var n := |adds| - 1;
      var os, o := Built(adds[..n]), adds[n].Leaf();
      AddGrows(os, adds[n].depth, o);
      BuiltLegal(adds[..n]);
      if AllLegal(Built(adds)) {
        AddNeverRepairs(os, adds[n].depth, o);
      }
      if AllLegal(os) {
        AddKeepsLegal(os, adds[n].depth, o);
      }
    }
  }

  /** Whatever run of additions is made, the bytes parse back to the intended forest, and to nothing
      else, exactly when every addition was proper. */
  lemma {:induction false} BuiltParses(adds: seq<Addition>)
    requires Applicable(adds) && |EncodeAll(Built(adds))| < 0x1_0000
    ensures ParseMany(EncodeAll(Built(adds))) == Some(Built(adds)) <==> Proper(adds)
  {
    hide EncodeAll, ParseMany, AllLegal, Proper, Built;
    BuiltLegal(adds);
    ParseExactly(EncodeAll(Built(adds)), Built(adds));
  }
}
