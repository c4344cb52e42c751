/**
  DHCPv6 options (section 21 of RFC 8415): the option dictionary, the wire format of option trees,
  and the recursive parser, which is shown to be exactly the inverse of the encoder.
 */
module Dhcpv6Options {
  import opened Base

  const IA_NA: nat := 3
  const IA_TA: nat := 4
  const IAADDR: nat := 5
  const RELAY_MSG: nat := 9
  const RAPID_COMMIT: nat := 14
  const IA_PD: nat := 25
  const IAPREFIX: nat := 26
  const AFTR_NAME: nat := 64

  /** Shortest payload the dictionary allows; codes it does not know may be empty. */
  function MinLen(code: nat): nat {
    match code
    case 1 | 2 => 2          // client and server identifier
    case 3 | 25 => 12        // IA-NA and IA-PD
    case 4 => 4              // IA-TA
    case 5 => 24             // IA address
    case 7 | 19 => 1         // preference, reconfigure
    case 8 | 13 => 2         // elapsed time, status
    case 9 => 4              // relay message
    case 12 => 16            // server unicast
    case 26 => 25            // IA prefix
    case _ => 0
  }

  /** Options whose fixed part is followed by further options. */
  predicate Nested(code: nat) {
    code in {IA_NA, IA_TA, IAADDR, IA_PD, IAPREFIX}
  }

  /** A parsed option: payload, or fixed part and inner options. */
  datatype Opt = Opt(code: nat, data: seq<Byte>, kids: seq<Opt>)

  // ----- The wire format -----------------------------------------------------------------------

  /** A 16-bit field in network byte order, truncated as a cast would. */
  function U16(n: nat): (b: seq<Byte>)
    ensures |b| == 2
  {
    [n / 256 % 256, n % 256]
  }

  function ReadU16(b: seq<Byte>, i: nat): (n: nat)
    requires i + 2 <= |b|
    ensures n < 0x1_0000
  {
    b[i] as int * 256 + b[i + 1] as int
  }

  function Encode(o: Opt): (b: seq<Byte>)
    ensures |b| >= 4
    decreases o, 1
  {
    var body := o.data + EncodeAll(o.kids);
    U16(o.code) + U16(|body|) + body
  }

  function EncodeAll(os: seq<Opt>): seq<Byte>
    decreases os, 0
  {
    if os == [] then [] else Encode(os[0]) + EncodeAll(os[1..])
  }

  // ----- AFTR-Name (RFC 6334) ------------------------------------------------------------------

  /** The remainder of a name: labels of 1 to 63 bytes up to a terminating zero at the very end. */
  predicate Labels(d: seq<Byte>) {
    && |d| > 0
    && if d[0] == 0 then |d| == 1
       else d[0] <= 63 && d[0] <= |d| - 1 && Labels(d[1 + d[0]..])
  }

  predicate ValidAftr(d: seq<Byte>) {
    3 < |d| <= 255 && Labels(d)
  }

  method ValidateAftrName(d: seq<Byte>) returns (ok: bool)
    ensures ok == ValidAftr(d)
  {
    if |d| <= 3 || |d| > 255 {
      return false;
    }
    var offset := 0;
    while offset < |d|
      invariant offset <= |d| && Labels(d) == Labels(d[offset..])
      decreases |d| - offset
    {
      var labelLen := d[offset];
      assert d[offset..][0] == labelLen;
      offset := offset + 1;
      if labelLen == 0 {
        return offset > 1 && offset == |d|;
      }
      if labelLen > 63 || labelLen > |d| - offset {
        return false;
      }
      assert d[offset - 1..][1 + labelLen..] == d[offset + labelLen..];
      offset := offset + labelLen;
    }
    return false;
  }

  // ----- Legal option trees --------------------------------------------------------------------

  /** Exactly what the parser accepts: containers carry just their fixed part, the rest is long enough. */
  predicate Legal(o: Opt)
    decreases o, 1
  {
    && o.code < 0x1_0000 && |Encode(o)| < 0x1_0004
    && if Nested(o.code) then |o.data| == MinLen(o.code) && AllLegal(o.kids)
       else o.kids == [] && |o.data| >= MinLen(o.code) && (o.code == AFTR_NAME ==> ValidAftr(o.data))
  }

  predicate AllLegal(os: seq<Opt>)
    decreases os, 0
  {
    os == [] || (Legal(os[0]) && AllLegal(os[1..]))
  }

  // ----- The parser ----------------------------------------------------------------------------

  function ParseOne(b: seq<Byte>): (r: Option<(Opt, nat)>)
    ensures r.Some? ==> 4 <= r.value.1 <= |b|
    decreases |b|, 0
  {
    if |b| < 4 || 4 + ReadU16(b, 2) > |b| then None
    else
      var code, len := ReadU16(b, 0), ReadU16(b, 2);
      if code == AFTR_NAME && !ValidAftr(b[4..4 + len]) then None
      else if len < MinLen(code) then None
      else if Nested(code) then
        var m := MinLen(code);
        var kids := ParseMany(b[4 + m..4 + len]);
        if kids.None? then None else Some((Opt(code, b[4..4 + m], kids.value), 4 + len))
      else Some((Opt(code, b[4..4 + len], []), 4 + len))
  }

  function ParseMany(b: seq<Byte>): (r: Option<seq<Opt>>)
    decreases |b|, 1
  {
    if b == [] then Some([])
    else
      var o := ParseOne(b);
      if o.None? then None
      else
        var rest := ParseMany(b[o.value.1..]);
        if rest.None? then None else Some([o.value.0] + rest.value)
  }

  lemma {:induction false} U16Read(n: nat, b: seq<Byte>)
    requires n < 0x1_0000
    ensures ReadU16(U16(n) + b, 0) == n
  {
  }

  lemma {:induction false} ReadBack(b: seq<Byte>, i: nat)
    requires i + 2 <= |b|
    ensures U16(ReadU16(b, i)) == b[i..i + 2]
  {
  }

  /** What the parser returns encodes to exactly the bytes it consumed. */
  lemma {:induction false} ParseOneSound(b: seq<Byte>)
    requires ParseOne(b).Some?
    ensures var (o, n) := ParseOne(b).value; Encode(o) == b[..n] && Legal(o)
    decreases |b|, 0
  {
    hide U16, ReadU16, MinLen, Nested, ValidAftr, ParseMany;
    var (o, n) := ParseOne(b).value;
    var m, len := MinLen(o.code), ReadU16(b, 2);
    ReadBack(b, 0);
    ReadBack(b, 2);
    if Nested(o.code) {
      ParseManySound(b[4 + m..4 + len]);
      assert o.data + EncodeAll(o.kids) == b[4..4 + len];
    } else {
      assert o.data + EncodeAll(o.kids) == b[4..4 + len];
    }
    assert b[..2] + b[2..4] + b[4..4 + len] == b[..n];
  }

  lemma {:induction false} ParseManySound(b: seq<Byte>)
    requires ParseMany(b).Some?
    ensures EncodeAll(ParseMany(b).value) == b && AllLegal(ParseMany(b).value)
    decreases |b|, 1
  {
    hide ParseOne, Encode, Legal;
    if b != [] {
      ParseOneSound(b);
      var (o, n) := ParseOne(b).value;
      ParseManySound(b[n..]);
      var rest := ParseMany(b[n..]).value;
      assert ([o] + rest)[1..] == rest;
      assert b == b[..n] + b[n..];
    }
  }

  lemma {:induction false} EncodeHead(o: Opt, rest: seq<Byte>)
    requires o.code < 0x1_0000 && |Encode(o)| < 0x1_0004
    ensures var b, n := Encode(o) + rest, |Encode(o)|;
      && ReadU16(b, 0) == o.code && ReadU16(b, 2) == n - 4 && b[4..n] == o.data + EncodeAll(o.kids)
  {
    var body := o.data + EncodeAll(o.kids);
    var b := Encode(o) + rest;
    assert b == U16(o.code) + (U16(|body|) + body + rest);
    U16Read(o.code, U16(|body|) + body + rest);
    assert b[2..] == U16(|body|) + (body + rest);
    U16Read(|body|, body + rest);
    assert b[2] == b[2..][0] && b[3] == b[2..][1];
  }

  lemma {:induction false} ParseOneComplete(o: Opt, rest: seq<Byte>)
    requires Legal(o)
    ensures ParseOne(Encode(o) + rest) == Some((o, |Encode(o)|))
    decreases o, 1
  {
    hide U16, ReadU16, MinLen, ValidAftr, ParseMany, Encode, EncodeAll;
    var b, n := Encode(o) + rest, |Encode(o)|;
    EncodeHead(o, rest);
    var body := b[4..n];
    if Nested(o.code) {
      var m := MinLen(o.code);
      assert b[4 + m..n] == body[m..] == EncodeAll(o.kids);
      assert b[4..4 + m] == body[..m] == o.data;
      ParseManyComplete(o.kids);
    } else {
      EncodeNone(o.kids);
      assert body == o.data;
    }
  }

  lemma {:induction false} EncodeNone(os: seq<Opt>)
    ensures os == [] ==> EncodeAll(os) == []
  {
  }

  lemma {:induction false} ParseManyComplete(os: seq<Opt>)
    requires AllLegal(os)
    ensures ParseMany(EncodeAll(os)) == Some(os)
    decreases os, 0
  {
    hide ParseOne, Encode;
    if os != [] {
      var b, n := EncodeAll(os), |Encode(os[0])|;
      ParseOneComplete(os[0], EncodeAll(os[1..]));
      assert b[n..] == EncodeAll(os[1..]);
      ParseManyComplete(os[1..]);
      assert os == [os[0]] + os[1..];
    }
  }

  /** The parser accepts exactly the encodings of legal trees, and returns that tree. */
  lemma {:induction false} ParseExactly(b: seq<Byte>, os: seq<Opt>)
    ensures ParseMany(b) == Some(os) <==> AllLegal(os) && EncodeAll(os) == b
  {
    if ParseMany(b) == Some(os) {
      ParseManySound(b);
    }
    if AllLegal(os) && EncodeAll(os) == b {
      ParseManyComplete(os);
    }
  }

  // ----- The parser as it walks the buffer -----------------------------------------------------

  /** The parser's answer with options already collected in front. */
  function Prepend(done: seq<Opt>, r: Option<seq<Opt>>): Option<seq<Opt>> {
    if r.None? then None else Some(done + r.value)
  }

  lemma {:induction false} PrependNothing(done: seq<Opt>, r: Option<seq<Opt>>)
    ensures Prepend([], r) == r && Prepend(done, Some([])) == Some(done)
  {
    assert done + [] == done;
    assert r.Some? ==> [] + r.value == r.value;
  }

  lemma {:induction false} SliceSlice(buf: seq<Byte>, ptr: nat, end: nat, i: nat, j: nat)
    requires i <= j && ptr + j <= end <= |buf|
    ensures buf[ptr..end][i..j] == buf[ptr + i..ptr + j]
  {
    var a, b := buf[ptr..end][i..j], buf[ptr + i..ptr + j];
    assert |a| == |b|;
    assert forall k | 0 <= k < |a| :: a[k] == buf[ptr + i + k];
  }

  lemma {:induction false} SliceRead(buf: seq<Byte>, ptr: nat, end: nat, i: nat)
    requires ptr <= end <= |buf| && ptr + i + 2 <= end
    ensures ReadU16(buf[ptr..end], i) == ReadU16(buf, ptr + i)
  {
  }

  /** Parses the option at `ptr`; `next` is the position behind it. */
  method ParseOption(buf: seq<Byte>, ptr: nat, end: nat) returns (o: Option<Opt>, next: nat)
    requires ptr <= end <= |buf|
    ensures var r := ParseOne(buf[ptr..end]);
      if r.None? then o.None? else o == Some(r.value.0) && next == ptr + r.value.1 <= end
    decreases end - ptr, 0
  {
    hide ReadU16, MinLen, ValidAftr, ParseMany;
    o, next := None, ptr;
    if ptr + 4 > end {
      return;
    }
    SliceRead(buf, ptr, end, 0);
    SliceRead(buf, ptr, end, 2);
    var code, len := ReadU16(buf, ptr), ReadU16(buf, ptr + 2);
    if ptr + 4 + len > end {
      return;
    }
    SliceSlice(buf, ptr, end, 4, 4 + len);
    if code == AFTR_NAME {
      var ok := ValidateAftrName(buf[ptr + 4..ptr + 4 + len]);
      if !ok {
        return;
      }
    }
    var m := MinLen(code);
    if len < m {
      return;
    }
    if Nested(code) {
      SliceSlice(buf, ptr, end, 4, 4 + m);
      SliceSlice(buf, ptr, end, 4 + m, 4 + len);
      var kids := ParseOptions(buf, ptr + 4 + m, ptr + 4 + len);
      if kids.None? {
        return;
      }
      o, next := Some(Opt(code, buf[ptr + 4..ptr + 4 + m], kids.value)), ptr + 4 + len;
    } else {
      o, next := Some(Opt(code, buf[ptr + 4..ptr + 4 + len], [])), ptr + 4 + len;
    }
  }

  method ParseOptions(buf: seq<Byte>, begin: nat, end: nat) returns (os: Option<seq<Opt>>)
    requires begin <= end <= |buf|
    ensures os == ParseMany(buf[begin..end])
    decreases end - begin, 1
  {
    hide ParseOne;
    var ptr := begin;
    var done: seq<Opt> := [];
    PrependNothing([], ParseMany(buf[begin..end]));
    while ptr < end
      invariant begin <= ptr <= end
      invariant ParseMany(buf[begin..end]) == Prepend(done, ParseMany(buf[ptr..end]))
    {
      var o, next := ParseOption(buf, ptr, end);
      if o.None? {
        return None;
      }
      assert buf[ptr..end][next - ptr..] == buf[next..end];
      ghost var rest := ParseMany(buf[next..end]);
      assert rest.Some? ==> done + ([o.value] + rest.value) == (done + [o.value]) + rest.value;
      done := done + [o.value];
      ptr := next;
    }
    PrependNothing(done, None);
    os := Some(done);
  }
}
