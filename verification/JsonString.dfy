/**
  The JSON string writer: arbitrary bytes become a well-formed JSON string (section 7 of RFC 8259) in
  valid UTF-8 (section 4 of RFC 3629) that decodes to the input, each stray byte read as U+FFFD.
 */
module JsonString {
  import opened Base

  // ----- UTF-8 ---------------------------------------------------------------------------------

  predicate Scalar(cp: nat) {
    cp <= 0x10ffff && !(0xd800 <= cp <= 0xdfff)
  }

  function Utf8Size(cp: nat): nat {
    if cp < 0x80 then 1 else if cp < 0x800 then 2 else if cp < 0x10000 then 3 else 4
  }

  /** A continuation byte with six bits. */
  function Cont(v: nat): Byte {
    0x80 + v % 64
  }

  /** The encoding of a scalar value (section 3 of RFC 3629). */
  function Utf8(cp: nat): (b: seq<Byte>)
    requires Scalar(cp)
    ensures |b| == Utf8Size(cp)
  {
    if cp < 0x80 then [cp]
    else if cp < 0x800 then [0xc0 + cp / 64, Cont(cp)]
    else if cp < 0x10000 then [0xe0 + cp / 64 / 64, Cont(cp / 64), Cont(cp)]
    else [0xf0 + cp / 64 / 64 / 64, Cont(cp / 64 / 64), Cont(cp / 64), Cont(cp)]
  }

  predicate IsCont(b: Byte) {
    0x80 <= b < 0xc0
  }

  /** Length a lead byte announces; 0 when it is none. */
  function LeadSize(b: Byte): nat {
    if b < 0x80 then 1
    else if 0xc0 <= b < 0xe0 then 2
    else if 0xe0 <= b < 0xf0 then 3
    else if 0xf0 <= b < 0xf8 then 4
    else 0
  }

  /** The masks of the length routine select the ranges above. */
  lemma LeadMasks(b: bv8)
    ensures b & 0xe0 == 0xc0 <==> 0xc0 <= b < 0xe0
    ensures b & 0xf0 == 0xe0 <==> 0xe0 <= b < 0xf0
    ensures b & 0xf8 == 0xf0 <==> 0xf0 <= b < 0xf8
    ensures b & 0xc0 == 0x80 <==> 0x80 <= b < 0xc0
  {
  }

  /** The payload bits of a lead byte. */
  function LeadBits(b: Byte): nat {
    if b < 0x80 then b else if b < 0xe0 then b % 32 else if b < 0xf0 then b % 16 else b % 8
  }

  function MinCp(n: nat): nat {
    if n == 1 then 0 else if n == 2 then 0x80 else if n == 3 then 0x800 else 0x10000
  }

  /** The bits of a lead byte and `n - 1` continuation bytes. */
  function Gather(s: seq<Byte>, n: nat): nat
    requires 1 <= n <= |s|
    decreases n
  {
    if n == 1 then LeadBits(s[0]) else Gather(s, n - 1) * 64 + s[n - 1] % 64
  }

  predicate ConsOk(s: seq<Byte>, n: nat)
    requires n <= |s|
  {
    forall i | 1 <= i < n :: IsCont(s[i])
  }

  /** The well-formed sequence at the head of `s`, if there is one: its code point. */
  function SeqAt(s: seq<Byte>): Option<nat>
    requires s != []
  {
    var n := LeadSize(s[0]);
    if n == 0 || n > |s| || !ConsOk(s, n) then None
    else
      var cp := Gather(s, n);
      if cp < MinCp(n) || !Scalar(cp) then None else Some(cp)
  }

  lemma {:induction false} DecodeLead(cp: nat)
    requires Scalar(cp)
    ensures LeadSize(Utf8(cp)[0]) == Utf8Size(cp) && MinCp(Utf8Size(cp)) <= cp
    ensures ConsOk(Utf8(cp), Utf8Size(cp))
  {
  }

  lemma {:induction false} GatherSteps(s: seq<Byte>)
    ensures |s| >= 1 ==> Gather(s, 1) == LeadBits(s[0])
    ensures |s| >= 2 ==> Gather(s, 2) == LeadBits(s[0]) * 64 + s[1] % 64
    ensures |s| >= 3 ==> Gather(s, 3) == (LeadBits(s[0]) * 64 + s[1] % 64) * 64 + s[2] % 64
    ensures |s| >= 4 ==> Gather(s, 4) == ((LeadBits(s[0]) * 64 + s[1] % 64) * 64 + s[2] % 64) * 64 + s[3] % 64
  {
    if |s| >= 2 {
      assert Gather(s, 2) == Gather(s, 1) * 64 + s[1] % 64;
    }
    if |s| >= 3 {
      assert Gather(s, 3) == Gather(s, 2) * 64 + s[2] % 64;
    }
    if |s| >= 4 {
      assert Gather(s, 4) == Gather(s, 3) * 64 + s[3] % 64;
    }
  }

  lemma {:induction false} Split64(v: nat)
    ensures v == v / 64 * 64 + v % 64 && Cont(v) % 64 == v % 64
  {
  }

  lemma {:induction false} LeadBack(hi: nat)
    ensures hi < 32 ==> LeadBits(0xc0 + hi) == hi
    ensures hi < 16 ==> LeadBits(0xe0 + hi) == hi
    ensures hi < 8 ==> LeadBits(0xf0 + hi) == hi
  {
  }

  lemma {:induction false} DecodeBits(cp: nat)
    requires Scalar(cp)
    ensures Gather(Utf8(cp), Utf8Size(cp)) == cp
  {
    GatherSteps(Utf8(cp));
    hide Gather, Cont, LeadBits;
    Split64(cp);
    Split64(cp / 64);
    Split64(cp / 64 / 64);
    if cp < 0x80 {
      LowLead(cp);
    } else if cp < 0x800 {
      LeadBack(cp / 64);
    } else if cp < 0x10000 {
      LeadBack(cp / 64 / 64);
    } else {
      LeadBack(cp / 64 / 64 / 64);
    }
  }

  lemma {:induction false} LowLead(b: Byte)
    requires b < 0x80
    ensures LeadBits(b) == b
  {
  }

  lemma {:induction false} GatherPrefix(s: seq<Byte>, t: seq<Byte>, n: nat)
    requires 1 <= n <= |s| && n <= |t| && s[..n] == t[..n]
    ensures Gather(s, n) == Gather(t, n) && (ConsOk(s, n) <==> ConsOk(t, n))
    decreases n
  {
    assert forall i | 0 <= i < n :: s[i] == s[..n][i] == t[..n][i] == t[i];
    if n > 1 {
      assert s[..n - 1] == t[..n - 1];
      GatherPrefix(s, t, n - 1);
    }
  }

  /** Every scalar value is read back from its encoding, whatever follows. */
  lemma {:induction false} SeqComplete(cp: nat, rest: seq<Byte>)
    requires Scalar(cp)
    ensures SeqAt(Utf8(cp) + rest) == Some(cp)
  {
    hide Gather, Utf8, ConsOk, LeadSize;
    var u, s, n := Utf8(cp), Utf8(cp) + rest, Utf8Size(cp);
    DecodeLead(cp);
    DecodeBits(cp);
    assert s[..n] == u == u[..n] && s[0] == u[0];
    GatherPrefix(s, u, n);
  }

  lemma {:induction false} Last64(a: nat, b: Byte)
    ensures (a * 64 + b % 64) / 64 == a && (IsCont(b) ==> Cont(a * 64 + b % 64) == b)
  {
    assert (a * 64 + b % 64) % 64 == b % 64;
  }

  lemma {:induction false} LeadRange(b: Byte)
    ensures LeadSize(b) == 1 ==> LeadBits(b) == b < 0x80
    ensures LeadSize(b) == 2 ==> LeadBits(b) < 32 && b == 0xc0 + LeadBits(b)
    ensures LeadSize(b) == 3 ==> LeadBits(b) < 16 && b == 0xe0 + LeadBits(b)
    ensures LeadSize(b) == 4 ==> LeadBits(b) < 8 && b == 0xf0 + LeadBits(b)
  {
  }

  /** What is read is the encoding of the code point. */
  lemma {:induction false} SeqSound(s: seq<Byte>)
    requires s != [] && SeqAt(s).Some?
    ensures var cp := SeqAt(s).value;
      Scalar(cp) && Utf8Size(cp) == LeadSize(s[0]) <= |s| && s[..Utf8Size(cp)] == Utf8(cp)
  {
    GatherSteps(s);
    hide Gather, Cont, LeadBits, IsCont;
    var n, cp := LeadSize(s[0]), SeqAt(s).value;
    LeadRange(s[0]);
    var a := LeadBits(s[0]);
    if n >= 2 {
      Last64(a, s[1]);
      if n >= 3 {
        Last64(a * 64 + s[1] % 64, s[2]);
        if n == 4 {
          Last64((a * 64 + s[1] % 64) * 64 + s[2] % 64, s[3]);
        }
      }
    }
    hide LeadSize;
    assert Utf8Size(cp) == n;
  }

  lemma {:induction false} Sizes(s: seq<Byte>)
    requires s != []
    ensures SeqAt(s).Some? ==> 0 < Utf8Size(SeqAt(s).value) == LeadSize(s[0]) <= |s|
  {
    if SeqAt(s).Some? {
      SeqSound(s);
    }
  }

  /** The length routine: reads a NUL-terminated buffer and never past its terminator. */
  method Utf8SeqLen(buf: seq<Byte>, p: nat) returns (n: nat)
    requires p < |buf| - 1 && buf[|buf| - 1] == 0
    ensures var r := SeqAt(buf[p..|buf| - 1]);
      n == if r.Some? then Utf8Size(r.value) else 0
  {
    hide SeqAt, LeadSize, LeadBits, MinCp, Utf8, Utf8Size;
    ghost var s := buf[p..|buf| - 1];
    var b := buf[p];
    assert s[0] == b;
    Sizes(s);
    if b < 0x80 {
      Ascii(s);
      return 1;
    }
    var size := LeadSize(b);
    if size == 0 {
      SeqAtNone(s);
      return 0;
    }
    var cp, i := LeadBits(b), 1;
    while i < size
      invariant 1 <= i <= size && i <= |s| && ConsOk(s, i) && cp == Gather(s, i)
    {
      assert p + i < |buf|;
      if !IsCont(buf[p + i]) {
        SeqAtNone(s);
        return 0;
      }
      assert s[i] == buf[p + i];
      cp := cp * 64 + buf[p + i] % 64;
      i := i + 1;
    }
    SeqAtWhole(s);
    if cp < MinCp(size) || cp > 0x10ffff || (0xd800 <= cp <= 0xdfff) {
      return 0;
    }
    return size;
  }

  lemma {:induction false} Ascii(s: seq<Byte>)
    requires s != [] && s[0] < 0x80
    ensures SeqAt(s) == Some(s[0] as nat) && Utf8Size(s[0]) == 1
  {
  }

  lemma {:induction false} SeqAtNone(s: seq<Byte>)
    requires s != []
    requires LeadSize(s[0]) == 0 || LeadSize(s[0]) > |s| || !ConsOk(s, LeadSize(s[0]))
    ensures SeqAt(s).None?
  {
  }

  lemma {:induction false} SeqAtWhole(s: seq<Byte>)
    requires s != [] && 0 < LeadSize(s[0]) <= |s| && ConsOk(s, LeadSize(s[0]))
    ensures var n, cp := LeadSize(s[0]), Gather(s, LeadSize(s[0]));
      SeqAt(s) == if cp < MinCp(n) || !Scalar(cp) then None else Some(cp)
  {
  }

  // ----- What the input means ------------------------------------------------------------------

  /** The code points of a byte string, each byte that starts no well-formed sequence read as U+FFFD. */
  function Meaning(s: seq<Byte>): seq<nat>
    decreases |s|
  {
    if s == [] then []
    else
      var cp := SeqAt(s);
      if cp.None? then [0xfffd] + Meaning(s[1..])
      else [cp.value] + Meaning(s[LeadSize(s[0])..])
  }

  // ----- JSON strings --------------------------------------------------------------------------

  const QUOTE: Byte := 34
  const BACKSLASH: Byte := 92

  function HexDigit(v: nat): Byte
    requires v < 16
  {
    if v < 10 then 48 + v else 87 + v
  }

  function HexValue(b: Byte): Option<nat> {
    if 48 <= b <= 57 then Some(b - 48)
    else if 97 <= b <= 102 then Some(b - 87)
    else if 65 <= b <= 70 then Some(b - 55)
    else None
  }

  /** The character behind a two-character escape. */
  function Unescape(b: Byte): Option<nat> {
    match b
    case 34 => Some(34)     // quotation mark
    case 92 => Some(92)     // reverse solidus
    case 47 => Some(47)     // solidus
    case 98 => Some(8)      // b
    case 102 => Some(12)    // f
    case 110 => Some(10)    // n
    case 114 => Some(13)    // r
    case 116 => Some(9)     // t
    case _ => None
  }

  /** One character of a JSON string at the head of `d`: the code point and the bytes it takes.
      Escaped surrogates are not accepted. */
  function JsonChar(d: seq<Byte>): (r: Option<(nat, nat)>)
    requires d != []
    ensures r.Some? ==> 1 <= r.value.1 <= |d|
  {
    if d[0] == BACKSLASH then
      if |d| < 2 then None
      else if Unescape(d[1]).Some? then Some((Unescape(d[1]).value, 2))
      else if d[1] == 117 && |d| >= 6 then
        var a, b, x, y := HexValue(d[2]), HexValue(d[3]), HexValue(d[4]), HexValue(d[5]);
        if a.None? || b.None? || x.None? || y.None? then None
        else
          var cp := ((a.value * 16 + b.value) * 16 + x.value) * 16 + y.value;
          if Scalar(cp) then Some((cp, 6)) else None
      else None
    else if d[0] < 0x20 || d[0] == QUOTE then None
    else
      var cp := SeqAt(d);
      if cp.None? then None else Some((cp.value, LeadSize(d[0])))
  }

  /** The characters up to a closing quotation mark that must be the last byte. */
  function JsonTail(d: seq<Byte>): Option<seq<nat>>
    decreases |d|
  {
    if d == [] then None
    else if d[0] == QUOTE then if |d| == 1 then Some([]) else None
    else
      var c := JsonChar(d);
      if c.None? then None
      else
        var rest := JsonTail(d[c.value.1..]);
        if rest.None? then None else Some([c.value.0] + rest.value)
  }

  /** The value of a whole JSON string literal. */
  function JsonDecode(d: seq<Byte>): Option<seq<nat>> {
    if d == [] || d[0] != QUOTE then None else JsonTail(d[1..])
  }

  // ----- The writer ----------------------------------------------------------------------------

  /** The letter of the two-character escape of a byte that has one. */
  function Escape(b: Byte): Option<Byte> {
    match b
    case 34 => Some(34)
    case 92 => Some(92)
    case 8 => Some(98)
    case 12 => Some(102)
    case 10 => Some(110)
    case 13 => Some(114)
    case 9 => Some(116)
    case _ => None
  }

  const REPLACEMENT: seq<Byte> := [92, 117, 102, 102, 102, 100]

  /** What is written for the head of `s`, and how many bytes of it that covers. */
  function Emit(s: seq<Byte>): (r: (seq<Byte>, nat))
    requires s != []
    ensures 1 <= r.1 <= |s| && r.0 != []
  {
    if Escape(s[0]).Some? then ([BACKSLASH, Escape(s[0]).value], 1)
    else if s[0] < 0x20 then ([92, 117, 48, 48, HexDigit(s[0] / 16), HexDigit(s[0] % 16)], 1)
    else if SeqAt(s).None? then (REPLACEMENT, 1)
    else (s[..LeadSize(s[0])], LeadSize(s[0]))
  }

  function Body(s: seq<Byte>): seq<Byte>
    decreases |s|
  {
    if s == [] then [] else Emit(s).0 + Body(s[Emit(s).1..])
  }

  /** One round of the writer's loop: what to append and how far to go. */
  method NextPiece(buf: seq<Byte>, p: nat) returns (piece: seq<Byte>, n: nat)
    requires p < |buf| - 1 && buf[|buf| - 1] == 0
    ensures (piece, n) == Emit(buf[p..|buf| - 1])
  {
    hide SeqAt, Escape, HexDigit, LeadSize;
    ghost var s := buf[p..|buf| - 1];
    assert s[0] == buf[p];
    var esc := Escape(buf[p]);
    if esc.Some? {
      return [BACKSLASH, esc.value], 1;
    }
    if buf[p] < 0x20 {
      return [92, 117, 48, 48, HexDigit(buf[p] / 16), HexDigit(buf[p] % 16)], 1;
    }
    n := Utf8SeqLen(buf, p);
    Sizes(s);
    if n == 0 {
      return REPLACEMENT, 1;
    }
    piece := buf[p..p + n];
    assert piece == s[..n];
  }

  lemma {:induction false} BodyStep(out: seq<Byte>, str: seq<Byte>, p: nat)
    requires p < |str|
    ensures var (piece, n) := Emit(str[p..]);
      out + Body(str[p..]) == (out + piece) + Body(str[p + n..])
  {
    hide Emit;
    var (piece, n) := Emit(str[p..]);
    assert str[p..][n..] == str[p + n..];
    assert out + (piece + Body(str[p + n..])) == (out + piece) + Body(str[p + n..]);
  }

  method AppendJsonString(sb: seq<Byte>, buf: seq<Byte>) returns (out: seq<Byte>)
    requires buf != [] && buf[|buf| - 1] == 0 && forall i | 0 <= i < |buf| - 1 :: buf[i] != 0
    ensures out == sb + ([QUOTE] + Body(buf[..|buf| - 1]) + [QUOTE])
  {
    hide Emit, Body;
    ghost var str := buf[..|buf| - 1];
    out := sb + [QUOTE];
    var p := 0;
    assert str[0..] == str;
    while buf[p] != 0
      invariant 0 <= p <= |str| && sb + [QUOTE] + Body(str) == out + Body(str[p..])
      decreases |buf| - p
    {
      assert str[p..] == buf[p..|buf| - 1];
      BodyStep(out, str, p);
      var piece, n := NextPiece(buf, p);
      out, p := out + piece, p + n;
    }
    BodyNone();
    assert str[p..] == [];
    assert sb + [QUOTE] + Body(str) + [QUOTE] == sb + ([QUOTE] + Body(str) + [QUOTE]);
    out := out + [QUOTE];
  }

  lemma {:induction false} BodyNone()
    ensures Body([]) == []
  {
  }

  // ----- Decoding gives the meaning back -------------------------------------------------------

  lemma {:induction false} HexBack(v: nat)
    requires v < 16
    ensures HexValue(HexDigit(v)) == Some(v)
  {
  }

  lemma {:induction false} EscapeBack(b: Byte, rest: seq<Byte>)
    requires Escape(b).Some?
    ensures JsonChar([BACKSLASH, Escape(b).value] + rest) == Some((b as nat, 2)) && b < 0x80
  {
  }

  lemma {:induction false} ControlBack(b: Byte, rest: seq<Byte>)
    requires b < 0x20
    ensures JsonChar([92, 117, 48, 48, HexDigit(b / 16), HexDigit(b % 16)] + rest) == Some((b as nat, 6))
  {
    HexBack(b / 16);
    HexBack(b % 16);
    hide HexDigit, SeqAt;
    var d := [92, 117, 48, 48, HexDigit(b / 16), HexDigit(b % 16)] + rest;
    assert HexValue(d[2]) == Some(0) && HexValue(d[3]) == Some(0);
  }

  lemma {:induction false} ReplacementBack(rest: seq<Byte>)
    ensures JsonChar(REPLACEMENT + rest) == Some((0xfffd, 6))
  {
    hide SeqAt;
    var d := REPLACEMENT + rest;
    assert HexValue(d[2]) == Some(15) && HexValue(d[3]) == Some(15) && HexValue(d[4]) == Some(15) && HexValue(d[5]) == Some(13);
  }

  lemma {:induction false} PlainBack(s: seq<Byte>, rest: seq<Byte>)
    requires s != [] && Escape(s[0]).None? && s[0] >= 0x20 && SeqAt(s).Some?
    ensures var n := LeadSize(s[0]); 1 <= n <= |s| && JsonChar(s[..n] + rest) == Some((SeqAt(s).value, n))
  {
    SeqSound(s);
    hide SeqAt;
    var cp, n := SeqAt(s).value, LeadSize(s[0]);
    SeqComplete(cp, rest);
    assert (s[..n] + rest)[0] == s[0];
    assert s[0] != BACKSLASH && s[0] != QUOTE;
  }

  /** Each emitted piece is one character of the string: the one its input bytes mean. */
  lemma {:induction false} EmitBack(s: seq<Byte>, rest: seq<Byte>)
    requires s != []
    ensures var (piece, n) := Emit(s);
      var cp := if SeqAt(s).Some? then SeqAt(s).value else 0xfffd;
      && JsonChar(piece + rest) == Some((cp, |piece|)) && piece[0] != QUOTE
      && n == if SeqAt(s).Some? then LeadSize(s[0]) else 1
  {
    if Escape(s[0]).Some? {
      EscapeBack(s[0], rest);
      Ascii(s);
    } else if s[0] < 0x20 {
      ControlBack(s[0], rest);
      Ascii(s);
    } else if SeqAt(s).None? {
      ReplacementBack(rest);
    } else {
      PlainBack(s, rest);
    }
  }

  lemma {:induction false} BodyDecodes(s: seq<Byte>)
    ensures JsonTail(Body(s) + [QUOTE]) == Some(Meaning(s))
    decreases |s|
  {
    hide JsonChar, Emit, SeqAt, LeadSize;
    if s == [] {
      assert Body(s) + [QUOTE] == [QUOTE];
    } else {
      var (piece, n) := Emit(s);
      var rest := Body(s[n..]) + [QUOTE];
      EmitBack(s, rest);
      BodyDecodes(s[n..]);
      var d := Body(s) + [QUOTE];
      assert d == piece + rest && d[|piece|..] == rest;
    }
  }

  /** For every byte string the output is a well-formed JSON string, and decodes to what the bytes mean. */
  lemma {:induction false} JsonRoundTrip(s: seq<Byte>)
    ensures JsonDecode([QUOTE] + Body(s) + [QUOTE]) == Some(Meaning(s))
  {
    BodyDecodes(s);
    var d := [QUOTE] + Body(s) + [QUOTE];
    assert d[1..] == Body(s) + [QUOTE];
  }

  /** Well-formed UTF-8 throughout. */
  predicate ValidUtf8(s: seq<Byte>)
    decreases |s|
  {
    s == [] || (SeqAt(s).Some? && ValidUtf8(s[LeadSize(s[0])..]))
  }

  lemma {:induction false} AsciiThen(s: seq<Byte>, k: nat)
    requires k <= |s| && (forall i | 0 <= i < k :: s[i] < 0x80) && ValidUtf8(s[k..])
    ensures ValidUtf8(s)
    decreases k
  {
    if k == 0 {
      assert s[0..] == s;
    } else {
      Ascii(s);
      assert s[1..][k - 1..] == s[k..];
      AsciiThen(s[1..], k - 1);
    }
  }

  lemma {:induction false} EscapesAreAscii(d: seq<Byte>)
    requires d != [] && d[0] == BACKSLASH && JsonChar(d).Some?
    ensures forall i | 0 <= i < JsonChar(d).value.1 :: d[i] < 0x80
  {
    hide SeqAt;
  }

  lemma {:induction false} TailIsUtf8(d: seq<Byte>)
    requires JsonTail(d).Some?
    ensures ValidUtf8(d)
    decreases |d|
  {
    hide SeqAt, LeadSize;
    if d[0] == QUOTE {
      hide JsonChar;
      assert d[1..] == [];
      AsciiThen(d, 1);
    } else {
      TailIsUtf8(d[JsonChar(d).value.1..]);
      if d[0] == BACKSLASH {
        EscapesAreAscii(d);
        hide JsonChar;
        AsciiThen(d, JsonChar(d).value.1);
      }
    }
  }

  /** The output is valid UTF-8. */
  lemma {:induction false} OutputIsUtf8(s: seq<Byte>)
    ensures ValidUtf8([QUOTE] + Body(s) + [QUOTE])
  {
    hide SeqAt, Body, JsonTail;
    BodyDecodes(s);
    var d := [QUOTE] + Body(s) + [QUOTE];
    assert d[1..] == Body(s) + [QUOTE];
    TailIsUtf8(d[1..]);
    AsciiThen(d, 1);
  }

  // ----- What the bytes mean -------------------------------------------------------------------

  /** The UTF-8 text of some scalar values. */
  function Text(cps: seq<nat>): seq<Byte>
    requires forall i | 0 <= i < |cps| :: Scalar(cps[i])
  {
    if cps == [] then [] else Utf8(cps[0]) + Text(cps[1..])
  }

  lemma {:induction false} MeaningStep(cp: nat, rest: seq<Byte>)
    requires Scalar(cp)
    ensures Meaning(Utf8(cp) + rest) == [cp] + Meaning(rest)
  {
    hide Utf8;
    SeqComplete(cp, rest);
    var s := Utf8(cp) + rest;
    assert s[Utf8Size(cp)..] == rest;
  }

  lemma {:induction false} MeaningText(cps: seq<nat>, tail: seq<Byte>)
    requires forall i | 0 <= i < |cps| :: Scalar(cps[i])
    ensures Meaning(Text(cps) + tail) == cps + Meaning(tail)
    decreases |cps|
  {
    hide Utf8, Meaning, Scalar;
    if cps == [] {
      assert [] + tail == tail;
    } else {
      var more := Text(cps[1..]);
      MeaningText(cps[1..], tail);
      MeaningStep(cps[0], more + tail);
      assert Text(cps) + tail == Utf8(cps[0]) + (more + tail);
      assert [cps[0]] + (cps[1..] + Meaning(tail)) == cps + Meaning(tail);
    }
  }

  lemma {:induction false} MeaningStray(b: Byte, rest: seq<Byte>)
    ensures Meaning([]) == []
    ensures SeqAt([b] + rest).None? ==> Meaning([b] + rest) == [0xfffd] + Meaning(rest)
  {
    hide SeqAt;
    assert ([b] + rest)[1..] == rest;
  }

  /** Well-formed text means its scalar values, and a byte at which no well-formed sequence begins is passed over
      alone, as one U+FFFD. */
  lemma {:induction false} MeaningExactly(cps: seq<nat>, b: Byte, rest: seq<Byte>)
    requires forall i | 0 <= i < |cps| :: Scalar(cps[i])
    ensures Meaning(Text(cps)) == cps
    ensures SeqAt([b] + rest).None? ==> Meaning(Text(cps) + ([b] + rest)) == cps + ([0xfffd] + Meaning(rest))
  {
    hide Text, Meaning, Scalar, SeqAt;
    MeaningText(cps, []);
    assert Text(cps) + [] == Text(cps) && cps + [] == cps;
    MeaningText(cps, [b] + rest);
    MeaningStray(b, rest);
  }
}
