/**
 The feed transcoder: bytes that are already UTF-8 pass through, anything else is read as
 Windows-1252. Well-formedness is the grammar of section 4 of RFC 3629.
 */
module Transcoder {

  type Byte = b: int | 0 <= b < 256

  predicate Between(b: Byte, lo: int, hi: int) {
    lo <= b <= hi
  }

  predicate IsTail(b: Byte) {
    Between(b, 0x80, 0xBF)
  }

  /** Whether the first n bytes are one well-formed UTF-8 character. */
  predicate IsChar(b: seq<Byte>, n: nat) {
    n <= |b| &&
    match n
    case 1 => b[0] <= 0x7F
    case 2 => Between(b[0], 0xC2, 0xDF) && IsTail(b[1])
    case 3 =>
      IsTail(b[2]) &&
      (|| (b[0] == 0xE0 && Between(b[1], 0xA0, 0xBF))
       || (Between(b[0], 0xE1, 0xEC) && IsTail(b[1]))
       || (b[0] == 0xED && Between(b[1], 0x80, 0x9F))
       || (Between(b[0], 0xEE, 0xEF) && IsTail(b[1])))
    case 4 =>
      IsTail(b[2]) && IsTail(b[3]) &&
      (|| (b[0] == 0xF0 && Between(b[1], 0x90, 0xBF))
       || (Between(b[0], 0xF1, 0xF3) && IsTail(b[1]))
       || (b[0] == 0xF4 && Between(b[1], 0x80, 0x8F)))
    case _ => false
  }

  /** The length of the character at the front, or 0 if there is none. */
  function CharLength(b: seq<Byte>): (n: nat)
    ensures n == 0 || IsChar(b, n)
    ensures n <= |b|
  {
    if IsChar(b, 1) then 1
    else if IsChar(b, 2) then 2
    else if IsChar(b, 3) then 3
    else if IsChar(b, 4) then 4
    else 0
  }

  /** utf8.Valid */
  predicate WellFormed(b: seq<Byte>) {
    b == [] || (CharLength(b) > 0 && WellFormed(b[CharLength(b)..]))
  }

  /** A Unicode scalar value. */
  predicate IsScalar(r: int) {
    0 <= r <= 0x10FFFF && !(0xD800 <= r <= 0xDFFF)
  }

  /** The code point of one well-formed character of n bytes. */
  function RuneAt(b: seq<Byte>, n: nat): int
    requires IsChar(b, n)
  {
    match n
    case 1 => b[0]
    case 2 => Payload(b[0], 0xC0) * 64 + Payload(b[1], 0x80)
    case 3 => (Payload(b[0], 0xE0) * 64 + Payload(b[1], 0x80)) * 64 + Payload(b[2], 0x80)
    case 4 => ((Payload(b[0], 0xF0) * 64 + Payload(b[1], 0x80)) * 64 + Payload(b[2], 0x80)) * 64 + Payload(b[3], 0x80)
  }

  /** The payload bits of a byte whose marker bits are `marker`. */
  function Payload(b: int, marker: int): int {
    b - marker
  }

  /** The code points of a well-formed byte string. */
  function Decode(b: seq<Byte>): seq<int>
    requires WellFormed(b)
  {
    if b == [] then [] else [RuneAt(b, CharLength(b))] + Decode(b[CharLength(b)..])
  }

  /** strings.Builder.WriteRune */
  function Encode(r: int): seq<Byte>
    requires IsScalar(r)
  {
    if r < 0x80 then [r]
    else if r < 0x800 then [0xC0 + r / 64, 0x80 + r % 64]
    else if r < 0x1_0000 then [0xE0 + r / 4096, 0x80 + r / 64 % 64, 0x80 + r % 64]
    else [0xF0 + r / 0x4_0000, 0x80 + r / 4096 % 64, 0x80 + r / 64 % 64, 0x80 + r % 64]
  }

  /** Any prefix character stands whatever follows it. */
  lemma CharThenRest(c: seq<Byte>, rest: seq<Byte>)
    requires IsChar(c, |c|)
    ensures CharLength(c + rest) == |c| && RuneAt(c + rest, |c|) == RuneAt(c, |c|)
  {
    assert (c + rest)[0] == c[0];
    assert |c| > 1 ==> (c + rest)[1] == c[1];
    assert |c| > 2 ==> (c + rest)[2] == c[2];
    assert |c| > 3 ==> (c + rest)[3] == c[3];
  }

  /** Every scalar value encodes to one well-formed character that decodes to it. */
  lemma EncodeIsChar(r: int)
    requires IsScalar(r)
    ensures IsChar(Encode(r), |Encode(r)|) && RuneAt(Encode(r), |Encode(r)|) == r
  {
    if 0x800 <= r < 0x1_0000 {
      assert r / 4096 == r / 64 / 64;
    } else if r >= 0x1_0000 {
      assert r / 4096 == r / 64 / 64;
      assert r / 0x4_0000 == r / 4096 / 64;
    }
  }

  /** And a well-formed character is the encoding of a scalar value: no overlong form, no surrogate, nothing past U+10FFFF. */
  lemma CharExact(b: seq<Byte>, n: nat)
    requires IsChar(b, n)
    ensures IsScalar(RuneAt(b, n)) && Encode(RuneAt(b, n)) == b[..n]
  {
    var r := RuneAt(b, n);
    match n
    case 1 => assert b[..1] == [b[0]];
    case 2 => TwoBytes(b);
    case 3 => ThreeBytes(b);
    case 4 => FourBytes(b);
  }

  lemma TwoBytes(b: seq<Byte>)
    requires IsChar(b, 2)
    ensures IsScalar(RuneAt(b, 2)) && Encode(RuneAt(b, 2)) == b[..2]
  {
    var x, y := Payload(b[0], 0xC0), Payload(b[1], 0x80);
    DivideBy64(x, y);
    assert b[..2] == [b[0], b[1]];
  }

  lemma ThreeBytes(b: seq<Byte>)
    requires IsChar(b, 3)
    ensures IsScalar(RuneAt(b, 3)) && Encode(RuneAt(b, 3)) == b[..3]
  {
    var x, y, z := Payload(b[0], 0xE0), Payload(b[1], 0x80), Payload(b[2], 0x80);
    var r := (x * 64 + y) * 64 + z;
    DivideBy64(x * 64 + y, z);
    DivideBy64(x, y);
    assert r / 4096 == r / 64 / 64;
    assert b[..3] == [b[0], b[1], b[2]];
  }

  lemma FourBytes(b: seq<Byte>)
    requires IsChar(b, 4)
    ensures IsScalar(RuneAt(b, 4)) && Encode(RuneAt(b, 4)) == b[..4]
  {
    var w, x, y, z := Payload(b[0], 0xF0), Payload(b[1], 0x80), Payload(b[2], 0x80), Payload(b[3], 0x80);
    var r := ((w * 64 + x) * 64 + y) * 64 + z;
    DivideBy64((w * 64 + x) * 64 + y, z);
    DivideBy64(w * 64 + x, y);
    DivideBy64(w, x);
    assert r / 4096 == r / 64 / 64 && r / 0x4_0000 == r / 4096 / 64;
    assert b[..4] == [b[0], b[1], b[2], b[3]];
  }

  lemma DivideBy64(high: nat, low: nat)
    requires low < 64
    ensures (high * 64 + low) / 64 == high && (high * 64 + low) % 64 == low
  {
  }

  function EncodeRunes(rs: seq<int>): seq<Byte>
    requires forall i :: 0 <= i < |rs| ==> IsScalar(rs[i])
  {
    if rs == [] then [] else Encode(rs[0]) + EncodeRunes(rs[1..])
  }

  /** So well-formed bytes are exactly the encoding of the code points they decode to. */
  lemma {:induction false} DecodeExact(b: seq<Byte>)
    requires WellFormed(b)
    ensures forall i :: 0 <= i < |Decode(b)| ==> IsScalar(Decode(b)[i])
    ensures EncodeRunes(Decode(b)) == b
  {
    hide IsChar, RuneAt, Encode, CharLength, IsScalar;
    if b != [] {
      var n := CharLength(b);
      CharExact(b, n);
      DecodeExact(b[n..]);
      assert Decode(b)[1..] == Decode(b[n..]);
      assert b == b[..n] + b[n..];
    }
  }

  // ── the transcoder ─────────────────────────────────────────────────────────

  const REPLACEMENT: int := 0xFFFD

  /** The Windows-1252 characters of the 0x80-0x9F band; five slots are undefined. */
  const CP1252_HIGH: map<Byte, int> := map[
    0x80 := 0x20AC, 0x82 := 0x201A, 0x83 := 0x0192, 0x84 := 0x201E, 0x85 := 0x2026, 0x86 := 0x2020, 0x87 := 0x2021,
    0x88 := 0x02C6, 0x89 := 0x2030, 0x8A := 0x0160, 0x8B := 0x2039, 0x8C := 0x0152, 0x8E := 0x017D,
    0x91 := 0x2018, 0x92 := 0x2019, 0x93 := 0x201C, 0x94 := 0x201D, 0x95 := 0x2022, 0x96 := 0x2013, 0x97 := 0x2014,
    0x98 := 0x02DC, 0x99 := 0x2122, 0x9A := 0x0161, 0x9B := 0x203A, 0x9C := 0x0153, 0x9E := 0x017E, 0x9F := 0x0178]

  function RuneOf(c: Byte): (r: int)
    ensures IsScalar(r)
  {
    if c < 0x80 || c >= 0xA0 then c
    else if c in CP1252_HIGH then
      assert CP1252_HIGH[c] in CP1252_HIGH.Values;
      CP1252_HIGH[c]
    else REPLACEMENT
  }

  /** Row by row, the chart of Windows-1252: ASCII and Latin-1 stand for themselves, the band between as listed. */
  lemma Chart(c: Byte)
    ensures c < 0x80 || c >= 0xA0 ==> RuneOf(c) == c
    ensures 0x80 <= c < 0x88 ==> RuneOf(c) == [0x20AC, 0xFFFD, 0x201A, 0x0192, 0x201E, 0x2026, 0x2020, 0x2021][c - 0x80]
    ensures 0x88 <= c < 0x90 ==> RuneOf(c) == [0x02C6, 0x2030, 0x0160, 0x2039, 0x0152, 0xFFFD, 0x017D, 0xFFFD][c - 0x88]
    ensures 0x90 <= c < 0x98 ==> RuneOf(c) == [0xFFFD, 0x2018, 0x2019, 0x201C, 0x201D, 0x2022, 0x2013, 0x2014][c - 0x90]
    ensures 0x98 <= c < 0xA0 ==> RuneOf(c) == [0x02DC, 0x2122, 0x0161, 0x203A, 0x0153, 0xFFFD, 0x017E, 0x0178][c - 0x98]
  {
  }

  function RunesOf(b: seq<Byte>): (rs: seq<int>)
    ensures |rs| == |b| && forall i :: 0 <= i < |b| ==> rs[i] == RuneOf(b[i])
  {
    seq(|b|, i requires 0 <= i < |b| => RuneOf(b[i]))
  }

  function EncodeAll(b: seq<Byte>): seq<Byte> {
    if b == [] then [] else EncodeAll(b[..|b| - 1]) + Encode(RuneOf(b[|b| - 1]))
  }

  function Transcoded(b: seq<Byte>): seq<Byte> {
    if WellFormed(b) then b else EncodeAll(b)
  }

  /** ToUTF8 */
  method ToUTF8(b: seq<Byte>) returns (out: seq<Byte>)
    ensures out == Transcoded(b)
  {
    hide Encode, WellFormed;
    if WellFormed(b) {
      return b;
    }
    out := [];
    for i := 0 to |b|
      invariant out == EncodeAll(b[..i])
    {
      assert b[..i + 1][..i] == b[..i];
      var c := b[i];
      if c < 0x80 || c >= 0xA0 {
        out := out + Encode(c);
      } else if c in CP1252_HIGH {
        out := out + Encode(RuneOf(c));
      } else {
        out := out + Encode(REPLACEMENT);
      }
    }
    assert b[..|b|] == b;
  }

  lemma {:induction false} WellFormedConcat(a: seq<Byte>, b: seq<Byte>)
    requires WellFormed(a) && WellFormed(b)
    ensures WellFormed(a + b) && Decode(a + b) == Decode(a) + Decode(b)
  {
    hide IsChar, RuneAt, CharLength;
    if a == [] {
      assert a + b == b;
    } else {
      var n := CharLength(a);
      FirstChar(a, b);
      assert (a + b)[n..] == a[n..] + b;
      WellFormedConcat(a[n..], b);
      assert Decode(a + b) == [RuneAt(a, n)] + (Decode(a[n..]) + Decode(b));
    }
  }

  lemma FirstChar(a: seq<Byte>, b: seq<Byte>)
    requires CharLength(a) > 0
    ensures CharLength(a + b) == CharLength(a) && RuneAt(a + b, CharLength(a)) == RuneAt(a, CharLength(a))
  {
    hide IsChar, RuneAt;
    var n := CharLength(a);
    PrefixChar(a, n);
    CharThenRest(a[..n], a[n..]);
    CharThenRest(a[..n], a[n..] + b);
    assert a == a[..n] + a[n..];
    assert a + b == a[..n] + (a[n..] + b);
  }

  lemma PrefixChar(a: seq<Byte>, n: nat)
    requires IsChar(a, n)
    ensures IsChar(a[..n], |a[..n]|) && |a[..n]| == n > 0
  {
  }

  lemma OneChar(r: int)
    requires IsScalar(r)
    ensures WellFormed(Encode(r)) && Decode(Encode(r)) == [r]
  {
    hide IsChar, RuneAt, Encode;
    EncodeIsChar(r);
    var c := Encode(r);
    CharThenRest(c, []);
    assert c + [] == c;
    CharNonEmpty(c);
    assert c[|c|..] == [];
  }

  lemma CharNonEmpty(c: seq<Byte>)
    requires IsChar(c, |c|)
    ensures c != []
  {
  }

  /** The fallback output is well formed and decodes to exactly one code point per input byte. */
  lemma {:induction false} FallbackDecodes(b: seq<Byte>)
    ensures WellFormed(EncodeAll(b)) && Decode(EncodeAll(b)) == RunesOf(b)
  {
    hide Encode, RuneOf, WellFormed, Decode;
    if b == [] {
      NothingDecodes();
    } else {
      var before, c := b[..|b| - 1], b[|b| - 1];
      FallbackDecodes(before);
      OneChar(RuneOf(c));
      WellFormedConcat(EncodeAll(before), Encode(RuneOf(c)));
      assert RunesOf(b) == RunesOf(before) + [RuneOf(c)];
    }
  }

  lemma NothingDecodes()
    ensures WellFormed([]) && Decode([]) == []
  {
  }

  /**
   The transcoder always yields well-formed UTF-8, leaves well-formed input alone, is
   idempotent, and otherwise yields the Windows-1252 reading, one code point per byte.
   */
  lemma AlwaysWellFormed(b: seq<Byte>)
    ensures WellFormed(Transcoded(b))
    ensures Transcoded(b) == b <==> WellFormed(b)
    ensures Transcoded(Transcoded(b)) == Transcoded(b)
    ensures !WellFormed(b) ==> Decode(Transcoded(b)) == RunesOf(b) && |Decode(Transcoded(b))| == |b|
  {
    hide WellFormed, Decode, EncodeAll;
    FallbackDecodes(b);
  }
}
