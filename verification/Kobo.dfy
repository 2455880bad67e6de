/**
 Ledger amounts. Every amount is a whole number of kobo carried as text with
 zero-padded decimals; `Parse` is koboOf. Integers are Go's int64, so the parser's
 range check and the wrap-around of negation are written out.
 */
module Kobo {
  import opened Wrappers
  import opened Text

  const MIN_INT64: int := -0x8000_0000_0000_0000
  const MAX_INT64: int := 0x7FFF_FFFF_FFFF_FFFF
  const TWO_TO_64: int := 0x1_0000_0000_0000_0000

  type Int64 = n: int | MIN_INT64 <= n <= MAX_INT64

  /** The int64 congruent to n. */
  function Wrap(n: int): (r: Int64)
    ensures MIN_INT64 <= n <= MAX_INT64 ==> r == n
  {
    (n - MIN_INT64) % TWO_TO_64 + MIN_INT64
  }

  lemma WrapAdd(a: int, b: int)
    ensures Wrap(Wrap(a) + b) == Wrap(a + b)
  {
    var q := (a - MIN_INT64) / TWO_TO_64;
    assert a - MIN_INT64 == q * TWO_TO_64 + (a - MIN_INT64) % TWO_TO_64;
    assert a + b - MIN_INT64 == q * TWO_TO_64 + (Wrap(a) + b - MIN_INT64);
    ModShift(Wrap(a) + b - MIN_INT64, q);
  }

  lemma ModShift(x: int, q: int)
    ensures (q * TWO_TO_64 + x) % TWO_TO_64 == x % TWO_TO_64
  {
    var d := (q * TWO_TO_64 + x) / TWO_TO_64 - q - x / TWO_TO_64;
    assert (q * TWO_TO_64 + x) % TWO_TO_64 == x % TWO_TO_64 - d * TWO_TO_64;
  }

  /** Negating an int64 gives its opposite, but for the least one, which it gives back. */
  lemma WrapNegated(n: int)
    requires MIN_INT64 <= n <= MAX_INT64
    ensures Wrap(-n) == if n == MIN_INT64 then MIN_INT64 else -n
  {
  }

  function Abs(n: int): nat {
    if n < 0 then -n else n
  }

  predicate IsDigit(c: char) {
    '0' <= c <= '9'
  }

  predicate AllDigits(s: string) {
    forall i :: 0 <= i < |s| ==> IsDigit(s[i])
  }

  predicate AllZero(s: string) {
    forall i :: 0 <= i < |s| ==> s[i] == '0'
  }

  /** The number a string of decimal digits denotes. */
  function Value(s: string): nat
    requires AllDigits(s)
  {
    if s == [] then 0 else 10 * Value(s[..|s| - 1]) + (s[|s| - 1] as int - '0' as int)
  }

  function RemoveCommas(s: string): (r: string)
    ensures ',' !in r
    ensures ',' !in s ==> r == s
  {
    if s == [] then [] else (if s[0] == ',' then [] else [s[0]]) + RemoveCommas(s[1..])
  }

  /** strings.Cut at the first point. */
  function CutPoint(s: string): (r: (string, Option<string>))
    ensures '.' !in r.0
    ensures r.1.None? <==> '.' !in s
    ensures s == r.0 + if r.1.Some? then "." + r.1.value else ""
  {
    if s == [] then ([], None)
    else if s[0] == '.' then ([], Some(s[1..]))
    else
      var (whole, frac) := CutPoint(s[1..]);
      assert s == [s[0]] + s[1..];
      ([s[0]] + whole, frac)
  }

  datatype AmountError = EmptyAmount | NonZeroFraction | NotAnInteger | OutOfRange

  predicate Starts(s: string, c: char) {
    s != [] && s[0] == c
  }

  /** One leading character dropped when it is a sign. */
  function Unsigned(s: string): string {
    if Starts(s, '-') || Starts(s, '+') then s[1..] else s
  }

  /** strconv.ParseInt(s, 10, 64) */
  function ParseInt64(s: string): Result<int, AmountError> {
    var digits := Unsigned(s);
    if digits == [] || !AllDigits(digits) then Failure(NotAnInteger)
    else
      var n := if Starts(s, '-') then -(Value(digits) as int) else Value(digits) as int;
      if MIN_INT64 <= n <= MAX_INT64 then Success(n) else Failure(OutOfRange)
  }

  /** What koboOf looks at: the text without grouping commas or padding. */
  function Normal(s: string): string {
    TrimSpace(RemoveCommas(s))
  }

  /** strings.TrimPrefix(t, "-") */
  function DropMinus(t: string): string {
    if Starts(t, '-') then t[1..] else t
  }

  function ParseNormal(t: string): Result<int, AmountError> {
    if t == [] then Failure(EmptyAmount)
    else
      var (whole, frac) := CutPoint(DropMinus(t));
      if frac.Some? && !AllZero(frac.value) then Failure(NonZeroFraction)
      else
        match ParseInt64(whole)
        case Failure(e) => Failure(e)
        case Success(n) => Success(if Starts(t, '-') then Wrap(-n) else n)
  }

  /** koboOf */
  function Parse(s: string): Result<int, AmountError> {
    ParseNormal(Normal(s))
  }

  lemma ParsedRange(s: string)
    requires Parse(s).Success?
    ensures MIN_INT64 <= Parse(s).value <= MAX_INT64
  {
    hide Normal, CutPoint, Value;
  }

  // ── exactness ──────────────────────────────────────────────────────────────

  /** The usual decimal rendering of a natural number. */
  function Decimal(n: nat): (r: string)
    ensures r != [] && AllDigits(r) && Value(r) == n
  {
    var last := [(n % 10 + '0' as int) as char];
    if n < 10 then last
    else
      var r := Decimal(n / 10) + last;
      assert r[..|r| - 1] == Decimal(n / 10);
      r
  }

  function Zeros(k: nat): (r: string)
    ensures |r| == k && AllZero(r)
  {
    seq(k, i => '0')
  }

  /** The amount n as the ledger prints it, with `decimals` zeros after a point if any. */
  function Printed(n: int, decimals: Option<nat>): string {
    (if n < 0 then "-" else "") + Decimal(Abs(n)) +
    Tail(decimals)
  }

  lemma CutPointNone(s: string)
    requires '.' !in s
    ensures CutPoint(s) == (s, None)
  {
    assert CutPoint(s).0 == s;
  }

  lemma CutPointSome(whole: string, rest: string)
    requires '.' !in whole
    ensures CutPoint(whole + "." + rest) == (whole, Some(rest))
  {
    var s := whole + "." + rest;
    var (w, f) := CutPoint(s);
    assert s[|whole|] == '.';
    assert forall i :: 0 <= i < |w| ==> s[i] == w[i] != '.';
    assert forall i :: 0 <= i < |whole| ==> s[i] == whole[i] != '.';
    assert f.Some?;
    assert s[|w|] == '.';
    assert |w| == |whole|;
    assert w == s[..|whole|] == whole;
    assert f.value == s[|whole| + 1..] == rest;
  }

  /** g is t with commas put in anywhere. */
  ghost predicate Grouped(g: string, t: string) {
    if g == "" then t == ""
    else if g[0] == ',' then Grouped(g[1..], t)
    else t != "" && t[0] == g[0] && Grouped(g[1..], t[1..])
  }

  lemma {:induction false} GroupedExact(g: string, t: string)
    ensures Grouped(g, t) <==> RemoveCommas(g) == t
  {
    if g != "" {
      if g[0] == ',' {
        GroupedExact(g[1..], t);
      } else if t != "" {
        GroupedExact(g[1..], t[1..]);
        assert t == [t[0]] + t[1..];
      }
    }
  }

  /** What the parser looks at is the text without its grouping commas and the padding round it. */
  lemma NormalExact(a: string, g: string, b: string, t: string)
    requires AllSpace(a) && AllSpace(b) && Grouped(g, t) && Trimmed(t)
    ensures Normal(a + g + b) == t
  {
    hide TrimSpace, RemoveCommas, Trimmed, AllSpace;
    GroupedExact(g, t);
    RemoveCommasSpace(a);
    RemoveCommasSpace(b);
    RemoveCommasAppend(a + g, b);
    RemoveCommasAppend(a, g);
    TrimPad(a, t, b);
    TrimTrimmed(t);
  }

  lemma PrintedTrimmed(n: int, decimals: Option<nat>)
    ensures Trimmed(Printed(n, decimals))
  {
    hide Decimal;
    var d := Decimal(Abs(n));
    var t := Printed(n, decimals);
    assert IsDigit(d[0]) && IsDigit(d[|d| - 1]);
    if decimals.Some? {
      assert t[|t| - 1] == '.' || t[|t| - 1] == '0';
    } else {
      assert t[|t| - 1] == d[|d| - 1];
    }
    assert t[0] == '-' || t[0] == d[0];
  }

  /**
   Whatever commas are scattered through it and whatever padding surrounds it, a
   printed integer parses to itself exactly when its magnitude is below 2^63.
   */
  lemma PrintedParses(n: int, decimals: Option<nat>, a: string, g: string, b: string)
    requires AllSpace(a) && AllSpace(b) && Grouped(g, Printed(n, decimals))
    ensures Parse(a + g + b) == Success(n) <==> Abs(n) <= 0x7FFF_FFFF_FFFF_FFFF
  {
    hide ParseNormal, Printed, Normal;
    PrintedTrimmed(n, decimals);
    NormalExact(a, g, b, Printed(n, decimals));
    ParsePrinted(n, decimals);
  }

  lemma ParsePrinted(n: int, decimals: Option<nat>)
    ensures ParseNormal(Printed(n, decimals)) == Success(n) <==> Abs(n) <= MAX_INT64
  {
    hide ParseNormal;
    PrintedSign(n, decimals);
    ParseSigned(n, Printed(n, decimals), Decimal(Abs(n)), decimals);
  }

  lemma ParseSigned(n: int, t: string, d: string, decimals: Option<nat>)
    requires t != [] && DropMinus(t) == d + Tail(decimals)
    requires d != [] && AllDigits(d)
    requires Value(d) == Abs(n) && Starts(t, '-') == (n < 0)
    ensures ParseNormal(t) == Success(n) <==> Abs(n) <= MAX_INT64
  {
    hide CutPoint, ParseNormal, ParseInt64, Value, Tail;
    CutPrinted(d, decimals);
    var (whole, frac) := CutPoint(d + Tail(decimals));
    ParseDigits(d);
    ParseCut(t, whole, frac);
  }

  lemma ParseCut(t: string, whole: string, frac: Option<string>)
    requires t != [] && CutPoint(DropMinus(t)) == (whole, frac) && (frac.Some? ==> AllZero(frac.value))
    ensures var p := ParseInt64(whole);
            ParseNormal(t) == if p.Success? && Starts(t, '-') then Success(Wrap(-p.value)) else p
  {
    hide CutPoint, ParseInt64, Value, Wrap, DropMinus;
  }

  function Tail(decimals: Option<nat>): string {
    if decimals.Some? then "." + Zeros(decimals.value) else ""
  }

  lemma PrintedSign(n: int, decimals: Option<nat>)
    ensures var t := Printed(n, decimals);
            t != [] && Starts(t, '-') == (n < 0) && DropMinus(t) == Decimal(Abs(n)) + Tail(decimals)
  {
    var t := Printed(n, decimals);
    var d := Decimal(Abs(n));
    assert IsDigit(d[0]);
    if n < 0 {
      assert t == ['-'] + (d + Tail(decimals));
    } else {
      assert t == d + Tail(decimals);
      assert t[0] == d[0];
    }
  }

  lemma CutPrinted(d: string, decimals: Option<nat>)
    requires AllDigits(d)
    ensures var (whole, frac) := CutPoint(d + Tail(decimals));
            whole == d && (frac.Some? ==> AllZero(frac.value))
  {
    assert '.' !in d;
    if decimals.Some? {
      assert d + Tail(decimals) == d + "." + Zeros(decimals.value);
      CutPointSome(d, Zeros(decimals.value));
    } else {
      assert d + Tail(decimals) == d;
      CutPointNone(d);
    }
  }

  lemma ParseDigits(d: string)
    requires d != [] && AllDigits(d)
    ensures ParseInt64(d) == if Value(d) <= MAX_INT64 then Success(Value(d)) else Failure(OutOfRange)
  {
    assert IsDigit(d[0]);
  }

  lemma DigitParses(d: char)
    requires IsDigit(d)
    ensures Parse([d]) == Success(d as int - '0' as int)
  {
    hide RemoveCommas, TrimSpace, ParseInt64, CutPoint;
    TrimTrimmed([d]);
    CutPointNone([d]);
    ParseDigits([d]);
  }

  /** Any character other than '0' after the first point is refused, wherever it stands. */
  lemma FractionRefused(s: string, whole: string, frac: string)
    requires Normal(s) == whole + "." + frac && '.' !in whole
    requires !AllZero(frac)
    ensures Parse(s) == Failure(NonZeroFraction)
  {
    hide CutPoint, Normal;
    var t := Normal(s);
    if Starts(t, '-') {
      assert whole != "" && t[1..] == whole[1..] + "." + frac;
      CutPointSome(whole[1..], frac);
    } else {
      CutPointSome(whole, frac);
    }
  }

  function Pow10(k: nat): nat {
    if k == 0 then 1 else 10 * Pow10(k - 1)
  }

  lemma {:induction false} ValuePadded(s: string, z: string)
    requires AllDigits(s) && AllZero(z)
    ensures AllDigits(s + z) && Value(s + z) == Value(s) * Pow10(|z|)
  {
    if z == [] {
      assert s + z == s;
    } else {
      var z' := z[..|z| - 1];
      assert (s + z)[..|s + z| - 1] == s + z';
      ValuePadded(s, z');
    }
  }

  /** A magnitude under the sign that up to two leading minus signs make. */
  function Signed(t: string, n: nat): int {
    var even := Starts(t, '-') == Starts(DropMinus(t), '-');
    if even && n <= MAX_INT64 then n else -(n as int)
  }

  /**
   With its signs and point taken out, the text is all digits, and read as one number it is
   v shifted by the number of decimals; v is negative under one minus sign and positive
   under none or two, except that two over 2^63 leave the least int64 as it is.
   */
  ghost predicate ReadsExactly(t: string, v: int) {
    var (whole, frac) := CutPoint(Unsigned(DropMinus(t)));
    var decimals := if frac.Some? then frac.value else "";
    && whole != "" && AllDigits(whole) && AllDigits(whole + decimals)
    && Value(whole + decimals) == Abs(v) * Pow10(|decimals|)
    && v == Signed(t, Value(whole))
  }

  /** No accepted amount is rounded. */
  lemma NeverRounds(s: string)
    requires Parse(s).Success?
    ensures ReadsExactly(Normal(s), Parse(s).value)
  {
    hide ReadsExactly, ParseNormal;
    NormalNeverRounds(Normal(s));
  }

  lemma NormalNeverRounds(t: string)
    requires ParseNormal(t).Success?
    ensures ReadsExactly(t, ParseNormal(t).value)
  {
    hide CutPoint;
    var (w, f) := CutPoint(DropMinus(t));
    CutUnsigned(DropMinus(t));
    ParseCut(t, w, f);
    assert Value(Unsigned(w)) == Abs(ParseNormal(t).value);
    ValuePadded(Unsigned(w), if f.Some? then f.value else "");
  }

  lemma CutUnsigned(u: string)
    ensures CutPoint(Unsigned(u)) == (Unsigned(CutPoint(u).0), CutPoint(u).1)
  {
    hide CutPoint;
    var (w, f) := CutPoint(u);
    if Starts(u, '-') || Starts(u, '+') {
      assert w != "" && w[0] == u[0];
      if f.Some? {
        assert u[1..] == w[1..] + "." + f.value;
        CutPointSome(w[1..], f.value);
      } else {
        assert u[1..] == w[1..];
        CutPointNone(w[1..]);
      }
    } else if w != "" {
      assert w[0] == u[0];
    }
  }

  lemma {:induction false} RemoveCommasAppend(a: string, b: string)
    ensures RemoveCommas(a + b) == RemoveCommas(a) + RemoveCommas(b)
  {
    if a == [] {
      assert a + b == b;
    } else {
      assert (a + b)[1..] == a[1..] + b;
      RemoveCommasAppend(a[1..], b);
    }
  }

  lemma {:induction false} RemoveCommasSpace(a: string)
    requires AllSpace(a)
    ensures RemoveCommas(a) == a
  {
    assert ',' !in a;
  }

  lemma NormalTrim(s: string)
    ensures Normal(TrimSpace(s)) == Normal(s)
  {
    var c := TrimSpace(s);
    var a, b := TrimParts(s);
    RemoveCommasSpace(a);
    RemoveCommasSpace(b);
    RemoveCommasAppend(a + c, b);
    RemoveCommasAppend(a, c);
    TrimPad(a, RemoveCommas(c), b);
  }

  /** Padding around an amount does not change it, so amounts with equal keys are equal. */
  lemma ParseTrim(s: string)
    ensures Parse(TrimSpace(s)) == Parse(s)
  {
    NormalTrim(s);
  }
}
