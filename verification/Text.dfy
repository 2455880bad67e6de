/**
 The Go string operations the ingest code relies on, on sequences of characters.
 Each one is given by recursion or by a first-match index; the lemmas say what
 the callers need: trimming sees through padding, splitting undoes joining.
 */
module Text {

  /** unicode.IsSpace. */
  predicate IsSpace(c: char) {
    || '\t' <= c <= '\r'
    || c == ' '
    || c == '\U{85}'
    || c == '\U{A0}'
    || c == '\U{1680}'
    || '\U{2000}' <= c <= '\U{200A}'
    || c == '\U{2028}'
    || c == '\U{2029}'
    || c == '\U{202F}'
    || c == '\U{205F}'
    || c == '\U{3000}'
  }

  /** The white space characters of Unicode: 25 of them. */
  lemma SpacesExact(c: char)
    ensures IsSpace(c) <==>
            c as int in {9, 10, 11, 12, 13, 32, 0x85, 0xA0, 0x1680, 0x2000, 0x2001, 0x2002, 0x2003, 0x2004, 0x2005,
                         0x2006, 0x2007, 0x2008, 0x2009, 0x200A, 0x2028, 0x2029, 0x202F, 0x205F, 0x3000}
  {
  }

  predicate AllSpace(s: string) {
    forall i :: 0 <= i < |s| ==> IsSpace(s[i])
  }

  function TrimLeft(s: string): (r: string)
    ensures r != [] ==> !IsSpace(r[0])
    ensures |r| <= |s| && r == s[|s| - |r|..] && AllSpace(s[..|s| - |r|])
  {
    if s != [] && IsSpace(s[0]) then TrimLeft(s[1..]) else s
  }

  function TrimRight(s: string): (r: string)
    ensures r != [] ==> !IsSpace(r[|r| - 1])
    ensures r <= s && AllSpace(s[|r|..])
  {
    if s != [] && IsSpace(s[|s| - 1]) then
      var r := TrimRight(s[..|s| - 1]);
      assert s[|r|..] == s[..|s| - 1][|r|..] + [s[|s| - 1]];
      r
    else s
  }

  /** strings.TrimSpace */
  function TrimSpace(s: string): string {
    TrimRight(TrimLeft(s))
  }

  /** Every field trimmed. */
  function TrimAll(f: seq<string>): (r: seq<string>)
    ensures |r| == |f|
    ensures forall i :: 0 <= i < |f| ==> r[i] == TrimSpace(f[i])
  {
    seq(|f|, i requires 0 <= i < |f| => TrimSpace(f[i]))
  }

  /** A string that TrimSpace leaves alone. */
  predicate Trimmed(s: string) {
    s != [] ==> !IsSpace(s[0]) && !IsSpace(s[|s| - 1])
  }

  lemma {:induction false} TrimLeftPad(a: string, s: string)
    requires AllSpace(a)
    ensures TrimLeft(a + s) == TrimLeft(s)
  {
    if a == [] {
      assert a + s == s;
    } else {
      assert (a + s)[1..] == a[1..] + s;
      TrimLeftPad(a[1..], s);
    }
  }

  lemma {:induction false} TrimRightPad(s: string, b: string)
    requires AllSpace(b)
    ensures TrimRight(s + b) == TrimRight(s)
  {
    if b == [] {
      assert s + b == s;
    } else {
      assert (s + b)[..|s + b| - 1] == s + b[..|b| - 1];
      TrimRightPad(s, b[..|b| - 1]);
    }
  }

  lemma {:induction false} TrimLeftAppend(s: string, b: string)
    ensures TrimLeft(s) != [] ==> TrimLeft(s + b) == TrimLeft(s) + b
    ensures TrimLeft(s) == [] ==> TrimLeft(s + b) == TrimLeft(b)
  {
    if s == [] {
      assert s + b == b;
    } else if IsSpace(s[0]) {
      assert (s + b)[1..] == s[1..] + b;
      TrimLeftAppend(s[1..], b);
    }
  }

  /** Padding on either side is invisible to TrimSpace. */
  lemma TrimPad(a: string, s: string, b: string)
    requires AllSpace(a) && AllSpace(b)
    ensures TrimSpace(a + s + b) == TrimSpace(s)
  {
    assert a + s + b == a + (s + b);
    TrimLeftPad(a, s + b);
    TrimLeftAppend(s, b);
    if TrimLeft(s) == [] {
      assert b + [] == b;
      TrimLeftPad(b, []);
    } else {
      TrimRightPad(TrimLeft(s), b);
    }
  }

  /** TrimSpace cuts only padding, and what it leaves is trimmed. */
  lemma TrimParts(s: string) returns (a: string, b: string)
    ensures AllSpace(a) && AllSpace(b) && s == a + TrimSpace(s) + b
    ensures Trimmed(TrimSpace(s))
  {
    hide TrimLeft, TrimRight, IsSpace;
    var l := TrimLeft(s);
    a, b := s[..|s| - |l|], l[|TrimRight(l)|..];
  }

  lemma TrimTrimmed(s: string)
    requires Trimmed(s)
    ensures TrimSpace(s) == s
  {
  }

  /** Byte order on strings: Go's `a < b`. */
  predicate Below(a: string, b: string) {
    b != [] && (a == [] || a[0] < b[0] || (a[0] == b[0] && Below(a[1..], b[1..])))
  }

  /** Go's `a >= b`. */
  predicate AtLeast(a: string, b: string) {
    !Below(a, b)
  }

  lemma {:induction false} AtLeastTransitive(a: string, b: string, c: string)
    requires AtLeast(a, b) && AtLeast(b, c)
    ensures AtLeast(a, c)
  {
    if a != [] && b != [] && c != [] && a[0] == b[0] == c[0] {
      AtLeastTransitive(a[1..], b[1..], c[1..]);
    }
  }

  /** strings.Index: the first position of `sub`, or -1. */
  function IndexOf(s: string, sub: string): (i: int)
    ensures i == -1 || (0 <= i <= |s| && sub <= s[i..])
    ensures i == -1 ==> forall k :: 0 <= k <= |s| ==> !(sub <= s[k..])
    ensures forall k :: 0 <= k < i ==> !(sub <= s[k..])
  {
    if sub <= s then
      assert s[0..] == s;
      0
    else if s == [] then -1
    else
      var j := IndexOf(s[1..], sub);
      assert forall k :: 1 <= k <= |s| ==> s[k..] == s[1..][k - 1..];
      if j == -1 then -1 else j + 1
  }

  /** strings.LastIndex: the last position of `sub`, or -1. */
  function LastIndexOf(s: string, sub: string): (i: int)
    ensures i == -1 || (0 <= i <= |s| && sub <= s[i..])
    ensures forall k :: 0 <= k <= |s| && i < k ==> !(sub <= s[k..])
  {
    if s == [] then
      if sub == [] then 0 else -1
    else
      var j := LastIndexOf(s[1..], sub);
      assert forall k :: 1 <= k <= |s| ==> s[k..] == s[1..][k - 1..];
      if j != -1 then j + 1
      else if sub <= s then
        assert s[0..] == s;
        0
      else -1
  }

  predicate HasPrefix(s: string, p: string) {
    p <= s
  }

  predicate HasSuffix(s: string, p: string) {
    |p| <= |s| && s[|s| - |p|..] == p
  }

  predicate Contains(s: string, sub: string) {
    IndexOf(s, sub) != -1
  }

  /** strings.TrimPrefix */
  function TrimPrefix(s: string, p: string): string {
    if p <= s then s[|p|..] else s
  }

  /** unicode.ToUpper, exact wherever the result is an ASCII letter. */
  function UpperChar(c: char): char {
    if 'a' <= c <= 'z' then ((c as int) - 32) as char
    else if c == '\U{131}' then 'I'
    else if c == '\U{17F}' then 'S'
    else c
  }

  function ToUpper(s: string): (r: string)
    ensures |r| == |s|
  {
    seq(|s|, i requires 0 <= i < |s| => UpperChar(s[i]))
  }

  /** unicode.ToLower, exact wherever the result is an ASCII letter. */
  function LowerChar(c: char): char {
    if 'A' <= c <= 'Z' then ((c as int) + 32) as char
    else if c == '\U{130}' then 'i'
    else if c == '\U{212A}' then 'k'
    else c
  }

  function ToLower(s: string): (r: string)
    ensures |r| == |s|
  {
    seq(|s|, i requires 0 <= i < |s| => LowerChar(s[i]))
  }

  // ── words in any case ──────────────────────────────────────────────────────

  predicate SameLetter(c: char, w: char) {
    c == w || ('a' <= w <= 'z' && c == UpperChar(w))
  }

  /** The words stand somewhere in the narration, in any case. */
  ghost predicate Mentions(narration: string, words: string) {
    exists i :: 0 <= i <= |narration| - |words| && StandsAt(narration, words, i)
  }

  ghost predicate StandsAt(narration: string, words: string, i: nat) {
    i + |words| <= |narration| && forall j :: 0 <= j < |words| ==> SameLetter(narration[i + j], words[j])
  }

  /** Letters whose capital is their only other spelling: not i and not k. */
  predicate PlainWords(words: string) {
    forall i :: 0 <= i < |words| ==> words[i] == ' ' || ('a' <= words[i] <= 'z' && words[i] != 'i' && words[i] != 'k')
  }

  lemma MentionExact(narration: string, words: string)
    requires PlainWords(words)
    ensures Contains(ToLower(narration), words) <==> Mentions(narration, words)
  {
    var n := ToLower(narration);
    forall i | 0 <= i <= |narration| - |words|
      ensures words <= n[i..] <==> StandsAt(narration, words, i)
    {
      LowerStands(narration, words, i);
    }
    assert forall k :: 0 <= k <= |n| && words <= n[k..] ==> k <= |narration| - |words|;
  }

  lemma LowerStands(narration: string, words: string, i: nat)
    requires PlainWords(words) && i + |words| <= |narration|
    ensures words <= ToLower(narration)[i..] <==> StandsAt(narration, words, i)
  {
    var n := ToLower(narration);
    forall j | 0 <= j < |words|
      ensures n[i..][j] == words[j] <==> SameLetter(narration[i + j], words[j])
    {
      assert n[i..][j] == LowerChar(narration[i + j]);
    }
    assert words <= n[i..] <==> forall j :: 0 <= j < |words| ==> n[i..][j] == words[j];
  }

  predicate Ascii(s: string) {
    forall i :: 0 <= i < |s| ==> s[i] < '\U{80}'
  }

  function Capitals(words: string): (r: string)
    ensures |r| == |words|
  {
    seq(|words|, i requires 0 <= i < |words| => UpperChar(words[i]))
  }

  /** Looking for capitals in the upper-cased text finds the same words. */
  lemma UpperMentionExact(text: string, words: string)
    requires Ascii(text) && PlainWords(words)
    ensures Contains(ToUpper(text), Capitals(words)) <==> Mentions(text, words)
  {
    var n := ToUpper(text);
    forall i | 0 <= i <= |text| - |words|
      ensures Capitals(words) <= n[i..] <==> StandsAt(text, words, i)
    {
      UpperStands(text, words, i);
    }
    assert forall k :: 0 <= k <= |n| && Capitals(words) <= n[k..] ==> k <= |text| - |words|;
  }

  lemma UpperStands(text: string, words: string, i: nat)
    requires Ascii(text) && PlainWords(words) && i + |words| <= |text|
    ensures Capitals(words) <= ToUpper(text)[i..] <==> StandsAt(text, words, i)
  {
    var n := ToUpper(text);
    forall j | 0 <= j < |words|
      ensures n[i..][j] == Capitals(words)[j] <==> SameLetter(text[i + j], words[j])
    {
      assert n[i..][j] == UpperChar(text[i + j]);
      assert text[i + j] < '\U{80}';
    }
    assert Capitals(words) <= n[i..] <==> forall j :: 0 <= j < |words| ==> n[i..][j] == Capitals(words)[j];
  }

  // ── splitting and joining ──────────────────────────────────────────────────

  /** strings.Split on one character; never empty. */
  function Split(s: string, sep: char): (r: seq<string>)
    ensures |r| >= 1
    ensures forall i :: 0 <= i < |r| ==> sep !in r[i]
  {
    if s == [] then [[]]
    else
      var rest := Split(s[1..], sep);
      if s[0] == sep then [[]] + rest
      else [[s[0]] + rest[0]] + rest[1..]
  }

  /** strings.Join */
  function Join(parts: seq<string>, sep: string): string {
    if parts == [] then []
    else if |parts| == 1 then parts[0]
    else parts[0] + sep + Join(parts[1..], sep)
  }

  /** Splitting distributes over a separator, whatever the two sides hold. */
  lemma {:induction false} SplitConcat(s: string, sep: char, t: string)
    ensures Split(s + [sep] + t, sep) == Split(s, sep) + Split(t, sep)
  {
    if s == [] {
      assert s + [sep] + t == [sep] + t;
    } else {
      assert (s + [sep] + t)[1..] == s[1..] + [sep] + t;
      SplitConcat(s[1..], sep, t);
    }
  }

  lemma {:induction false} SplitWhole(s: string, sep: char)
    requires sep !in s
    ensures Split(s, sep) == [s]
  {
    if s != [] {
      SplitWhole(s[1..], sep);
      assert [s[0]] + s[1..] == s;
    }
  }

  /** The pieces of every part, in order. */
  function SplitEach(parts: seq<string>, sep: char): seq<string> {
    if parts == [] then [] else Split(parts[0], sep) + SplitEach(parts[1..], sep)
  }

  lemma {:induction false} SplitEachConcat(a: seq<string>, b: seq<string>, sep: char)
    ensures SplitEach(a + b, sep) == SplitEach(a, sep) + SplitEach(b, sep)
  {
    if a == [] {
      assert a + b == b;
    } else {
      assert (a + b)[1..] == a[1..] + b;
      SplitEachConcat(a[1..], b, sep);
    }
  }

  lemma {:induction false} SplitEachWhole(parts: seq<string>, sep: char)
    requires forall i :: 0 <= i < |parts| ==> sep !in parts[i]
    ensures SplitEach(parts, sep) == parts
  {
    if parts != [] {
      SplitWhole(parts[0], sep);
      SplitEachWhole(parts[1..], sep);
    }
  }

  /** Splitting a joined line gives the pieces of its parts, so the parts back if none holds the separator. */
  lemma {:induction false} SplitJoin(parts: seq<string>, sep: char)
    requires parts != []
    ensures Split(Join(parts, [sep]), sep) == SplitEach(parts, sep)
  {
    if |parts| > 1 {
      SplitConcat(parts[0], sep, Join(parts[1..], [sep]));
      SplitJoin(parts[1..], sep);
    }
  }
}
