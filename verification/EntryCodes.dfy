/** Entry-code classification: which ledger rows are repayments, and which side a row is on. */
module EntryCodes {
  import opened Wrappers

  datatype Component = Principal | Interest

  const PRINCIPAL_CODES: set<string> := {"D-LPOP", "D-LPRP"}
  const INTEREST_CODES: set<string> := {"D-LIOP1A", "D-LIRP1"}

  predicate PrefixR(code: string) {
    code != [] && code[0] == 'R'
  }

  /** strings.TrimPrefix(code, "R") */
  function DropPrefixR(code: string): string {
    if PrefixR(code) then code[1..] else code
  }

  predicate HyphenR(code: string) {
    |code| >= 2 && code[0] == '-' && code[1] == 'R'
  }

  /** strings.Replace(code, "-R", "-", 1) */
  function DropInfixR(code: string): string {
    if code == [] then []
    else if HyphenR(code) then [code[0]] + code[2..]
    else [code[0]] + DropInfixR(code[1..])
  }

  /** strings.Contains(code, "-R") */
  predicate InfixR(code: string) {
    code != [] && (HyphenR(code) || InfixR(code[1..]))
  }

  function Base(code: string): string {
    DropInfixR(DropPrefixR(code))
  }

  /** componentOf */
  function ComponentOf(code: string): Option<Component> {
    if Base(code) in PRINCIPAL_CODES then Some(Principal)
    else if Base(code) in INTEREST_CODES then Some(Interest)
    else None
  }

  /** isReversal */
  predicate IsReversal(code: string) {
    PrefixR(code) || InfixR(code)
  }

  datatype Side = Debit | Credit

  /** glSideOf */
  function SideOf(code: string): Side {
    var c := DropPrefixR(code);
    if |c| >= 2 && c[0] == 'D' && c[1] == '-' then Debit else Credit
  }

  // ── what the classification accepts ────────────────────────────────────────

  /** The base codes of a component, as the tail after "D-". */
  function TailsOf(c: Component): set<string> {
    match c
    case Principal => {"LPOP", "LPRP"}
    case Interest => {"LIOP1A", "LIRP1"}
  }

  function LetterInfixed(letter: char, infixed: bool, tail: string): string {
    [letter, '-'] + (if infixed then ['R'] else []) + tail
  }

  function Infixed(infixed: bool, tail: string): string {
    LetterInfixed('D', infixed, tail)
  }

  /** A letter and a tail, with the two optional reversal marks. */
  function Marked(prefixed: bool, letter: char, infixed: bool, tail: string): string {
    (if prefixed then ['R'] else []) + LetterInfixed(letter, infixed, tail)
  }

  /** A base code decorated with the two optional reversal marks. */
  function Decorated(prefixed: bool, infixed: bool, tail: string): string {
    Marked(prefixed, 'D', infixed, tail)
  }

  /** The tails carry no hyphen and do not start with R. */
  predicate PlainTail(tail: string) {
    tail != [] && tail[0] != 'R' && '-' !in tail
  }

  lemma TailsPlain(c: Component, tail: string)
    requires tail in TailsOf(c)
    ensures PlainTail(tail)
  {
  }

  lemma {:induction false} NoHyphenKept(s: string)
    ensures '-' !in s ==> DropInfixR(s) == s && !InfixR(s)
    ensures '-' !in DropInfixR(s) ==> DropInfixR(s) == s
  {
    if s != [] {
      NoHyphenKept(s[1..]);
      assert s == [s[0]] + s[1..];
    }
  }

  lemma HyphenTail(tail: string)
    requires PlainTail(tail)
    ensures DropInfixR(['-'] + tail) == ['-'] + tail && !InfixR(['-'] + tail)
  {
    NoHyphenKept(tail);
    var u := ['-'] + tail;
    assert u[1..] == tail && !HyphenR(u);
  }

  /** A letter before the first hyphen is passed over. */
  lemma LetterFirst(x: char, u: string)
    requires x != '-'
    ensures DropInfixR([x] + u) == [x] + DropInfixR(u)
    ensures InfixR([x] + u) == InfixR(u)
  {
    assert ([x] + u)[1..] == u;
  }

  lemma DropLetterInfixed(letter: char, infixed: bool, tail: string)
    requires letter != '-' && PlainTail(tail)
    ensures DropInfixR(LetterInfixed(letter, infixed, tail)) == LetterInfixed(letter, false, tail)
    ensures InfixR(LetterInfixed(letter, infixed, tail)) == infixed
  {
    hide InfixR, DropInfixR, PlainTail;
    assert LetterInfixed(letter, false, tail) == [letter] + (['-'] + tail);
    if infixed {
      var u := ['-', 'R'] + tail;
      assert LetterInfixed(letter, true, tail) == [letter] + u;
      HyphenRDropped(tail);
      LetterFirst(letter, u);
    } else {
      HyphenTail(tail);
      LetterFirst(letter, ['-'] + tail);
    }
  }

  lemma DropInfixed(infixed: bool, tail: string)
    requires PlainTail(tail)
    ensures DropInfixR(Infixed(infixed, tail)) == Infixed(false, tail)
    ensures InfixR(Infixed(infixed, tail)) == infixed
  {
    DropLetterInfixed('D', infixed, tail);
  }

  lemma HyphenRDropped(tail: string)
    ensures DropInfixR(['-', 'R'] + tail) == ['-'] + tail && InfixR(['-', 'R'] + tail)
  {
    var u := ['-', 'R'] + tail;
    assert HyphenR(u) && u[2..] == tail;
  }

  /** Stripped of its marks, a code of a letter and a plain tail is that letter and tail; marked, it is a reversal. */
  lemma MarkedBase(prefixed: bool, letter: char, infixed: bool, tail: string)
    requires letter != 'R' && letter != '-' && PlainTail(tail)
    ensures var code := Marked(prefixed, letter, infixed, tail);
            && Base(code) == LetterInfixed(letter, false, tail)
            && IsReversal(code) == (prefixed || infixed)
  {
    hide InfixR, DropInfixR, PlainTail;
    var u := LetterInfixed(letter, infixed, tail);
    DropLetterInfixed(letter, infixed, tail);
    if prefixed {
      assert (['R'] + u)[1..] == u;
    } else {
      assert [] + u == u;
    }
  }

  lemma PrefixDecorated(prefixed: bool, infixed: bool, tail: string)
    ensures var code := Decorated(prefixed, infixed, tail);
            DropPrefixR(code) == Infixed(infixed, tail) && PrefixR(code) == prefixed
  {
    assert Infixed(infixed, tail)[0] == 'D';
  }

  lemma InfixInverse(t: string, tail: string) returns (infixed: bool)
    requires PlainTail(tail) && DropInfixR(t) == Infixed(false, tail)
    ensures t == Infixed(infixed, tail)
  {
    var d := DropInfixR(t);
    assert d[0] == 'D' && d[1] == '-' && d[2..] == tail;
    assert t[0] == 'D';
    var u := t[1..];
    assert DropInfixR(u) == d[1..];
    infixed := HyphenR(u);
    if infixed {
      assert u[2..] == d[1..][1..] == tail;
    } else {
      assert u[0] == '-';
      assert DropInfixR(u[1..]) == d[1..][1..] == tail;
      NoHyphenKept(u[1..]);
    }
    assert t == [t[0]] + [u[0]] + u[1..];
  }

  lemma ComponentByTail(code: string, c: Component)
    ensures ComponentOf(code) == Some(c) <==>
            Base(code) != [] && |Base(code)| >= 2 && Base(code)[2..] in TailsOf(c) && Base(code) == Infixed(false, Base(code)[2..])
  {
    var b := Base(code);
    if |b| >= 2 && b == Infixed(false, b[2..]) {
      assert b == "D-" + b[2..];
      assert "D-" + "LPOP" == "D-LPOP" && "D-" + "LPRP" == "D-LPRP";
      assert "D-" + "LIOP1A" == "D-LIOP1A" && "D-" + "LIRP1" == "D-LIRP1";
    } else {
      assert b !in PRINCIPAL_CODES + INTEREST_CODES;
    }
  }

  /** What an accepted code is made of. */
  lemma AcceptedParts(code: string, c: Component) returns (prefixed: bool, infixed: bool, tail: string)
    requires ComponentOf(code) == Some(c)
    ensures tail in TailsOf(c) && code == Decorated(prefixed, infixed, tail)
  {
    hide InfixR, DropInfixR, PlainTail, ComponentOf, TailsOf;
    ComponentByTail(code, c);
    tail := Base(code)[2..];
    TailsPlain(c, tail);
    prefixed := PrefixR(code);
    infixed := InfixInverse(DropPrefixR(code), tail);
    if prefixed {
      assert code == ['R'] + code[1..];
    } else {
      assert [] + code == code;
    }
  }

  lemma DecoratedAccepted(c: Component, prefixed: bool, infixed: bool, tail: string)
    requires tail in TailsOf(c)
    ensures ComponentOf(Decorated(prefixed, infixed, tail)) == Some(c)
  {
    hide InfixR, DropInfixR, PlainTail, ComponentOf, TailsOf, Decorated;
    var code := Decorated(prefixed, infixed, tail);
    TailsPlain(c, tail);
    PrefixDecorated(prefixed, infixed, tail);
    DropInfixed(infixed, tail);
    assert Infixed(false, tail)[2..] == tail;
    ComponentByTail(code, c);
  }

  /**
   The double-entry filter, exactly: a code is principal (or interest) if and only if it
   is one of the base codes of that component with an optional leading R and an optional
   R after the hyphen.
   */
  lemma AcceptedCodes(code: string, c: Component)
    ensures ComponentOf(code) == Some(c) <==>
            exists prefixed, infixed, tail :: tail in TailsOf(c) && code == Decorated(prefixed, infixed, tail)
  {
    hide ComponentOf, TailsOf, Decorated;
    if ComponentOf(code) == Some(c) {
      var prefixed, infixed, tail := AcceptedParts(code, c);
    }
    if prefixed, infixed, tail :| tail in TailsOf(c) && code == Decorated(prefixed, infixed, tail) {
      DecoratedAccepted(c, prefixed, infixed, tail);
    }
  }

  /** Among the accepted codes exactly the four undecorated ones are not reversals. */
  lemma AcceptedReversals(prefixed: bool, infixed: bool, tail: string)
    requires tail in TailsOf(Principal) + TailsOf(Interest)
    ensures IsReversal(Decorated(prefixed, infixed, tail)) <==> prefixed || infixed
  {
    TailsPlain(if tail in TailsOf(Principal) then Principal else Interest, tail);
    PrefixDecorated(prefixed, infixed, tail);
    DropInfixed(infixed, tail);
    var code := Decorated(prefixed, infixed, tail);
    if prefixed {
    } else {
      assert code == Infixed(infixed, tail);
    }
  }

  /** A code's side is its letter's, whatever reversal marks it carries. */
  lemma SideExact(prefixed: bool, letter: char, infixed: bool, tail: string)
    requires letter == 'C' || letter == 'D'
    ensures SideOf(Marked(prefixed, letter, infixed, tail)) == if letter == 'D' then Debit else Credit
  {
    var u := LetterInfixed(letter, infixed, tail);
    if prefixed {
      assert (['R'] + u)[1..] == u;
    } else {
      assert [] + u == u;
    }
  }

  /** Every accepted code is on the debit side, so its GL posting is too. */
  lemma AcceptedIsDebit(code: string)
    requires ComponentOf(code).Some?
    ensures SideOf(code) == Debit
  {
    var c := ComponentOf(code).value;
    AcceptedCodes(code, c);
    var prefixed, infixed, tail :| tail in TailsOf(c) && code == Decorated(prefixed, infixed, tail);
    PrefixDecorated(prefixed, infixed, tail);
  }
}
