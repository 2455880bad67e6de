/** The GL half of the capture: every leg of every entry, classified but not filtered. */
module GlPostings {
  import opened Wrappers
  import opened Text
  import opened Sequences
  import opened CallOver
  import opened EntryCodes
  import opened InsertOnly
  import opened Repayments
  import Kobo

  const GL_PAGE_SIZE: nat := 500
  const GL_MAX_PAGES: nat := 60

  /** The repayment key with the side folded in. */
  datatype GlKey = GlKey(entry: LedgerKey, side: Side)

  /** glLedgerKey */
  function GlKeyOf(m: Row): GlKey {
    GlKey(KeyOf(m), SideOf(CodeOf(m)))
  }

  /** The bucket a finance report groups a code under. */
  datatype Category = LoanBook | FixedDeposit | WithholdingTax | Journal | Interbank | Cash | OtherCategory

  /** glCategoryOf */
  function CategoryOf(code: string): Category {
    var unreversed := TrimPrefix(TrimPrefix(code, "RD-"), "RC-");
    var base := TrimPrefix(TrimPrefix(unreversed, "D-"), "C-");
    if HasPrefix(base, "LP") || HasPrefix(base, "LI") then LoanBook
    else if HasPrefix(base, "FD") then FixedDeposit
    else if base == "WHTP" then WithholdingTax
    else if base == "JRNL" then Journal
    else if base == "IBRH" then Interbank
    else if base == "CSHW" || base == "BCSH" then Cash
    else OtherCategory
  }

  /**
   The bucket of a code, on either side and whatever its leading mark, is told by its tail,
   unless it has an R after the hyphen: that mark is not stripped, so every such code, like
   D-RLPDP (a disbursement reversed), is "other".
   */
  lemma CategoryExact(prefixed: bool, letter: char, infixed: bool, tail: string)
    requires (letter == 'C' || letter == 'D') && PlainTail(tail)
    ensures var category := CategoryOf(Marked(prefixed, letter, infixed, tail));
            && (category == LoanBook <==> !infixed && ("LP" <= tail || "LI" <= tail))
            && (category == FixedDeposit <==> !infixed && "FD" <= tail)
            && (category == WithholdingTax <==> !infixed && tail == "WHTP")
            && (category == Journal <==> !infixed && tail == "JRNL")
            && (category == Interbank <==> !infixed && tail == "IBRH")
            && (category == Cash <==> !infixed && (tail == "CSHW" || tail == "BCSH"))
  {
    hide TrimPrefix, Marked;
    var base := (if infixed then ['R'] else []) + tail;
    StripMarks(prefixed, letter, infixed, tail, base);
    Unhyphened(base, "D-");
    Unhyphened(base, "C-");
    if infixed {
      assert base[0] == 'R';
    } else {
      assert base == tail;
    }
  }

  /** A prefix with a hyphen is no prefix of a text without one. */
  lemma Unhyphened(s: string, p: string)
    requires '-' !in s && p != "" && p[|p| - 1] == '-'
    ensures TrimPrefix(s, p) == s
  {
    assert '-' in p;
  }

  lemma NotPrefixed(s: string, p: string)
    requires s != [] && p != [] && (s[0] != p[0] || (|s| > 1 && |p| > 1 && s[1] != p[1]))
    ensures TrimPrefix(s, p) == s
  {
  }

  lemma Unprefixed(p: string, s: string)
    ensures TrimPrefix(p + s, p) == s
  {
  }

  lemma StripMarks(prefixed: bool, letter: char, infixed: bool, tail: string, base: string)
    requires letter == 'C' || letter == 'D'
    requires '-' !in base && base == (if infixed then ['R'] else []) + tail
    ensures var unreversed := TrimPrefix(TrimPrefix(Marked(prefixed, letter, infixed, tail), "RD-"), "RC-");
            TrimPrefix(TrimPrefix(unreversed, "D-"), "C-") == base
  {
    hide TrimPrefix;
    Unhyphened(base, "RC-");
    Unhyphened(base, "D-");
    Unhyphened(base, "C-");
    var plain := [letter, '-'] + base;
    assert LetterInfixed(letter, infixed, tail) == plain;
    if prefixed {
      var code := ['R'] + plain;
      if letter == 'D' {
        assert code == "RD-" + base;
        Unprefixed("RD-", base);
      } else {
        NotPrefixed(code, "RD-");
        assert code == "RC-" + base;
        Unprefixed("RC-", base);
      }
    } else {
      assert [] + plain == plain;
      NotPrefixed(plain, "RD-");
      NotPrefixed(plain, "RC-");
      if letter == 'D' {
        assert plain == "D-" + base;
        Unprefixed("D-", base);
      } else {
        NotPrefixed(plain, "D-");
        assert plain == "C-" + base;
        Unprefixed("C-", base);
      }
    }
  }

  datatype Posting = Posting(
    key: GlKey,
    finDate: string,
    postedAt: string,
    accountNum: string,
    accountName: string,
    branch: string,
    entryCode: string,
    side: Side,
    amountKobo: int,
    postingRef: string,
    instrument: string,
    narration: string,
    initiatedBy: string,
    approvedBy: string,
    category: Category,
    loanAccount: string,
    raw: Row)

  datatype GlResult = GlResult(read: Summary, inserted: nat, duplicate: nat)

  const NOTHING_POSTED := GlResult(NOTHING_READ, 0, 0)

  /** The magnitude as Go computes it: negating the least int64 gives it back. */
  function Magnitude(amt: int): int {
    if amt < 0 then Kobo.Wrap(-amt) else amt
  }

  /** One turn of the classifyGLRows loop. */
  function ClassifyPosting(m: Row): Option<Posting> {
    var code := CodeOf(m);
    var amt := Kobo.Parse(m.amount);
    if amt.Failure? || Magnitude(amt.value) == 0 then None
    else
      Some(Posting(GlKeyOf(m), m.financialDate, m.transactionDate, TrimSpace(m.accountNumber), m.accountName,
                   TrimSpace(m.branch), code, SideOf(code), Magnitude(amt.value), TrimSpace(m.postingReference),
                   TrimSpace(m.instrument), m.narration, m.initiatedBy, m.approvedBy,
                   CategoryOf(code), NarrationTail(m.narration), m))
  }

  /** A posting's stored columns spell its key too, and are those of its row. */
  lemma PostingSpellsKey(m: Row)
    requires ClassifyPosting(m).Some?
    ensures var p := ClassifyPosting(m).value;
            && p.key == GlKey(LedgerKey(p.postingRef, p.entryCode, p.accountNum, TrimSpace(p.finDate),
                                        TrimSpace(p.raw.amount), p.instrument), p.side)
            && p.postingRef == TrimSpace(m.postingReference) && p.accountNum == TrimSpace(m.accountNumber)
            && p.instrument == TrimSpace(m.instrument) && p.entryCode == CodeOf(m)
            && p.finDate == m.financialDate && p.postedAt == m.transactionDate
            && p.accountName == m.accountName && p.branch == TrimSpace(m.branch) && p.narration == m.narration
            && p.initiatedBy == m.initiatedBy && p.approvedBy == m.approvedBy && p.raw == m
  {
    hide CodeOf, SideOf, CategoryOf, TrimSpace, Kobo.Parse, NarrationTail, Magnitude;
  }

  /** The side is that of the code's letter, and the bucket that of the code. */
  lemma PostingReads(m: Row, prefixed: bool, letter: char, infixed: bool, tail: string)
    requires ClassifyPosting(m).Some?
    requires (letter == 'C' || letter == 'D') && CodeOf(m) == Marked(prefixed, letter, infixed, tail)
    ensures var p := ClassifyPosting(m).value;
            && p.side == (if letter == 'D' then Debit else Credit)
            && p.category == CategoryOf(Marked(prefixed, letter, infixed, tail))
  {
    hide CodeOf, SideOf, CategoryOf, TrimSpace, Kobo.Parse, NarrationTail, Magnitude, Marked;
    SideExact(prefixed, letter, infixed, tail);
  }

  /** The loan is the one the narration names, and blank when it names none. */
  lemma PostingNames(m: Row)
    requires ClassifyPosting(m).Some?
    ensures var p := ClassifyPosting(m).value;
            && (forall acct :: Names(m.narration, acct) ==> p.loanAccount == acct)
            && (p.loanAccount != "" ==> Names(m.narration, p.loanAccount))
  {
    hide CodeOf, SideOf, CategoryOf, TrimSpace, Kobo.Parse, NarrationTail, Magnitude, Names;
    var p := ClassifyPosting(m).value;
    forall acct | Names(m.narration, acct)
      ensures p.loanAccount == acct
    {
      TailExact(m.narration, acct);
    }
    TailExact(m.narration, p.loanAccount);
  }

  /** Every row whose amount reads as non-zero is a posting, and no other. */
  lemma PostingExact(m: Row)
    ensures ClassifyPosting(m).Some? <==> Kobo.Parse(m.amount).Success? && Kobo.Parse(m.amount).value != 0
  {
    hide CodeOf, SideOf, CategoryOf, TrimSpace, Kobo.Parse, NarrationTail, GlKeyOf, Kobo.Wrap;
    if Kobo.Parse(m.amount).Success? {
      Kobo.ParsedRange(m.amount);
      Kobo.WrapNegated(Kobo.Parse(m.amount).value);
    }
  }

  /** A posting's amount is the row's magnitude, unless that has no int64, and is never zero. */
  lemma PostingAmount(m: Row)
    requires ClassifyPosting(m).Some?
    ensures var p, parsed := ClassifyPosting(m).value, Kobo.Parse(m.amount);
            && parsed.Success? && p.amountKobo != 0
            && (p.amountKobo == Kobo.Abs(parsed.value) <==> parsed.value != Kobo.MIN_INT64)
  {
    hide CodeOf, SideOf, CategoryOf, TrimSpace, Kobo.Parse, NarrationTail, Kobo.Wrap, GlKeyOf;
    if Kobo.Parse(m.amount).Success? {
      Kobo.ParsedRange(m.amount);
      Kobo.WrapNegated(Kobo.Parse(m.amount).value);
    }
  }

  method ClassifyGLRows(rows: seq<Row>) returns (out: seq<Posting>)
    ensures out == Collect(rows, ClassifyPosting)
  {
    hide KeyOf, CodeOf, SideOf, CategoryOf, Kobo.Parse, Kobo.Wrap, TrimSpace, NarrationTail;
    out := [];
    for i := 0 to |rows|
      invariant out == Collect(rows[..i], ClassifyPosting)
    {
      CollectNext(rows, i, ClassifyPosting);
      var m := rows[i];
      var code := CodeOf(m);
      var parsed := Kobo.Parse(m.amount);
      if parsed.Failure? {
        continue;
      }
      var amt := parsed.value;
      if amt < 0 {
        amt := Kobo.Wrap(-amt);
      }
      if amt == 0 {
        continue;
      }
      out := out + [Posting(GlKeyOf(m), m.financialDate, m.transactionDate, TrimSpace(m.accountNumber), m.accountName,
                            TrimSpace(m.branch), code, SideOf(code), amt, TrimSpace(m.postingReference),
                            TrimSpace(m.instrument), m.narration, m.initiatedBy, m.approvedBy,
                            CategoryOf(code), NarrationTail(m.narration), m)];
    }
    assert rows[..|rows|] == rows;
  }

  function PostingKey(p: Posting): GlKey {
    p.key
  }

  /** The row is one the table takes: its date casts and its amount passes the CHECK. */
  predicate Takes(p: Posting, env: Env) {
    env.day(p.finDate).Some? && p.amountKobo >= 0
  }

  predicate TakesAll(postings: seq<Posting>, env: Env) {
    forall i :: 0 <= i < |postings| ==> Takes(postings[i], env)
  }

  /** What writeGLPostings leaves in the table; `fault` as for the legs. */
  function WrittenPostings(held: map<GlKey, Posting>, postings: seq<Posting>, env: Env, fault: Option<nat>)
    : Result<map<GlKey, Posting>, CaptureError>
  {
    if postings == [] then Success(held)
    else if fault.None? && TakesAll(postings, env) then Success(InsertAll(held, postings, PostingKey))
    else Failure(DatabaseFailed)
  }

  function CountedPostings(res: GlResult, held: map<GlKey, Posting>, postings: seq<Posting>): GlResult {
    var gained := |Fresh(held, postings, PostingKey)|;
    res.(inserted := res.inserted + gained,
         duplicate := res.duplicate + if gained <= |postings| then |postings| - gained else 0)
  }

  lemma CountedPostingsNone(res: GlResult, held: map<GlKey, Posting>)
    ensures CountedPostings(res, held, []) == res
  {
  }

  lemma CountedPostingsNext(res: GlResult, held: map<GlKey, Posting>, postings: seq<Posting>, i: nat)
    requires i < |postings|
    ensures var so, p := CountedPostings(res, held, postings[..i]), postings[i];
            CountedPostings(res, held, postings[..i + 1]) ==
            if p.key in InsertAll(held, postings[..i], PostingKey) then so.(duplicate := so.duplicate + 1)
            else so.(inserted := so.inserted + 1)
  {
    hide Fresh, InsertAll;
    InsertNext(held, postings, i, PostingKey);
    FreshCount(held, postings[..i], PostingKey);
    FreshCount(held, postings[..i + 1], PostingKey);
  }
}
