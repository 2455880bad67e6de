/**
 The repayment half of the capture: which ledger rows are repayment legs or journal
 receipts, which loan a leg belongs to, and what the guarded insert writes.
 */
module Repayments {
  import opened Wrappers
  import opened Text
  import opened Sequences
  import opened CallOver
  import opened EntryCodes
  import opened InsertOnly
  import Kobo
  import ShrinkGuard

  /** The six trimmed fields the idempotency key is hashed from. */
  datatype LedgerKey = LedgerKey(
    postingReference: string, code: string, account: string, date: string, amount: string, instrument: string)

  function CodeOf(m: Row): string {
    ToUpper(TrimSpace(m.entryCode))
  }

  /** ledgerKey */
  function KeyOf(m: Row): LedgerKey {
    LedgerKey(TrimSpace(m.postingReference), CodeOf(m), TrimSpace(m.accountNumber),
              TrimSpace(m.financialDate), TrimSpace(m.amount), TrimSpace(m.instrument))
  }

  datatype Leg = Leg(
    key: LedgerKey,
    loanAccount: string,
    casaAccount: string,
    entryCode: string,
    component: Component,
    amountKobo: int,
    finDate: string,
    postedAt: string,
    postingRef: string,
    instrument: string,
    narration: string,
    raw: Row)

  datatype Receipt = Receipt(
    key: LedgerKey,
    postingRef: string,
    casaAccount: string,
    accountName: string,
    entryCode: string,
    amountKobo: int,
    finDate: string,
    postedAt: string,
    instrument: string,
    narration: string,
    initiatedBy: string,
    approvedBy: string,
    raw: Row)

  /** What one capture run reports. Kobo counters are Go int64. */
  datatype RepaymentResult = RepaymentResult(
    read: Summary,
    legs: nat,
    inserted: nat,
    duplicate: nat,
    unmatched: nat,
    principalKobo: Kobo.Int64,
    interestKobo: Kobo.Int64,
    journalReceipts: nat)

  const NOTHING_CAPTURED := RepaymentResult(NOTHING_READ, 0, 0, 0, 0, 0, 0, 0)

  // ── classification ─────────────────────────────────────────────────────────

  predicate IsLegRow(m: Row) {
    ComponentOf(CodeOf(m)).Some?
  }

  /** One turn of the classifyLegs loop. */
  function ClassifyLeg(m: Row): Option<Leg> {
    var code := CodeOf(m);
    var component := ComponentOf(code);
    var amt := Kobo.Parse(m.amount);
    if component.None? || amt.Failure? || amt.value == 0 then None
    else
      Some(Leg(KeyOf(m), "", TrimSpace(m.accountNumber), code, component.value,
               if IsReversal(code) then Kobo.Wrap(-amt.value) else amt.value,
               m.financialDate, m.transactionDate, TrimSpace(m.postingReference),
               TrimSpace(m.instrument), m.narration, m))
  }

  method ClassifyLegs(rows: seq<Row>, res: RepaymentResult) returns (out: seq<Leg>, res': RepaymentResult)
    ensures out == Collect(rows, ClassifyLeg)
    ensures res' == res.(legs := res.legs + Count(rows, IsLegRow))
  {
    hide KeyOf, CodeOf, ComponentOf, IsReversal, Kobo.Parse, Kobo.Wrap, TrimSpace;
    out, res' := [], res;
    for i := 0 to |rows|
      invariant out == Collect(rows[..i], ClassifyLeg)
      invariant res' == res.(legs := res.legs + Count(rows[..i], IsLegRow))
    {
      CollectNext(rows, i, ClassifyLeg);
      CountNext(rows, i, IsLegRow);
      var m := rows[i];
      var code := CodeOf(m);
      var component := ComponentOf(code);
      if component.None? {
        continue;
      }
      res' := res'.(legs := res'.legs + 1);
      var parsed := Kobo.Parse(m.amount);
      if parsed.Failure? {
        continue;
      }
      var amt := parsed.value;
      if amt == 0 {
        continue;
      }
      if IsReversal(code) {
        amt := Kobo.Wrap(-amt);
      }
      out := out + [Leg(KeyOf(m), "", TrimSpace(m.accountNumber), code, component.value, amt,
                        m.financialDate, m.transactionDate, TrimSpace(m.postingReference),
                        TrimSpace(m.instrument), m.narration, m)];
    }
    assert rows[..|rows|] == rows;
  }

  const DATE_LENGTH: nat := 10

  /** The money on a credit row: the credit column, or the amount when that is unusable. */
  function ReceiptAmount(m: Row): Result<int, Kobo.AmountError> {
    var credit := Kobo.Parse(m.credit);
    if credit.Failure? || credit.value == 0 then Kobo.Parse(m.amount) else credit
  }

  predicate SaysRepayment(narration: string) {
    var n := ToLower(narration);
    Contains(n, "repayment") && !Contains(n, "card repayment")
  }

  /** One turn of the classifyJournalReceipts loop. */
  function ClassifyReceipt(m: Row): Option<Receipt> {
    var amt := ReceiptAmount(m);
    if !HasPrefix(CodeOf(m), "C-JRNL") || !SaysRepayment(m.narration) then None
    else if amt.Failure? || amt.value == 0 || |m.financialDate| < DATE_LENGTH then None
    else
      Some(Receipt(KeyOf(m), TrimSpace(m.postingReference), TrimSpace(m.accountNumber),
                   TrimSpace(m.accountName), CodeOf(m), amt.value, m.financialDate[..DATE_LENGTH],
                   m.transactionDate, TrimSpace(m.instrument), m.narration,
                   TrimSpace(m.initiatedBy), TrimSpace(m.approvedBy), m))
  }

  method ClassifyJournalReceipts(rows: seq<Row>) returns (out: seq<Receipt>)
    ensures out == Collect(rows, ClassifyReceipt)
  {
    hide KeyOf, CodeOf, Kobo.Parse, TrimSpace, SaysRepayment, HasPrefix;
    out := [];
    for i := 0 to |rows|
      invariant out == Collect(rows[..i], ClassifyReceipt)
    {
      CollectNext(rows, i, ClassifyReceipt);
      var m := rows[i];
      var code := CodeOf(m);
      if !HasPrefix(code, "C-JRNL") || !SaysRepayment(m.narration) {
        continue;
      }
      var amt := Kobo.Parse(m.credit);
      if amt.Failure? || amt.value == 0 {
        amt := Kobo.Parse(m.amount);
      }
      if amt.Failure? || amt.value == 0 || |m.financialDate| < DATE_LENGTH {
        continue;
      }
      out := out + [Receipt(KeyOf(m), TrimSpace(m.postingReference), TrimSpace(m.accountNumber),
                            TrimSpace(m.accountName), code, amt.value, m.financialDate[..DATE_LENGTH],
                            m.transactionDate, TrimSpace(m.instrument), m.narration,
                            TrimSpace(m.initiatedBy), TrimSpace(m.approvedBy), m)];
    }
    assert rows[..|rows|] == rows;
  }

  /** A code is read whatever padding stands round it and in whatever case it is typed. */
  lemma CodeAnyCase(m: Row, a: string, s: string, b: string, code: string)
    requires AllSpace(a) && AllSpace(b) && m.entryCode == a + s + b
    requires PlainCode(code) && |s| == |code|
    requires forall i :: 0 <= i < |s| ==> s[i] == code[i] || ('A' <= code[i] <= 'Z' && s[i] == LowerChar(code[i]))
    ensures CodeOf(m) == code
  {
    hide TrimSpace;
    TrimPad(a, s, b);
    TrimTrimmed(s);
    forall i | 0 <= i < |s|
      ensures UpperChar(s[i]) == code[i]
    {
    }
  }

  /** Capital letters, digits and hyphens. */
  predicate PlainCode(code: string) {
    forall i :: 0 <= i < |code| ==> 'A' <= code[i] <= 'Z' || '0' <= code[i] <= '9' || code[i] == '-'
  }

  /** A row is a leg exactly when its code is a base code with or without its marks, and its amount reads as non-zero. */
  lemma LegExact(m: Row)
    ensures IsLegRow(m) <==>
            exists c, prefixed, infixed, tail :: tail in TailsOf(c) && CodeOf(m) == Decorated(prefixed, infixed, tail)
    ensures ClassifyLeg(m).Some? <==>
            IsLegRow(m) && Kobo.Parse(m.amount).Success? && Kobo.Parse(m.amount).value != 0
  {
    hide CodeOf, ComponentOf, IsReversal, TrimSpace, Kobo.Parse, Kobo.Wrap, Decorated, TailsOf;
    var code := CodeOf(m);
    if IsLegRow(m) {
      var c := ComponentOf(code).value;
      AcceptedCodes(code, c);
      var prefixed, infixed, tail :| tail in TailsOf(c) && code == Decorated(prefixed, infixed, tail);
    }
    forall c, prefixed, infixed, tail | tail in TailsOf(c) && code == Decorated(prefixed, infixed, tail)
      ensures ComponentOf(code) == Some(c)
    {
      AcceptedCodes(code, c);
    }
  }

  /**
   The stored columns spell the key: a leg's key is its own reference, code, account and
   instrument with the trimmed date and amount, so no two of them can be confused.
   */
  lemma LegSpellsKey(m: Row)
    requires ClassifyLeg(m).Some?
    ensures var leg := ClassifyLeg(m).value;
            && leg.key == LedgerKey(leg.postingRef, leg.entryCode, leg.casaAccount, TrimSpace(leg.finDate),
                                    TrimSpace(leg.raw.amount), leg.instrument)
            && leg.postingRef == TrimSpace(m.postingReference) && leg.casaAccount == TrimSpace(m.accountNumber)
            && leg.finDate == m.financialDate && leg.postedAt == m.transactionDate
            && leg.narration == m.narration && leg.raw == m && leg.loanAccount == ""
  {
    hide CodeOf, ComponentOf, IsReversal, TrimSpace, Kobo.Parse, Kobo.Wrap;
  }

  /** A leg's amount is the row's, negated exactly for a reversal, and is never zero. */
  lemma LegAmount(m: Row)
    requires ClassifyLeg(m).Some?
    ensures var leg, parsed := ClassifyLeg(m).value, Kobo.Parse(m.amount);
            && parsed.Success? && leg.amountKobo != 0
            && ComponentOf(leg.entryCode) == Some(leg.component)
            && leg.amountKobo == if IsReversal(leg.entryCode) then Kobo.Wrap(-parsed.value) else parsed.value
  {
    hide CodeOf, ComponentOf, IsReversal, TrimSpace, Kobo.Parse, Kobo.Wrap, KeyOf;
    if Kobo.Parse(m.amount).Success? {
      Kobo.ParsedRange(m.amount);
      Kobo.WrapNegated(Kobo.Parse(m.amount).value);
    }
  }

  /** The money on a credit row is its credit column, unless that is unreadable or zero. */
  ghost predicate PaysIn(m: Row, kobo: int) {
    && kobo != 0
    && (Kobo.Parse(m.credit) == Success(kobo)
        || ((Kobo.Parse(m.credit).Failure? || Kobo.Parse(m.credit) == Success(0)) && Kobo.Parse(m.amount) == Success(kobo)))
  }

  /**
   A row is a receipt exactly when it is a journal credit whose narration mentions a
   repayment and no card repayment, it pays something in, and its date has ten characters;
   and then for what it pays in.
   */
  lemma ReceiptExact(m: Row)
    ensures ClassifyReceipt(m).Some? <==>
            && "C-JRNL" <= CodeOf(m) && |m.financialDate| >= 10
            && Mentions(m.narration, "repayment") && !Mentions(m.narration, "card repayment")
            && exists kobo :: PaysIn(m, kobo)
    ensures ClassifyReceipt(m).Some? ==> PaysIn(m, ClassifyReceipt(m).value.amountKobo)
  {
    hide CodeOf, KeyOf, TrimSpace, Kobo.Parse, Mentions, ToLower, Contains;
    MentionExact(m.narration, "repayment");
    MentionExact(m.narration, "card repayment");
    var amt := ReceiptAmount(m);
    if amt.Success? && amt.value != 0 {
      assert PaysIn(m, amt.value);
    }
  }

  lemma ReceiptSpellsKey(m: Row)
    requires ClassifyReceipt(m).Some?
    ensures var r := ClassifyReceipt(m).value;
            && r.key == LedgerKey(r.postingRef, r.entryCode, r.casaAccount, TrimSpace(r.raw.financialDate),
                                  TrimSpace(r.raw.amount), r.instrument)
            && r.postingRef == TrimSpace(m.postingReference) && r.casaAccount == TrimSpace(m.accountNumber)
            && r.finDate == m.financialDate[..10] && r.postedAt == m.transactionDate
            && r.accountName == TrimSpace(m.accountName) && r.narration == m.narration
            && r.initiatedBy == TrimSpace(m.initiatedBy) && r.approvedBy == TrimSpace(m.approvedBy) && r.raw == m
  {
    hide CodeOf, TrimSpace, Kobo.Parse, SaysRepayment, HasPrefix;
  }

  /** No ledger row is both a receipt and a leg: money arriving is never also its application. */
  lemma ReceiptIsNoLeg(m: Row)
    requires ClassifyReceipt(m).Some?
    ensures ClassifyLeg(m).None?
  {
    hide CodeOf, KeyOf, TrimSpace, Kobo.Parse, SaysRepayment, ComponentOf;
    if ComponentOf(CodeOf(m)).Some? {
      AcceptedFirstLetter(CodeOf(m));
    }
  }

  lemma AcceptedFirstLetter(code: string)
    requires ComponentOf(code).Some?
    ensures code != "" && (code[0] == 'D' || code[0] == 'R')
  {
    AcceptedIsDebit(code);
    hide ComponentOf;
  }

  // ── attribution ────────────────────────────────────────────────────────────

  predicate LooksLikeAccount(s: string) {
    10 <= |s| <= 25 && Kobo.AllDigits(s)
  }

  /** narrationTail: what follows the last " - ", when it looks like an account number. */
  function NarrationTail(s: string): string {
    var i := LastIndexOf(s, " - ");
    if i < 0 then ""
    else
      assert |" - "| == 3;
      var tail := TrimSpace(s[i + 3..]);
      if LooksLikeAccount(tail) then tail else ""
  }

  /** The narration's last segment, after " - " and but for padding, is 10 to 25 digits: `acct`. */
  ghost predicate Names(narration: string, acct: string) {
    && 10 <= |acct| <= 25 && (forall i :: 0 <= i < |acct| ==> '0' <= acct[i] <= '9')
    && exists p: string, x: string, y: string :: Ends(narration, p, x, acct, y)
  }

  ghost predicate Ends(narration: string, p: string, x: string, acct: string, y: string) {
    AllSpace(x) && AllSpace(y) && narration == p + " - " + x + acct + y
  }

  /** Nothing after the separator can hold another. */
  lemma LastSeparator(s: string, p: string, rest: string)
    requires s == p + " - " + rest && '-' !in rest
    ensures LastIndexOf(s, " - ") == |p|
  {
    assert s[|p|..] == " - " + rest;
    assert forall k :: |p| + 1 < k < |s| ==> s[k] != '-';
    assert forall k :: |p| < k <= |s| && |s[k..]| >= 3 ==> s[k..][1] == s[k + 1];
  }

  lemma NoHyphens(x: string, acct: string, y: string)
    requires AllSpace(x) && AllSpace(y) && Kobo.AllDigits(acct)
    ensures '-' !in x + acct + y
  {
    assert !IsSpace('-');
  }

  lemma DigitsTrimmed(acct: string)
    requires Kobo.AllDigits(acct)
    ensures Trimmed(acct)
  {
  }

  lemma NamedTail(s: string, p: string, x: string, acct: string, y: string)
    requires LooksLikeAccount(acct) && Ends(s, p, x, acct, y)
    ensures NarrationTail(s) == acct
  {
    hide TrimSpace, Trimmed, IsSpace, LastIndexOf;
    var rest := x + acct + y;
    NoHyphens(x, acct, y);
    assert s == p + " - " + rest;
    LastSeparator(s, p, rest);
    assert s[|p| + 3..] == rest;
    TrimPad(x, acct, y);
    DigitsTrimmed(acct);
    TrimTrimmed(acct);
  }

  lemma CutAt3(s: string, i: nat, sub: string)
    requires i <= |s| && |sub| == 3 && sub <= s[i..]
    ensures i + 3 <= |s| && s == s[..i] + sub + s[i + 3..]
  {
    assert s == s[..i] + s[i..];
    assert s[i..][..3] == sub && s[i..][3..] == s[i + 3..];
  }

  lemma LastCut(s: string)
    requires LastIndexOf(s, " - ") >= 0
    ensures var i := LastIndexOf(s, " - ");
            i + 3 <= |s| && s == s[..i] + " - " + s[i + 3..]
  {
    hide LastIndexOf;
    CutAt3(s, LastIndexOf(s, " - "), " - ");
  }

  lemma TailNames(s: string)
    requires NarrationTail(s) != ""
    ensures Names(s, NarrationTail(s))
  {
    hide TrimSpace, IsSpace, AllSpace, LastIndexOf;
    LastCut(s);
    var i := LastIndexOf(s, " - ");
    var x, y := TrimParts(s[i + 3..]);
    assert s == s[..i] + " - " + x + NarrationTail(s) + y;
    assert Ends(s, s[..i], x, NarrationTail(s), y);
  }

  /** What is read from a narration is exactly the account it names, if it names one. */
  lemma TailExact(s: string, acct: string)
    ensures Names(s, acct) <==> acct != "" && NarrationTail(s) == acct
  {
    hide NarrationTail, Ends;
    if Names(s, acct) {
      var p, x, y :| Ends(s, p, x, acct, y);
      NamedTail(s, p, x, acct, y);
    }
    if NarrationTail(s) != "" {
      TailNames(s);
    }
  }

  datatype LoanIndex = LoanIndex(byAccount: set<string>, byCASA: map<string, seq<string>>)

  /** btrim: spaces only. */
  function TrimSpaces(s: string): string
    decreases |s|
  {
    if s != [] && s[0] == ' ' then TrimSpaces(s[1..])
    else if s != [] && s[|s| - 1] == ' ' then TrimSpaces(s[..|s| - 1])
    else s
  }

  predicate OnlySpaces(s: string) {
    forall i :: 0 <= i < |s| ==> s[i] == ' '
  }

  /** Spaces round a text without spaces at its ends, and nothing else, are dropped. */
  lemma {:induction false} BtrimExact(a: string, s: string, b: string)
    requires OnlySpaces(a) && OnlySpaces(b) && (s != "" ==> s[0] != ' ' && s[|s| - 1] != ' ')
    ensures TrimSpaces(a + s + b) == s
    decreases |a| + |b|
  {
    var t := a + s + b;
    if a != "" {
      assert t[1..] == a[1..] + s + b;
      BtrimExact(a[1..], s, b);
    } else if b != "" {
      assert t[..|t| - 1] == a + s + b[..|b| - 1];
      BtrimExact(a, s, b[..|b| - 1]);
      if t[0] == ' ' {
        assert s == "" && t == b;
        assert t[1..] == a + s + b[1..];
        BtrimExact(a, s, b[1..]);
      }
    } else {
      assert t == s;
    }
  }

  /** One cbs_loans row as the index query returns it: account number and linked account. */
  datatype LoanRow = LoanRow(account: string, linked: string)

  function Account(r: LoanRow): Option<string> {
    var acct := TrimSpaces(r.account);
    if acct == "" then None else Some(acct)
  }

  /** A row's account is its number without the spaces round it, if that leaves anything. */
  lemma AccountRead(r: LoanRow, a: string, s: string, b: string)
    requires OnlySpaces(a) && OnlySpaces(b) && (s != "" ==> s[0] != ' ' && s[|s| - 1] != ' ')
    requires r.account == a + s + b
    ensures Account(r) == if s == "" then None else Some(s)
  {
    BtrimExact(a, s, b);
  }

  /** The loans, row by row, that a CASA account serves. */
  function ServedBy(book: seq<LoanRow>, casa: string): seq<string> {
    Collect(book, (r: LoanRow) => if TrimSpaces(r.linked) == casa then Account(r) else None)
  }

  ghost predicate Indexes(idx: LoanIndex, book: seq<LoanRow>) {
    && idx.byAccount == (set r | r in book && Account(r).Some? :: Account(r).value)
    && (forall casa :: casa in idx.byCASA <==> (casa != "" && ServedBy(book, casa) != []))
    && (forall casa :: casa in idx.byCASA ==> idx.byCASA[casa] == ServedBy(book, casa))
  }

  datatype CaptureError = EmptyLoanBook | NoLinkedAccounts | SchemaMissing | WalkFailed(cause: WalkError) | GuardRefused | DatabaseFailed

  /** loadLoanAccounts */
  method LoadLoanAccounts(book: seq<LoanRow>) returns (r: Result<LoanIndex, CaptureError>)
    ensures r.Success? <==> exists row :: row in book && Account(row).Some?
    ensures r.Success? ==> Indexes(r.value, book)
    ensures r.Failure? ==> r.error == EmptyLoanBook
  {
    hide Indexes, TrimSpaces;
    var idx := LoanIndex({}, map[]);
    IndexNone();
    for i := 0 to |book|
      invariant Indexes(idx, book[..i])
    {
      IndexNext(idx, book, i);
      var acct, casa := TrimSpaces(book[i].account), TrimSpaces(book[i].linked);
      if acct != "" {
        idx := idx.(byAccount := idx.byAccount + {acct});
        if casa != "" {
          var served := if casa in idx.byCASA then idx.byCASA[casa] else [];
          idx := idx.(byCASA := idx.byCASA[casa := served + [acct]]);
        }
      }
    }
    assert book[..|book|] == book;
    IndexFound(idx, book);
    if idx.byAccount == {} {
      return Failure(EmptyLoanBook);
    }
    return Success(idx);
  }

  function IndexRow(idx: LoanIndex, r: LoanRow): LoanIndex {
    var casa := TrimSpaces(r.linked);
    match Account(r)
    case None => idx
    case Some(acct) =>
      LoanIndex(idx.byAccount + {acct},
                if casa == "" then idx.byCASA
                else idx.byCASA[casa := (if casa in idx.byCASA then idx.byCASA[casa] else []) + [acct]])
  }

  lemma IndexNone()
    ensures Indexes(LoanIndex({}, map[]), [])
  {
  }

  lemma IndexFound(idx: LoanIndex, book: seq<LoanRow>)
    requires Indexes(idx, book)
    ensures idx.byAccount != {} <==> exists row :: row in book && Account(row).Some?
  {
    hide TrimSpaces;
    if row :| row in book && Account(row).Some? {
      assert Account(row).value in idx.byAccount;
    }
  }

  lemma IndexNext(idx: LoanIndex, book: seq<LoanRow>, i: nat)
    requires i < |book| && Indexes(idx, book[..i])
    ensures Indexes(IndexRow(idx, book[i]), book[..i + 1])
  {
    hide TrimSpaces, Collect;
    var next := IndexRow(idx, book[i]);
    assert book[..i + 1] == book[..i] + [book[i]];
    forall casa: string
      ensures ServedBy(book[..i + 1], casa) == ServedBy(book[..i], casa) +
              if TrimSpaces(book[i].linked) == casa then Optional(Account(book[i])) else []
    {
      CollectNext(book, i, (r: LoanRow) => if TrimSpaces(r.linked) == casa then Account(r) else None);
    }
    forall acct
      ensures acct in next.byAccount <==>
              acct in (set r | r in book[..i + 1] && Account(r).Some? :: Account(r).value)
    {
    }
  }

  /** One turn of the resolveLegs switch: the account, and whether it counts as unmatched. */
  function Resolve(leg: Leg, loans: LoanIndex): (string, bool) {
    var tail := NarrationTail(leg.narration);
    if tail != "" then (tail, tail !in loans.byAccount)
    else if leg.casaAccount in loans.byCASA && |loans.byCASA[leg.casaAccount]| == 1 then
      (loans.byCASA[leg.casaAccount][0], false)
    else (leg.loanAccount, true)
  }

  function Resolved(legs: seq<Leg>, loans: LoanIndex): (out: seq<Leg>)
    ensures |out| == |legs|
    ensures forall i :: 0 <= i < |legs| ==> out[i] == legs[i].(loanAccount := Resolve(legs[i], loans).0)
  {
    seq(|legs|, i requires 0 <= i < |legs| => legs[i].(loanAccount := Resolve(legs[i], loans).0))
  }

  function CountsUnmatched(loans: LoanIndex): Leg -> bool {
    (leg: Leg) => Resolve(leg, loans).1
  }

  ghost function NotInBook(book: seq<LoanRow>): Leg -> bool {
    (leg: Leg) => !exists r :: r in book && Account(r) == Some(leg.loanAccount)
  }

  function Unmatched(legs: seq<Leg>, loans: LoanIndex): nat {
    Count(legs, CountsUnmatched(loans))
  }

  lemma NoneCounted(p: Leg -> bool)
    ensures Count([], p) == 0
  {
  }

  method ResolveLegs(legs: seq<Leg>, loans: LoanIndex, res: RepaymentResult)
    returns (out: seq<Leg>, res': RepaymentResult)
    ensures out == Resolved(legs, loans)
    ensures res' == res.(unmatched := res.unmatched + Unmatched(legs, loans))
  {
    hide NarrationTail, Count;
    out, res' := [], res;
    assert Unmatched(legs[..0], loans) == 0 by {
      NoneCounted(CountsUnmatched(loans));
    }
    for i := 0 to |legs|
      invariant |out| == i
      invariant forall j :: 0 <= j < i ==> out[j] == legs[j].(loanAccount := Resolve(legs[j], loans).0)
      invariant res' == res.(unmatched := res.unmatched + Unmatched(legs[..i], loans))
    {
      CountNext(legs, i, CountsUnmatched(loans));
      var leg := legs[i];
      var tail := NarrationTail(leg.narration);
      if tail != "" && tail in loans.byAccount {
        leg := leg.(loanAccount := tail);
      } else if tail != "" {
        leg := leg.(loanAccount := tail);
        res' := res'.(unmatched := res'.unmatched + 1);
      } else {
        var cands := if leg.casaAccount in loans.byCASA then loans.byCASA[leg.casaAccount] else [];
        if |cands| == 1 {
          leg := leg.(loanAccount := cands[0]);
        } else {
          res' := res'.(unmatched := res'.unmatched + 1);
        }
      }
      out := out + [leg];
    }
    assert legs[..|legs|] == legs;
  }

  /** The loans an account serves are those of the rows linked to it. */
  lemma ServedInBook(book: seq<LoanRow>, casa: string, acct: string)
    ensures acct in ServedBy(book, casa) <==>
            exists r :: r in book && Account(r) == Some(acct) && TrimSpaces(r.linked) == casa
  {
    CollectMembers(book, (r: LoanRow) => if TrimSpaces(r.linked) == casa then Account(r) else None);
  }

  /**
   Attribution is never guessed. A leg whose narration names a loan is given that loan,
   and flagged exactly when it is not in the book. One whose narration names none takes its
   linked account's loan exactly when that account serves one loan row, which is then in the
   book, and is flagged and given none otherwise.
   */
  lemma AttributionExact(leg: Leg, loans: LoanIndex, book: seq<LoanRow>)
    requires Indexes(loans, book) && leg.loanAccount == ""
    ensures var (loan, unmatched) := Resolve(leg, loans);
            && (unmatched <==> !exists r :: r in book && Account(r) == Some(loan))
            && (forall acct :: Names(leg.narration, acct) ==> loan == acct)
            && ((forall acct :: !Names(leg.narration, acct)) ==>
                  && (loan != "" <==> leg.casaAccount != "" && |ServedBy(book, leg.casaAccount)| == 1)
                  && (loan != "" ==> ServedBy(book, leg.casaAccount) == [loan] && !unmatched))
  {
    hide NarrationTail, TrimSpaces, Names, ServedBy;
    var tail := NarrationTail(leg.narration);
    forall acct | Names(leg.narration, acct)
      ensures acct == tail
    {
      TailExact(leg.narration, acct);
    }
    if tail == "" {
      forall acct
        ensures !Names(leg.narration, acct)
      {
        TailExact(leg.narration, acct);
      }
      LinkedLoan(leg, loans, book);
    } else {
      TailExact(leg.narration, tail);
    }
    InBook(loans, book, Resolve(leg, loans).0);
  }

  lemma InBook(loans: LoanIndex, book: seq<LoanRow>, acct: string)
    requires Indexes(loans, book)
    ensures acct in loans.byAccount <==> exists r :: r in book && Account(r) == Some(acct)
  {
    hide TrimSpaces;
  }

  lemma LinkedLoan(leg: Leg, loans: LoanIndex, book: seq<LoanRow>)
    requires Indexes(loans, book) && leg.loanAccount == "" && NarrationTail(leg.narration) == ""
    ensures var (loan, unmatched) := Resolve(leg, loans);
            && unmatched == (loan !in loans.byAccount)
            && (loan != "" <==> leg.casaAccount != "" && |ServedBy(book, leg.casaAccount)| == 1)
            && (loan != "" ==> ServedBy(book, leg.casaAccount) == [loan] && loan in loans.byAccount)
  {
    hide NarrationTail, TrimSpaces;
    var served := ServedBy(book, leg.casaAccount);
    if leg.casaAccount in loans.byCASA && |served| == 1 {
      assert served[0] in served;
      ServedInBook(book, leg.casaAccount, served[0]);
      assert served == [served[0]];
    }
  }

  /** The unmatched counter counts exactly the output legs whose loan is not in the book. */
  lemma UnmatchedExact(legs: seq<Leg>, loans: LoanIndex, book: seq<LoanRow>)
    requires Indexes(loans, book)
    requires forall leg :: leg in legs ==> leg.loanAccount == ""
    ensures Unmatched(legs, loans) == Count(Resolved(legs, loans), NotInBook(book))
  {
    hide Resolve, Indexes, Count;
    var out := Resolved(legs, loans);
    forall i | 0 <= i < |legs|
      ensures CountsUnmatched(loans)(legs[i]) == NotInBook(book)(out[i])
    {
      AttributionExact(legs[i], loans, book);
    }
    CountSame(legs, CountsUnmatched(loans), out, NotInBook(book));
  }

  // ── the guarded insert ─────────────────────────────────────────────────────

  /** What the database contributes: its date cast, and the guard's settings. */
  datatype Env = Env(day: string -> Option<int>, shrink: ShrinkGuard.Settings)

  function LegKey(leg: Leg): LedgerKey {
    leg.key
  }

  predicate DatedFrom(finDate: string, from: int, env: Env) {
    env.day(finDate).Some? && env.day(finDate).value >= from
  }

  /** The stored legs dated on or after a day. */
  function HeldFrom(held: map<LedgerKey, Leg>, from: int, env: Env): set<LedgerKey> {
    set k | k in held && DatedFrom(held[k].finDate, from, env)
  }

  /** guardLegCount; None is a pass. */
  function GuardLegCount(held: map<LedgerKey, Leg>, incoming: nat, cutoff: string, env: Env): Option<CaptureError> {
    if cutoff == "" then None
    else if env.day(cutoff).None? then Some(DatabaseFailed)
    else
      var before := |HeldFrom(held, env.day(cutoff).value, env)|;
      if before == 0 || incoming >= before then None
      else if env.shrink.allowShrink then None
      else if before - incoming > ShrinkGuard.Allowance(before, env.shrink) then Some(GuardRefused)
      else None
  }

  /** How many of the stored legs are dated on or after a day, as the database counts them. */
  ghost function HeldSince(held: map<LedgerKey, Leg>, from: int, day: string -> Option<int>): nat {
    |set k | k in held && day(held[k].finDate).Some? && day(held[k].finDate).value >= from|
  }

  /** The window offers too few legs for those held: below them by more than the thresholds allow, and no override. */
  ghost predicate TooFew(held: map<LedgerKey, Leg>, incoming: nat, cutoff: string, env: Env) {
    && cutoff != "" && env.day(cutoff).Some? && !env.shrink.allowShrink
    && ShrinkGuard.TooFar(HeldSince(held, env.day(cutoff).value, env.day), incoming, env.shrink)
  }

  /** The guard refuses exactly those windows; it fails on a cutoff that is no date, and passes all else. */
  lemma GuardExact(held: map<LedgerKey, Leg>, incoming: nat, cutoff: string, env: Env)
    ensures GuardLegCount(held, incoming, cutoff, env) ==
            if TooFew(held, incoming, cutoff, env) then Some(GuardRefused)
            else if cutoff != "" && env.day(cutoff).None? then Some(DatabaseFailed)
            else None
  {
    hide ShrinkGuard.Allowance, ShrinkGuard.TooFar;
    if cutoff != "" && env.day(cutoff).Some? {
      var from := env.day(cutoff).value;
      assert HeldFrom(held, from, env) ==
             set k | k in held && env.day(held[k].finDate).Some? && env.day(held[k].finDate).value >= from;
      var before := HeldSince(held, from, env.day);
      if incoming < before {
        ShrinkGuard.AllowanceExact(before, incoming, env.shrink);
      } else {
        ShrinkGuard.GrowthIsNear(before, incoming, env.shrink);
      }
    }
  }

  /** Every statement of the transaction succeeds: no fault is injected, every date casts. */
  predicate Castable(legs: seq<Leg>, env: Env) {
    forall i :: 0 <= i < |legs| ==> env.day(legs[i].finDate).Some?
  }

  /**
   What writeLegs leaves in the table. `fault` is the statement, if any, that the database
   fails: an insert by its index, or the begin or commit for any other number.
   */
  function WrittenLegs(held: map<LedgerKey, Leg>, legs: seq<Leg>, cutoff: string, env: Env, fault: Option<nat>)
    : Result<map<LedgerKey, Leg>, CaptureError>
  {
    match GuardLegCount(held, |legs|, cutoff, env)
    case Some(e) => Failure(e)
    case None =>
      if legs == [] then Success(held)
      else if fault.None? && Castable(legs, env) then Success(InsertAll(held, legs, LegKey))
      else Failure(DatabaseFailed)
  }

  function AmountOf(leg: Leg): int {
    leg.amountKobo
  }

  function PrincipalOf(leg: Leg): int {
    if leg.component == Principal then leg.amountKobo else 0
  }

  function InterestOf(leg: Leg): int {
    if leg.component == Interest then leg.amountKobo else 0
  }

  /** The counters after writing: exactly the fresh rows, by count and by amount. */
  function Counted(res: RepaymentResult, held: map<LedgerKey, Leg>, legs: seq<Leg>): RepaymentResult {
    var gained := Fresh(held, legs, LegKey);
    res.(inserted := res.inserted + |gained|,
         duplicate := res.duplicate + if |gained| <= |legs| then |legs| - |gained| else 0,
         principalKobo := Kobo.Wrap(res.principalKobo + SumSeq(gained, PrincipalOf)),
         interestKobo := Kobo.Wrap(res.interestKobo + SumSeq(gained, InterestOf)))
  }

  lemma SumAppend(rows: seq<Leg>, leg: Leg, weight: Leg -> int)
    ensures SumSeq(rows + [leg], weight) == SumSeq(rows, weight) + weight(leg)
  {
    SumConcat(rows, [leg], weight);
    SumOne(leg, weight);
  }

  function TallyOf(res: RepaymentResult, leg: Leg): RepaymentResult {
    res.(inserted := res.inserted + 1,
         principalKobo := Kobo.Wrap(res.principalKobo + PrincipalOf(leg)),
         interestKobo := Kobo.Wrap(res.interestKobo + InterestOf(leg)))
  }

  lemma CountedNone(res: RepaymentResult, held: map<LedgerKey, Leg>)
    ensures Counted(res, held, []) == res
  {
  }

  lemma CastableNone(env: Env)
    ensures Castable([], env)
  {
  }

  lemma CastableNext(legs: seq<Leg>, i: nat, env: Env)
    requires i < |legs|
    ensures Castable(legs[..i + 1], env) <==> Castable(legs[..i], env) && env.day(legs[i].finDate).Some?
    ensures Castable(legs, env) ==> Castable(legs[..i + 1], env)
  {
    assert legs[..i + 1] == legs[..i] + [legs[i]];
    assert Castable(legs, env) ==> forall j :: 0 <= j <= i ==> env.day(legs[j].finDate).Some?;
  }

  /** The counters' step for one more leg. */
  lemma CountedNext(res: RepaymentResult, held: map<LedgerKey, Leg>, legs: seq<Leg>, i: nat)
    requires i < |legs|
    ensures var so, leg := Counted(res, held, legs[..i]), legs[i];
            Counted(res, held, legs[..i + 1]) ==
            if leg.key in InsertAll(held, legs[..i], LegKey) then so.(duplicate := so.duplicate + 1)
            else TallyOf(so, leg)
  {
    hide Kobo.Wrap, Fresh, InsertAll, SumSeq;
    var leg, gained := legs[i], Fresh(held, legs[..i], LegKey);
    InsertNext(held, legs, i, LegKey);
    FreshCount(held, legs[..i], LegKey);
    FreshCount(held, legs[..i + 1], LegKey);
    if leg.key in InsertAll(held, legs[..i], LegKey) {
      assert Fresh(held, legs[..i + 1], LegKey) == gained;
    } else {
      SumAppend(gained, leg, PrincipalOf);
      SumAppend(gained, leg, InterestOf);
      Kobo.WrapAdd(res.principalKobo + SumSeq(gained, PrincipalOf), PrincipalOf(leg));
      Kobo.WrapAdd(res.interestKobo + SumSeq(gained, InterestOf), InterestOf(leg));
    }
  }
}
