/**
 The double-entry trap: one payment lands as two or four ledger rows, and only the row on
 the customer's own account counts.
 */
module DoubleEntry {
  import opened Wrappers
  import opened Text
  import opened Sequences
  import opened CallOver
  import opened EntryCodes
  import opened InsertOnly
  import opened Repayments
  import opened GlPostings
  import Kobo

  /** The reversal marks a code can carry: a leading R, and an R after the hyphen. */
  datatype Marks = Marks(prefixed: bool, infixed: bool)

  predicate Reversing(marks: Marks) {
    marks.prefixed || marks.infixed
  }

  /**
   One payment, or the reversal of one, as the ledger holds it: the amount, and the rows it
   is posted as. Nothing else ties its rows together, nor to those of another payment.
   */
  datatype Payment = Payment(component: Component, marks: Marks, kobo: int, rows: seq<Row>)

  /** The letter and tail of the codes a payment is posted under: two for principal, four for interest. */
  function CodesFor(c: Component): seq<(char, string)> {
    match c
    case Principal => [('C', "LPOP"), ('D', "LPOP")]
    case Interest => [('C', "LIOP1A"), ('D', "LIOP1B"), ('C', "LIOP1B"), ('D', "LIOP1A")]
  }

  function CodeUnder(marks: Marks, letter: char, tail: string): string {
    Marked(marks.prefixed, letter, marks.infixed, tail)
  }

  /** One row per code, each for the payment's amount. */
  ghost predicate WellFormed(p: Payment) {
    var codes := CodesFor(p.component);
    && |p.rows| == |codes|
    && p.kobo != 0 && (Reversing(p.marks) ==> p.kobo != Kobo.MIN_INT64)
    && forall i :: 0 <= i < |codes| ==>
         && CodeOf(p.rows[i]) == CodeUnder(p.marks, codes[i].0, codes[i].1)
         && Kobo.Parse(p.rows[i].amount) == Success(p.kobo)
  }

  /** What a payment does to the loan book's receipts: a reversal takes its amount back. */
  function Net(p: Payment): int {
    if Reversing(p.marks) then -p.kobo else p.kobo
  }

  function AllRows(ps: seq<Payment>): seq<Row> {
    if ps == [] then [] else AllRows(ps[..|ps| - 1]) + ps[|ps| - 1].rows
  }

  function SumPayments(ps: seq<Payment>): int {
    if ps == [] then 0 else SumPayments(ps[..|ps| - 1]) + Net(ps[|ps| - 1])
  }

  /** What a row contributes to the captured total. */
  function Captured(m: Row): int {
    var leg := ClassifyLeg(m);
    if leg.None? then 0 else leg.value.amountKobo
  }

  function SumCaptured(rows: seq<Row>): int {
    SumSeq(rows, Captured)
  }

  lemma CapturedByLegs(rows: seq<Row>)
    ensures SumSeq(Collect(rows, ClassifyLeg), AmountOf) == SumCaptured(rows)
  {
    CollectSums(rows, ClassifyLeg, AmountOf, Captured);
  }

  predicate NotRepayment(m: Row) {
    ComponentOf(CodeOf(m)).None?
  }

  lemma {:induction false} OthersAddNothing(rows: seq<Row>)
    requires forall m :: m in rows ==> NotRepayment(m)
    ensures SumCaptured(rows) == 0
  {
    hide CodeOf, ComponentOf, Kobo.Parse, KeyOf;
    if rows != [] {
      assert NotRepayment(rows[|rows| - 1]);
      OthersAddNothing(rows[..|rows| - 1]);
    }
  }

  lemma DocumentedCode(c: Component, marks: Marks, i: nat)
    requires i < |CodesFor(c)|
    ensures var code := CodeUnder(marks, CodesFor(c)[i].0, CodesFor(c)[i].1);
            && IsReversal(code) == Reversing(marks)
            && ComponentOf(code) == if i == |CodesFor(c)| - 1 then Some(c) else None
  {
    var (letter, tail) := CodesFor(c)[i];
    var code := CodeUnder(marks, letter, tail);
    hide Base, IsReversal, ComponentOf;
    MarkedBase(marks.prefixed, letter, marks.infixed, tail);
    assert Base(code)[0] == letter && Base(code)[2..] == tail;
    ComponentByTail(code, Principal);
    ComponentByTail(code, Interest);
  }

  lemma RowCaptured(p: Payment, i: nat)
    requires WellFormed(p) && i < |p.rows|
    ensures Captured(p.rows[i]) == if i == |p.rows| - 1 then Net(p) else 0
  {
    hide CodeOf, ComponentOf, IsReversal, Kobo.Parse, Kobo.Wrap, KeyOf, ToUpper, TrimSpace, CodeUnder, CodesFor;
    DocumentedCode(p.component, p.marks, i);
    Kobo.ParsedRange(p.rows[i].amount);
    Kobo.WrapNegated(p.kobo);
  }

  lemma PaymentCaptured(p: Payment)
    requires WellFormed(p)
    ensures SumCaptured(p.rows) == Net(p)
  {
    hide Captured, SumCaptured, CodeUnder;
    forall i | 0 <= i < |p.rows|
      ensures Captured(p.rows[i]) == if i == |p.rows| - 1 then Net(p) else 0
    {
      RowCaptured(p, i);
    }
    OnlyLastCounts(p.rows, Net(p));
  }

  lemma OnlyLastCounts(rows: seq<Row>, kobo: int)
    requires rows != []
    requires forall i :: 0 <= i < |rows| ==> Captured(rows[i]) == if i == |rows| - 1 then kobo else 0
    ensures SumCaptured(rows) == kobo
  {
    hide Captured;
    var last := |rows| - 1;
    assert forall i :: 0 <= i < last ==> rows[..last][i] == rows[i];
    SumZero(rows[..last]);
    SumOne(rows[last], Captured);
    SumConcat(rows[..last], [rows[last]], Captured);
    assert rows == rows[..last] + [rows[last]];
  }

  lemma {:induction false} SumZero(rows: seq<Row>)
    requires forall i :: 0 <= i < |rows| ==> Captured(rows[i]) == 0
    ensures SumCaptured(rows) == 0
  {
    hide Captured;
    if rows != [] {
      SumZero(rows[..|rows| - 1]);
    }
  }

  lemma {:induction false} PaymentsCaptured(ps: seq<Payment>)
    requires forall p :: p in ps ==> WellFormed(p)
    ensures SumCaptured(AllRows(ps)) == SumPayments(ps)
  {
    hide WellFormed, Net, Captured;
    if ps != [] {
      PaymentsCaptured(ps[..|ps| - 1]);
      PaymentCaptured(ps[|ps| - 1]);
      SumConcat(AllRows(ps[..|ps| - 1]), ps[|ps| - 1].rows, Captured);
    }
  }

  /**
   Whatever payments and reversals are posted, on whatever accounts, in whatever order their
   rows come and however they are mixed with rows of other codes, the captured legs sum to
   exactly the payments less the reversals.
   */
  lemma TrapAvoided(ps: seq<Payment>, others: seq<Row>, ledger: seq<Row>)
    requires forall p :: p in ps ==> WellFormed(p)
    requires forall m :: m in others ==> NotRepayment(m)
    requires multiset(ledger) == multiset(AllRows(ps) + others)
    ensures SumSeq(Collect(ledger, ClassifyLeg), AmountOf) == SumPayments(ps)
  {
    hide ClassifyLeg, Captured, AllRows, WellFormed, NotRepayment;
    CapturedByLegs(ledger);
    SumPermuted(ledger, AllRows(ps) + others, Captured);
    SumConcat(AllRows(ps), others, Captured);
    PaymentsCaptured(ps);
    OthersAddNothing(others);
  }

  // ── the books balance ──────────────────────────────────────────────────────

  function DebitOf(p: Posting): int {
    if p.side == Debit then p.amountKobo else 0
  }

  function CreditOf(p: Posting): int {
    if p.side == Credit then p.amountKobo else 0
  }

  function Debited(m: Row): int {
    var p := ClassifyPosting(m);
    if p.None? then 0 else DebitOf(p.value)
  }

  function Credited(m: Row): int {
    var p := ClassifyPosting(m);
    if p.None? then 0 else CreditOf(p.value)
  }

  /** What a payment moves on each side of the books: principal once, interest twice. */
  function Moved(p: Payment): int {
    (if p.component == Principal then 1 else 2) * Magnitude(p.kobo)
  }

  function SumMoved(ps: seq<Payment>): int {
    if ps == [] then 0 else SumMoved(ps[..|ps| - 1]) + Moved(ps[|ps| - 1])
  }

  lemma DocumentedLetter(c: Component, i: nat)
    requires i < |CodesFor(c)|
    ensures CodesFor(c)[i].0 == if i % 2 == 1 then 'D' else 'C'
    ensures |CodesFor(c)| == 2 * if c == Principal then 1 else 2
  {
  }

  lemma RowPosted(p: Payment, i: nat)
    requires WellFormed(p) && i < |p.rows|
    ensures Debited(p.rows[i]) == if i % 2 == 1 then Magnitude(p.kobo) else 0
    ensures Credited(p.rows[i]) == if i % 2 == 0 then Magnitude(p.kobo) else 0
  {
    hide CodeOf, SideOf, CategoryOf, TrimSpace, Kobo.Parse, NarrationTail, Magnitude, Marked, CodesFor, GlKeyOf;
    DocumentedLetter(p.component, i);
    var (letter, tail) := CodesFor(p.component)[i];
    PostingExact(p.rows[i]);
    PostingReads(p.rows[i], p.marks.prefixed, letter, p.marks.infixed, tail);
  }

  lemma {:induction false} Alternating(rows: seq<Row>, weight: Row -> int, parity: nat, amount: int)
    requires parity < 2 && |rows| % 2 == 0
    requires forall i :: 0 <= i < |rows| ==> weight(rows[i]) == if i % 2 == parity then amount else 0
    ensures SumSeq(rows, weight) == |rows| / 2 * amount
  {
    if rows != [] {
      var before := rows[..|rows| - 2];
      Alternating(before, weight, parity, amount);
      assert rows[..|rows| - 1][..|rows| - 2] == before;
      assert |rows| / 2 * amount == |before| / 2 * amount + amount;
    }
  }

  lemma RowCount(p: Payment)
    requires WellFormed(p)
    ensures |p.rows| == if p.component == Principal then 2 else 4
  {
    hide CodeOf, Kobo.Parse, CodeUnder;
  }

  lemma PaymentBalances(p: Payment)
    requires WellFormed(p)
    ensures SumSeq(p.rows, Debited) == SumSeq(p.rows, Credited) == Moved(p)
  {
    hide Debited, Credited, WellFormed, Magnitude, SumSeq;
    RowCount(p);
    forall i | 0 <= i < |p.rows|
      ensures Debited(p.rows[i]) == if i % 2 == 1 then Magnitude(p.kobo) else 0
      ensures Credited(p.rows[i]) == if i % 2 == 0 then Magnitude(p.kobo) else 0
    {
      RowPosted(p, i);
    }
    Alternating(p.rows, Debited, 1, Magnitude(p.kobo));
    Alternating(p.rows, Credited, 0, Magnitude(p.kobo));
  }

  lemma {:induction false} PaymentsBalance(ps: seq<Payment>)
    requires forall p :: p in ps ==> WellFormed(p)
    ensures SumSeq(AllRows(ps), Debited) == SumSeq(AllRows(ps), Credited) == SumMoved(ps)
  {
    hide Debited, Credited, WellFormed, Moved;
    if ps != [] {
      var before, last := ps[..|ps| - 1], ps[|ps| - 1];
      PaymentsBalance(before);
      PaymentBalances(last);
      SumConcat(AllRows(before), last.rows, Debited);
      SumConcat(AllRows(before), last.rows, Credited);
    }
  }

  /**
   The GL capture balances: over any ledger of payments and reversals posted as their
   documented rows, in any order, the debit postings and the credit postings both sum to the
   payments' amounts, principal once and interest twice.
   */
  lemma BooksBalance(ps: seq<Payment>, ledger: seq<Row>)
    requires forall p :: p in ps ==> WellFormed(p)
    requires multiset(ledger) == multiset(AllRows(ps))
    ensures SumSeq(Collect(ledger, ClassifyPosting), DebitOf) == SumMoved(ps)
    ensures SumSeq(Collect(ledger, ClassifyPosting), CreditOf) == SumMoved(ps)
  {
    hide ClassifyPosting, AllRows, WellFormed, DebitOf, CreditOf;
    CollectSums(ledger, ClassifyPosting, DebitOf, Debited);
    CollectSums(ledger, ClassifyPosting, CreditOf, Credited);
    SumPermuted(ledger, AllRows(ps), Debited);
    SumPermuted(ledger, AllRows(ps), Credited);
    PaymentsBalance(ps);
  }
}
