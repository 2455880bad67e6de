/**
 What the capture jobs keep over whole histories: the merged job refines the two it
 replaced, nothing held ever changes, money is conserved, the leg guard never refuses on
 an honest report, and the two ledgers agree.
 */
module CaptureHistory {
  import opened Wrappers
  import opened Text
  import opened Sequences
  import opened CallOver
  import opened EntryCodes
  import opened InsertOnly
  import opened Repayments
  import opened GlPostings
  import opened LedgerCapture
  import Kobo
  import ShrinkGuard
  import LedgerDates

  // ── one fetch, two writers ─────────────────────────────────────────────────

  /**
   Once the prechecks pass, the merged job leaves the tables and the two outcomes that
   the standalone jobs leave one after the other, in either order; and a side that fails
   leaves its own table alone without changing what the other side does.
   */
  lemma OneFetchTwoWriters(t: Tables, inputs: Inputs)
    requires Precheck(inputs) == None
    ensures var m := MergedJob(t, inputs);
            var (afterGl, glError) := GlJob(t, inputs);
            var (afterRep, repError) := RepaymentJob(t, inputs);
            && (m.tables, m.repError) == RepaymentJob(afterGl, inputs)
            && (m.tables, m.glError) == GlJob(afterRep, inputs)
            && m.glError == glError && m.repError == repError
            && m.tables == Tables(afterRep.legs, afterRep.receipts, afterGl.gl)
            && (glError.Some? ==> m.tables.gl == t.gl)
            && (repError.Some? ==> m.tables.legs == t.legs)
  {
    hide WalkAll, WrittenLegs, WrittenReceipts, WrittenPostings, Collect, LegsOf;
  }

  /**
   The GL job has nothing to add: its window cannot be read, the database fails a statement
   or takes not every posting, or every posting is already held.
   */
  ghost predicate NothingToPost(t: Tables, inputs: Inputs) {
    var postings := Collect(WindowOf(inputs).rows, ClassifyPosting);
    || WindowOf(inputs).error.Some?
    || inputs.faults.gl.Some?
    || !TakesAll(postings, inputs.env)
    || KeysOf(postings, PostingKey) <= t.gl.Keys
  }

  lemma GlJobAddsNothing(t: Tables, inputs: Inputs)
    ensures GlJob(t, inputs).0 == t <==> NothingToPost(t, inputs)
  {
    hide WalkAll, Collect, InsertAll, Takes, TakesAll, KeysOf;
    var postings := Collect(WindowOf(inputs).rows, ClassifyPosting);
    InsertAllHolds(t.gl, postings, PostingKey);
    InsertNone(t.gl, PostingKey);
    if KeysOf(postings, PostingKey) <= t.gl.Keys {
      CoveredInsertsNothing(t.gl, postings, PostingKey);
    }
  }

  /**
   Without the prechecks the merged job writes nothing, where the standalone GL job still
   would: the two agree exactly when the prechecks pass or the GL job has nothing to add.
   */
  lemma MergeExact(t: Tables, inputs: Inputs)
    ensures MergedJob(t, inputs).tables == RepaymentJob(GlJob(t, inputs).0, inputs).0 <==>
            Precheck(inputs) == None || NothingToPost(t, inputs)
  {
    hide WalkAll, WrittenLegs, WrittenReceipts, WrittenPostings, Collect, LegsOf, AppliedPostings, NothingToPost;
    GlJobAddsNothing(t, inputs);
    if Precheck(inputs) == None {
      OneFetchTwoWriters(t, inputs);
    }
  }

  const ONE_ROW := Row("2026-10-06", "", "1", "", "", "", "", "R1", "5", "", "", "D-JRNL", "")

  /** One readable row, no repayment schema yet. */
  const UNMIGRATED := Inputs(
    page => if page == 1 then Page([ONE_ROW]) else Page([]), ONE_ROW.financialDate, false, Failure(SchemaMissing),
    Env(date => Some(0), ShrinkGuard.DEFAULTS), Faults(None, None, None))

  lemma OneRowPosts()
    ensures ClassifyPosting(ONE_ROW).Some? && ClassifyPosting(ONE_ROW).value.amountKobo == 5
  {
    hide CodeOf, SideOf, CategoryOf, GlKeyOf, NarrationTail, TrimSpace, Kobo.Parse;
    Kobo.DigitParses('5');
  }

  lemma OneRowWindow()
    ensures WindowOf(UNMIGRATED).rows == [ONE_ROW] && WindowOf(UNMIGRATED).error == None
  {
    hide Below, Tracked;
    BelowAsymmetric(ONE_ROW.financialDate, ONE_ROW.financialDate);
    assert InWindow([ONE_ROW], UNMIGRATED.cutoff) == [ONE_ROW];
    hide AtLeast, InWindow;
    WalkOnward(UNMIGRATED.source, UNMIGRATED.cutoff, 1, [], NOTHING_READ);
  }

  /** Before the repayment schema exists, the merged job loses a posting the GL job alone would write. */
  lemma MergeLosesPosting()
    ensures MergedJob(NO_TABLES, UNMIGRATED).tables == NO_TABLES
    ensures GlKeyOf(ONE_ROW) in RepaymentJob(GlJob(NO_TABLES, UNMIGRATED).0, UNMIGRATED).0.gl
  {
    hide WalkAll, ClassifyPosting, GlKeyOf, InsertAll, Collect;
    OneRowWindow();
    OneRowPosts();
    var postings := Collect([ONE_ROW], ClassifyPosting);
    CollectMembers([ONE_ROW], ClassifyPosting);
    OneRowKey();
    InsertAllHolds(map[], postings, PostingKey);
    forall p | p in postings
      ensures Takes(p, UNMIGRATED.env)
    {
    }
    assert ClassifyPosting(ONE_ROW).value in postings;
    assert postings != [];
  }

  lemma OneRowKey()
    requires ClassifyPosting(ONE_ROW).Some?
    ensures ClassifyPosting(ONE_ROW).value.key == GlKeyOf(ONE_ROW)
  {
    hide CodeOf, SideOf, CategoryOf, GlKeyOf, NarrationTail, Kobo.Parse;
  }

  // ── histories ──────────────────────────────────────────────────────────────

  datatype Event =
    | Grow(ledger: seq<Row>)                                                 // the report as it now reads
    | Merge(inputs: Inputs)                                                  // the scheduled job
    | Hourly(inputs: Inputs)                                                 // SyncRepayments alone
    | GlOnly(inputs: Inputs)                                                 // SyncGLPostings alone
    | Backfill(sweep: Sweep)                                                 // BackfillRepayments

  datatype World = World(ledger: seq<Row>, tables: Tables)

  function Step(w: World, e: Event): World {
    match e
    case Grow(ledger) => w.(ledger := ledger)
    case Merge(inputs) => w.(tables := MergedJob(w.tables, inputs).tables)
    case Hourly(inputs) => w.(tables := RepaymentJob(w.tables, inputs).0)
    case GlOnly(inputs) => w.(tables := GlJob(w.tables, inputs).0)
    case Backfill(sweep) => w.(tables := BackfillJob(w.tables, sweep).0)
  }

  function Run(w: World, es: seq<Event>): World {
    if es == [] then w else Step(Run(w, es[..|es| - 1]), es[|es| - 1])
  }

  const NO_TABLES := Tables(map[], map[], map[])

  // ── insert-only ────────────────────────────────────────────────────────────

  ghost predicate Keeps<K, V>(before: map<K, V>, after: map<K, V>) {
    forall k :: k in before ==> k in after && after[k] == before[k]
  }

  ghost predicate KeepsAll(t: Tables, u: Tables) {
    Keeps(t.legs, u.legs) && Keeps(t.receipts, u.receipts) && Keeps(t.gl, u.gl)
  }

  // ── a history is one insert ────────────────────────────────────────────────

  /** Rows for the three tables. */
  datatype Batch = Batch(legs: seq<Leg>, receipts: seq<Receipt>, postings: seq<Posting>)

  const NO_ROWS := Batch([], [], [])

  function Both(a: Batch, b: Batch): Batch {
    Batch(a.legs + b.legs, a.receipts + b.receipts, a.postings + b.postings)
  }

  function Inserted(t: Tables, rows: Batch): Tables {
    Tables(InsertAll(t.legs, rows.legs, LegKey), InsertAll(t.receipts, rows.receipts, ReceiptKey),
           InsertAll(t.gl, rows.postings, PostingKey))
  }

  /** The legs and receipts a window offers. */
  function OfferedLegs(inputs: Inputs): seq<Leg> {
    if inputs.loans.Success? then LegsOf(WindowOf(inputs).rows, inputs.loans.value) else []
  }

  function OfferedReceipts(inputs: Inputs): seq<Receipt> {
    Collect(WindowOf(inputs).rows, ClassifyReceipt)
  }

  function OfferedPostings(inputs: Inputs): seq<Posting> {
    Collect(WindowOf(inputs).rows, ClassifyPosting)
  }

  /** What an event offers each table, whatever becomes of it. */
  function Offered(e: Event): Batch {
    match e
    case Grow(_) => NO_ROWS
    case Merge(inputs) => Batch(OfferedLegs(inputs), OfferedReceipts(inputs), OfferedPostings(inputs))
    case Hourly(inputs) => Batch(OfferedLegs(inputs), OfferedReceipts(inputs), [])
    case GlOnly(inputs) => Batch([], [], OfferedPostings(inputs))
    case Backfill(b) => Batch(if b.loans.Success? then LegsOf(Swept(b.answers), b.loans.value) else [], [], [])
  }

  /** The event reports no error for the legs it offers. */
  predicate LegsCommit(w: World, e: Event) {
    match e
    case Merge(inputs) => MergedJob(w.tables, inputs).repError == None
    case Hourly(inputs) => RepaymentJob(w.tables, inputs).1 == None
    case Backfill(b) => BackfillJob(w.tables, b).1 == None
    case _ => true
  }

  predicate PostingsCommit(w: World, e: Event) {
    match e
    case Merge(inputs) => MergedJob(w.tables, inputs).glError == None
    case GlOnly(inputs) => GlJob(w.tables, inputs).1 == None
    case _ => true
  }

  /** How many of the receipts offered are inserted before a statement fails; none if the run stops earlier. */
  function ReceiptsReached(inputs: Inputs): (n: nat)
    ensures n <= |OfferedReceipts(inputs)|
  {
    if Precheck(inputs).Some? || WindowOf(inputs).error.Some? then 0
    else ReceiptsRun(OfferedReceipts(inputs), 0, inputs.env, inputs.faults.receipts)
  }

  function ReceiptsWritten(e: Event): seq<Receipt> {
    match e
    case Merge(inputs) => OfferedReceipts(inputs)[..ReceiptsReached(inputs)]
    case Hourly(inputs) => OfferedReceipts(inputs)[..ReceiptsReached(inputs)]
    case _ => []
  }

  /** What an event gets to write. */
  function WrittenBy(w: World, e: Event): Batch {
    Batch(if LegsCommit(w, e) then Offered(e).legs else [],
          ReceiptsWritten(e),
          if PostingsCommit(w, e) then Offered(e).postings else [])
  }

  /** Everything a history gets to write, in order. */
  function Written(w: World, es: seq<Event>): Batch {
    if es == [] then NO_ROWS
    else Both(Written(w, es[..|es| - 1]), WrittenBy(Run(w, es[..|es| - 1]), es[|es| - 1]))
  }

  /** The repayment half of a window, as an insert. */
  lemma RepaymentsInsert(t: Tables, rows: seq<Row>, cutoff: string, loans: LoanIndex, env: Env, faults: Faults)
    ensures var (after, error) := AppliedRepayments(t, rows, cutoff, loans, env, faults);
            var rs := Collect(rows, ClassifyReceipt);
            after == Tables(InsertAll(t.legs, if error == None then LegsOf(rows, loans) else [], LegKey),
                            InsertAll(t.receipts, rs[..ReceiptsRun(rs, 0, env, faults.receipts)], ReceiptKey), t.gl)
  {
    hide InsertAll, Collect, GuardLegCount, Castable, ReceiptsRun, LegsOf, ClassifyReceipt;
    InsertNone(t.legs, LegKey);
  }

  lemma PostingsInsert(t: Tables, rows: seq<Row>, env: Env, faults: Faults)
    ensures var (after, error) := AppliedPostings(t, rows, env, faults);
            after == t.(gl := InsertAll(t.gl, if error == None then Collect(rows, ClassifyPosting) else [], PostingKey))
  {
    hide InsertAll, Collect, TakesAll, ClassifyPosting;
    InsertNone(t.gl, PostingKey);
  }

  lemma InsertsNothing(t: Tables)
    ensures Inserted(t, NO_ROWS) == t
  {
    InsertNone(t.legs, LegKey);
    InsertNone(t.receipts, ReceiptKey);
    InsertNone(t.gl, PostingKey);
  }

  lemma RepaymentInserts(t: Tables, inputs: Inputs)
    ensures var (after, error) := RepaymentJob(t, inputs);
            after == Inserted(t, Batch(if error == None then OfferedLegs(inputs) else [],
                                       OfferedReceipts(inputs)[..ReceiptsReached(inputs)], []))
  {
    hide WalkAll, AppliedRepayments, InsertAll, LegsOf, Collect, ReceiptsRun;
    InsertsNothing(t);
    if Precheck(inputs) == None && WindowOf(inputs).error == None {
      RepaymentsInsert(t, WindowOf(inputs).rows, inputs.cutoff, inputs.loans.value, inputs.env, inputs.faults);
    }
  }

  lemma GlInserts(t: Tables, inputs: Inputs)
    ensures var (after, error) := GlJob(t, inputs);
            after == Inserted(t, Batch([], [], if error == None then OfferedPostings(inputs) else []))
  {
    hide WalkAll, AppliedPostings, InsertAll, Collect;
    InsertsNothing(t);
    PostingsInsert(t, WindowOf(inputs).rows, inputs.env, inputs.faults);
  }

  lemma MergeInserts(t: Tables, inputs: Inputs)
    ensures var m := MergedJob(t, inputs);
            m.tables == Inserted(t, Batch(if m.repError == None then OfferedLegs(inputs) else [],
                                          OfferedReceipts(inputs)[..ReceiptsReached(inputs)],
                                          if m.glError == None then OfferedPostings(inputs) else []))
  {
    hide WalkAll, AppliedPostings, AppliedRepayments, InsertAll, LegsOf, Collect, ReceiptsRun;
    InsertsNothing(t);
    if Precheck(inputs) == None && WindowOf(inputs).error == None {
      var rows := WindowOf(inputs).rows;
      PostingsInsert(t, rows, inputs.env, inputs.faults);
      RepaymentsInsert(AppliedPostings(t, rows, inputs.env, inputs.faults).0, rows, inputs.cutoff,
                       inputs.loans.value, inputs.env, inputs.faults);
    }
  }

  lemma BackfillInserts(t: Tables, b: Sweep)
    ensures var (after, error) := BackfillJob(t, b);
            after == Inserted(t, Batch(if error == None then Offered(Backfill(b)).legs else [], [], []))
  {
    hide InsertAll, LegsOf, Swept, GuardLegCount, Castable;
    InsertsNothing(t);
  }

  lemma StepInserts(w: World, e: Event)
    ensures Step(w, e).tables == Inserted(w.tables, WrittenBy(w, e))
  {
    hide MergedJob, RepaymentJob, GlJob, BackfillJob, OfferedLegs, OfferedReceipts, OfferedPostings, ReceiptsReached, InsertAll, LegsOf, Swept;
    InsertsNothing(w.tables);
    match e
    case Grow(_) =>
    case Merge(inputs) => MergeInserts(w.tables, inputs);
    case Hourly(inputs) => RepaymentInserts(w.tables, inputs);
    case GlOnly(inputs) => GlInserts(w.tables, inputs);
    case Backfill(b) => BackfillInserts(w.tables, b);
  }

  /**
   Over every history, whatever its sources answer and whatever fails, each table is what
   one insert-if-absent of all the rows written, in order, makes of it.
   */
  lemma {:induction false} HistoryIsOneInsert(w: World, es: seq<Event>)
    ensures Run(w, es).tables == Inserted(w.tables, Written(w, es))
  {
    hide Step, WrittenBy, InsertAll;
    InsertsNothing(w.tables);
    if es != [] {
      var before, last := es[..|es| - 1], es[|es| - 1];
      HistoryIsOneInsert(w, before);
      StepInserts(Run(w, before), last);
      var a, b := Written(w, before), WrittenBy(Run(w, before), last);
      InsertConcat(w.tables.legs, a.legs, b.legs, LegKey);
      InsertConcat(w.tables.receipts, a.receipts, b.receipts, ReceiptKey);
      InsertConcat(w.tables.gl, a.postings, b.postings, PostingKey);
    }
  }

  /** So, honest or not, no held row is ever changed or lost. */
  lemma NothingHeldChanges(w: World, es: seq<Event>)
    ensures KeepsAll(w.tables, Run(w, es).tables)
  {
    hide Written, Run, InsertAll;
    HistoryIsOneInsert(w, es);
    InsertAllHolds(w.tables.legs, Written(w, es).legs, LegKey);
    InsertAllHolds(w.tables.receipts, Written(w, es).receipts, ReceiptKey);
    InsertAllHolds(w.tables.gl, Written(w, es).postings, PostingKey);
  }

  // ── the keys are the union ─────────────────────────────────────────────────

  ghost predicate AllLegsCommit(w: World, es: seq<Event>) {
    es != [] ==> AllLegsCommit(w, es[..|es| - 1]) && LegsCommit(Run(w, es[..|es| - 1]), es[|es| - 1])
  }

  ghost predicate AllPostingsCommit(w: World, es: seq<Event>) {
    es != [] ==> AllPostingsCommit(w, es[..|es| - 1]) && PostingsCommit(Run(w, es[..|es| - 1]), es[|es| - 1])
  }

  /** No run stops short of a receipt. */
  ghost predicate AllReceiptsReached(es: seq<Event>) {
    forall e :: e in es ==> (e.Merge? || e.Hourly? ==> ReceiptsReached(e.inputs) == |OfferedReceipts(e.inputs)|)
  }

  lemma KeysOfBoth<K, V>(a: seq<V>, b: seq<V>, key: V -> K)
    ensures KeysOf(a + b, key) == KeysOf(a, key) + KeysOf(b, key)
  {
    forall k
      ensures k in KeysOf(a + b, key) <==> k in KeysOf(a, key) + KeysOf(b, key)
    {
      if k in KeysOf(a, key) {
        var v :| v in a && key(v) == k;
        assert v in a + b;
      } else if k in KeysOf(b, key) {
        var v :| v in b && key(v) == k;
        assert v in a + b;
      }
    }
  }

  ghost predicate OffersLeg(e: Event, k: LedgerKey) {
    k in KeysOf(Offered(e).legs, LegKey)
  }

  ghost predicate OffersReceipt(e: Event, k: LedgerKey) {
    k in KeysOf(Offered(e).receipts, ReceiptKey)
  }

  ghost predicate OffersPosting(e: Event, k: GlKey) {
    k in KeysOf(Offered(e).postings, PostingKey)
  }

  /** A property of some event of a history, by its last one. */
  lemma SomeEvent<K>(es: seq<Event>, k: K, offers: (Event, K) -> bool)
    requires es != []
    ensures (exists e :: e in es && offers(e, k)) <==>
            (exists e :: e in es[..|es| - 1] && offers(e, k)) || offers(es[|es| - 1], k)
  {
    var before, last := es[..|es| - 1], es[|es| - 1];
    assert es == before + [last];
    assert last in es;
    if exists e :: e in before && offers(e, k) {
      var e :| e in before && offers(e, k);
      assert e in es;
    }
  }

  lemma {:induction false} WrittenLegKeys(w: World, es: seq<Event>, k: LedgerKey)
    requires AllLegsCommit(w, es)
    ensures k in KeysOf(Written(w, es).legs, LegKey) <==> exists e :: e in es && OffersLeg(e, k)
  {
    hide Run, LegsCommit, PostingsCommit, Offered, KeysOf, ReceiptsWritten;
    if es == [] {
      NoKeys(LegKey);
    } else {
      var before, last := es[..|es| - 1], es[|es| - 1];
      WrittenLegKeys(w, before, k);
      KeysOfBoth(Written(w, before).legs, Offered(last).legs, LegKey);
      SomeEvent(es, k, (e, k) => OffersLeg(e, k));
    }
  }

  lemma NoKeys<K, V>(key: V -> K)
    ensures KeysOf([], key) == {}
  {
  }

  lemma {:induction false} WrittenPostingKeys(w: World, es: seq<Event>, k: GlKey)
    requires AllPostingsCommit(w, es)
    ensures k in KeysOf(Written(w, es).postings, PostingKey) <==> exists e :: e in es && OffersPosting(e, k)
  {
    hide Run, LegsCommit, PostingsCommit, Offered, KeysOf, ReceiptsWritten;
    if es == [] {
      NoKeys(PostingKey);
    } else {
      var before, last := es[..|es| - 1], es[|es| - 1];
      WrittenPostingKeys(w, before, k);
      KeysOfBoth(Written(w, before).postings, Offered(last).postings, PostingKey);
      SomeEvent(es, k, (e, k) => OffersPosting(e, k));
    }
  }

  lemma {:induction false} WrittenReceiptKeys(w: World, es: seq<Event>, k: LedgerKey)
    requires AllReceiptsReached(es)
    ensures k in KeysOf(Written(w, es).receipts, ReceiptKey) <==> exists e :: e in es && OffersReceipt(e, k)
  {
    hide Run, LegsCommit, PostingsCommit, Offered, KeysOf, ReceiptsWritten, ReceiptsReached, OfferedReceipts;
    if es == [] {
      NoKeys(ReceiptKey);
    } else {
      var before, last := es[..|es| - 1], es[|es| - 1];
      WrittenReceiptKeys(w, before, k);
      assert last in es;
      ReachedIsOffered(last);
      KeysOfBoth(Written(w, before).receipts, Offered(last).receipts, ReceiptKey);
      SomeEvent(es, k, (e, k) => OffersReceipt(e, k));
    }
  }

  lemma ReachedIsOffered(e: Event)
    requires e.Merge? || e.Hourly? ==> ReceiptsReached(e.inputs) == |OfferedReceipts(e.inputs)|
    ensures ReceiptsWritten(e) == Offered(e).receipts
  {
    hide OfferedLegs, OfferedReceipts, OfferedPostings, ReceiptsReached, LegsOf, Swept;
  }

  /**
   Over any mix of merged runs, standalone runs and backfills that commit their legs, the leg
   keys held are the first ones plus the union of what was offered: neither the order of the
   runs nor their overlap matters.
   */
  lemma KeysAreTheUnion(w: World, es: seq<Event>, k: LedgerKey)
    requires AllLegsCommit(w, es)
    ensures k in Run(w, es).tables.legs <==> k in w.tables.legs || exists e :: e in es && OffersLeg(e, k)
  {
    hide Run, Written, OffersLeg, InsertAll, KeysOf, AllLegsCommit;
    HistoryIsOneInsert(w, es);
    InsertAllHolds(w.tables.legs, Written(w, es).legs, LegKey);
    WrittenLegKeys(w, es, k);
  }

  /** The same for the GL table. */
  lemma GlKeysAreTheUnion(w: World, es: seq<Event>, k: GlKey)
    requires AllPostingsCommit(w, es)
    ensures k in Run(w, es).tables.gl <==> k in w.tables.gl || exists e :: e in es && OffersPosting(e, k)
  {
    hide Run, Written, OffersPosting, InsertAll, KeysOf, AllPostingsCommit;
    HistoryIsOneInsert(w, es);
    InsertAllHolds(w.tables.gl, Written(w, es).postings, PostingKey);
    WrittenPostingKeys(w, es, k);
  }

  /** And for the receipts. */
  lemma ReceiptKeysAreTheUnion(w: World, es: seq<Event>, k: LedgerKey)
    requires AllReceiptsReached(es)
    ensures k in Run(w, es).tables.receipts <==> k in w.tables.receipts || exists e :: e in es && OffersReceipt(e, k)
  {
    hide Run, Written, OffersReceipt, InsertAll, KeysOf, AllReceiptsReached;
    HistoryIsOneInsert(w, es);
    InsertAllHolds(w.tables.receipts, Written(w, es).receipts, ReceiptKey);
    WrittenReceiptKeys(w, es, k);
  }

  // ── idempotence ────────────────────────────────────────────────────────────

  lemma LegsSettle(held: map<LedgerKey, Leg>, legs: seq<Leg>, cutoff: string, env: Env, fault: Option<nat>)
    ensures var first := WrittenLegs(held, legs, cutoff, env, fault);
            var table := if first.Success? then first.value else held;
            var second := WrittenLegs(table, legs, cutoff, env, fault);
            second.Success? ==> second.value == table
  {
    hide InsertAll, GuardLegCount, Castable;
    InsertAllHolds(held, legs, LegKey);
    CoveredAgain(held, legs, LegKey);
  }

  lemma CoveredAgain<K, V>(table: map<K, V>, rows: seq<V>, key: V -> K)
    ensures InsertAll(InsertAll(table, rows, key), rows, key) == InsertAll(table, rows, key)
  {
    hide InsertAll;
    InsertAllHolds(table, rows, key);
    CoveredInsertsNothing(InsertAll(table, rows, key), rows, key);
  }

  /** Running the merged job again on the same inputs changes nothing, however the first run went. */
  lemma MergeIdempotent(t: Tables, inputs: Inputs)
    ensures var once := MergedJob(t, inputs).tables;
            MergedJob(once, inputs).tables == once
  {
    hide WalkAll, InsertAll, LegsOf, Collect, WrittenLegs, ReceiptsRun, TakesAll, ClassifyReceipt, ClassifyPosting, CategoryOf;
    if Precheck(inputs) == None && WindowOf(inputs).error == None {
      var rows := WindowOf(inputs).rows;
      var rs := Collect(rows, ClassifyReceipt);
      CoveredAgain(t.receipts, rs[..ReceiptsRun(rs, 0, inputs.env, inputs.faults.receipts)], ReceiptKey);
      CoveredAgain(t.gl, Collect(rows, ClassifyPosting), PostingKey);
      LegsSettle(t.legs, LegsOf(rows, inputs.loans.value), inputs.cutoff, inputs.env, inputs.faults.legs);
    }
  }

  // ── money ──────────────────────────────────────────────────────────────────

  lemma {:induction false} SumSplits(legs: seq<Leg>)
    ensures SumSeq(legs, AmountOf) == SumSeq(legs, PrincipalOf) + SumSeq(legs, InterestOf)
  {
    if legs != [] {
      SumSplits(legs[..|legs| - 1]);
    }
  }

  lemma OfferConserves(held: map<LedgerKey, Leg>, offered: seq<Leg>, res: RepaymentResult)
    requires res.inserted == res.duplicate == 0 && res.principalKobo == res.interestKobo == 0
    ensures var after, r := InsertAll(held, offered, LegKey), Counted(res, held, offered);
            && r.inserted + r.duplicate == |offered|
            && r.inserted == |after| - |held|
            && r.principalKobo == Kobo.Wrap(Total(after, PrincipalOf) - Total(held, PrincipalOf))
            && r.interestKobo == Kobo.Wrap(Total(after, InterestOf) - Total(held, InterestOf))
  {
    hide Fresh, InsertAll, SumSeq, Total, Kobo.Wrap;
    FreshCount(held, offered, LegKey);
    TotalConserved(held, offered, LegKey, PrincipalOf);
    TotalConserved(held, offered, LegKey, InterestOf);
  }

  lemma WrapSum(p: int, i: int)
    ensures Kobo.Wrap(Kobo.Wrap(p) + Kobo.Wrap(i)) == Kobo.Wrap(p + i)
  {
    Kobo.WrapAdd(p, Kobo.Wrap(i));
    Kobo.WrapAdd(i, p);
  }

  lemma TotalSplits(held: map<LedgerKey, Leg>, offered: seq<Leg>)
    ensures var after := InsertAll(held, offered, LegKey);
            && Total(after, AmountOf) == Total(held, AmountOf) + SumSeq(Fresh(held, offered, LegKey), AmountOf)
            && Total(after, AmountOf) - Total(held, AmountOf) ==
               Total(after, PrincipalOf) - Total(held, PrincipalOf) + Total(after, InterestOf) - Total(held, InterestOf)
  {
    hide Fresh, InsertAll, SumSeq, Total;
    TotalConserved(held, offered, LegKey, AmountOf);
    TotalConserved(held, offered, LegKey, PrincipalOf);
    TotalConserved(held, offered, LegKey, InterestOf);
    SumSplits(Fresh(held, offered, LegKey));
  }

  /**
   Every leg offered is inserted or a duplicate; the money the table gains is the money of
   exactly the new legs; and the two reported totals are that money by component, so
   together they are what the table gained (modulo int64 wrap-around).
   */
  ghost predicate Conserves(held: map<LedgerKey, Leg>, offered: seq<Leg>, after: map<LedgerKey, Leg>, r: RepaymentResult) {
    && r.inserted + r.duplicate == |offered|
    && r.inserted == |after| - |held|
    && Total(after, AmountOf) == Total(held, AmountOf) + SumSeq(Fresh(held, offered, LegKey), AmountOf)
    && r.principalKobo == Kobo.Wrap(Total(after, PrincipalOf) - Total(held, PrincipalOf))
    && r.interestKobo == Kobo.Wrap(Total(after, InterestOf) - Total(held, InterestOf))
    && Kobo.Wrap(r.principalKobo + r.interestKobo) == Kobo.Wrap(Total(after, AmountOf) - Total(held, AmountOf))
  }

  lemma InsertConserves(held: map<LedgerKey, Leg>, offered: seq<Leg>, res: RepaymentResult)
    requires res.inserted == res.duplicate == 0 && res.principalKobo == res.interestKobo == 0
    ensures Conserves(held, offered, InsertAll(held, offered, LegKey), Counted(res, held, offered))
  {
    hide Fresh, InsertAll, SumSeq, Total, Kobo.Wrap, Counted;
    OfferConserves(held, offered, res);
    TotalSplits(held, offered);
    var after := InsertAll(held, offered, LegKey);
    WrapSum(Total(after, PrincipalOf) - Total(held, PrincipalOf), Total(after, InterestOf) - Total(held, InterestOf));
  }

  /** What a posting run that commits has done: its table, its keys and its counters. */
  ghost predicate GlCommitted(held: map<GlKey, Posting>, offered: seq<Posting>, after: map<GlKey, Posting>, r: GlResult) {
    && after.Keys == held.Keys + KeysOf(offered, PostingKey)
    && r.inserted + r.duplicate == |offered|
    && r.inserted == |after| - |held|
    && forall weight: Posting -> int ::
         Total(after, weight) == Total(held, weight) + SumSeq(Fresh(held, offered, PostingKey), weight)
  }

  lemma GlInsertCommits(held: map<GlKey, Posting>, offered: seq<Posting>, read: Summary)
    ensures GlCommitted(held, offered, InsertAll(held, offered, PostingKey),
                        CountedPostings(GlResult(read, 0, 0), held, offered))
  {
    hide Fresh, InsertAll, SumSeq, Total, KeysOf;
    InsertAllHolds(held, offered, PostingKey);
    FreshCount(held, offered, PostingKey);
    forall weight: Posting -> int
      ensures Total(InsertAll(held, offered, PostingKey), weight) ==
              Total(held, weight) + SumSeq(Fresh(held, offered, PostingKey), weight)
    {
      TotalConserved(held, offered, PostingKey, weight);
    }
  }

  // ── what each run reports ──────────────────────────────────────────────────

  /** The report of the event's repayment side, if it succeeds. */
  function LegReport(w: World, e: Event): RepaymentResult {
    match e
    case Merge(inputs) => WindowReport(w.tables, inputs)
    case Hourly(inputs) => WindowReport(w.tables, inputs)
    case Backfill(b) => if b.loans.Success? then BackfillReport(w.tables, b) else NOTHING_CAPTURED
    case _ => NOTHING_CAPTURED
  }

  function WindowReport(t: Tables, inputs: Inputs): RepaymentResult {
    if inputs.loans.Failure? then NOTHING_CAPTURED
    else RepaymentReport(t, WindowOf(inputs).rows, WindowOf(inputs).read, inputs.loans.value, inputs.env, inputs.faults)
  }

  /** The report of its posting side. */
  function PostingReport(w: World, e: Event): GlResult {
    match e
    case Merge(inputs) => GlReport(w.tables, WindowOf(inputs).rows, WindowOf(inputs).read)
    case GlOnly(inputs) => GlReport(w.tables, WindowOf(inputs).rows, WindowOf(inputs).read)
    case _ => NOTHING_POSTED
  }

  lemma CommitNeedsLoans(w: World, e: Event)
    requires LegsCommit(w, e)
    ensures e.Merge? || e.Hourly? ==> e.inputs.loans.Success?
    ensures e.Backfill? ==> e.sweep.loans.Success?
  {
    hide WalkAll, AppliedRepayments, AppliedPostings, WrittenLegs, LegsOf, Swept;
  }

  lemma LegReportCounts(w: World, e: Event)
    requires LegsCommit(w, e)
    ensures exists before: RepaymentResult ::
              && before.inserted == before.duplicate == 0 && before.principalKobo == before.interestKobo == 0
              && LegReport(w, e) == Counted(before, w.tables.legs, Offered(e).legs)
  {
    hide WalkAll, LegsOf, Swept, ReportBefore, BackfillBefore, Counted, LegsCommit, OfferedReceipts, OfferedPostings;
    CountedNone(NOTHING_CAPTURED, w.tables.legs);
    CommitNeedsLoans(w, e);
    match e
    case Grow(_) =>
    case GlOnly(_) =>
    case Merge(inputs) => WindowCounts(w.tables, inputs);
    case Hourly(inputs) => WindowCounts(w.tables, inputs);
    case Backfill(b) =>
      assert LegReport(w, e) == Counted(BackfillBefore(b, b.loans.value), w.tables.legs, Offered(e).legs);
  }

  lemma WindowCounts(t: Tables, inputs: Inputs)
    requires inputs.loans.Success?
    ensures exists before: RepaymentResult ::
              && before.inserted == before.duplicate == 0 && before.principalKobo == before.interestKobo == 0
              && WindowReport(t, inputs) == Counted(before, t.legs, OfferedLegs(inputs))
  {
    hide WalkAll, LegsOf, ReportBefore, Counted;
    var w := WindowOf(inputs);
    var before := ReportBefore(t, w.rows, w.read, inputs.loans.value, inputs.env, inputs.faults);
    assert WindowReport(t, inputs) == Counted(before, t.legs, OfferedLegs(inputs));
  }

  /**
   Every run that commits its legs (merged, standalone or backfill) conserves rows and money:
   each leg offered is inserted or a duplicate, and what it reports is what the table gained.
   */
  lemma RunConserves(w: World, e: Event)
    requires LegsCommit(w, e)
    ensures Conserves(w.tables.legs, Offered(e).legs, Step(w, e).tables.legs, LegReport(w, e))
  {
    hide Step, Offered, LegReport, InsertAll, Counted, Conserves, LegsCommit, PostingsCommit, ReceiptsWritten;
    StepInserts(w, e);
    LegReportCounts(w, e);
    var before: RepaymentResult :|
      && before.inserted == before.duplicate == 0 && before.principalKobo == before.interestKobo == 0
      && LegReport(w, e) == Counted(before, w.tables.legs, Offered(e).legs);
    InsertConserves(w.tables.legs, Offered(e).legs, before);
  }

  /** Every run that commits its postings gains exactly their keys and the money of the new ones. */
  lemma GlRunConserves(w: World, e: Event)
    requires PostingsCommit(w, e)
    ensures GlCommitted(w.tables.gl, Offered(e).postings, Step(w, e).tables.gl, PostingReport(w, e))
  {
    hide Step, InsertAll, CountedPostings, GlCommitted, LegsCommit, PostingsCommit, ReceiptsWritten, OfferedLegs, OfferedReceipts, Collect, WalkAll, LegsOf, Swept;
    StepInserts(w, e);
    CountedPostingsNone(NOTHING_POSTED, w.tables.gl);
    var read := if e.Merge? || e.GlOnly? then WindowOf(e.inputs).read else NOTHING_READ;
    GlInsertCommits(w.tables.gl, Offered(e).postings, read);
  }

  /** A run that reaches every receipt reports exactly those the table gained. */
  lemma ReceiptsConserved(w: World, e: Event)
    requires e.Merge? || e.Hourly?
    requires LegsCommit(w, e) && ReceiptsReached(e.inputs) == |OfferedReceipts(e.inputs)|
    ensures LegReport(w, e).journalReceipts == |Step(w, e).tables.receipts| - |w.tables.receipts|
  {
    hide Step, InsertAll, Fresh, Collect, LegsOf, WalkAll, PostingsCommit, OfferedLegs, OfferedPostings, SumSeq, Unmatched, Kobo.Wrap;
    StepInserts(w, e);
    CommitNeedsLoans(w, e);
    CommitReads(w, e);
    hide LegsCommit;
    FreshCount(w.tables.receipts, OfferedReceipts(e.inputs), ReceiptKey);
    ReachedIsOffered(e);
  }

  lemma CommitReads(w: World, e: Event)
    requires e.Merge? || e.Hourly?
    requires LegsCommit(w, e)
    ensures Precheck(e.inputs) == None && WindowOf(e.inputs).error == None
  {
    hide WalkAll, AppliedRepayments, AppliedPostings;
  }

  // ── what a whole history reports ───────────────────────────────────────────

  /** The legs reported as inserted by the runs that committed theirs, and their money. */
  function ReportedLegs(w: World, es: seq<Event>): nat {
    if es == [] then 0
    else
      var v, e := Run(w, es[..|es| - 1]), es[|es| - 1];
      ReportedLegs(w, es[..|es| - 1]) + if LegsCommit(v, e) then LegReport(v, e).inserted else 0
  }

  function ReportedKobo(w: World, es: seq<Event>): int {
    if es == [] then 0
    else
      var v, e := Run(w, es[..|es| - 1]), es[|es| - 1];
      ReportedKobo(w, es[..|es| - 1]) +
      if LegsCommit(v, e) then LegReport(v, e).principalKobo + LegReport(v, e).interestKobo else 0
  }

  function ReportedPostings(w: World, es: seq<Event>): nat {
    if es == [] then 0
    else
      var v, e := Run(w, es[..|es| - 1]), es[|es| - 1];
      ReportedPostings(w, es[..|es| - 1]) + if PostingsCommit(v, e) then PostingReport(v, e).inserted else 0
  }

  /** A step whose legs do not commit leaves the legs; so with the postings. */
  lemma FailedStepLeaves(w: World, e: Event)
    ensures !LegsCommit(w, e) ==> Step(w, e).tables.legs == w.tables.legs
    ensures !PostingsCommit(w, e) ==> Step(w, e).tables.gl == w.tables.gl
  {
    hide Step, Offered, InsertAll, LegsCommit, PostingsCommit, ReceiptsWritten;
    StepInserts(w, e);
    InsertNone(w.tables.legs, LegKey);
    InsertNone(w.tables.gl, PostingKey);
  }

  /** The step of the accounts below: reported sums grow as the tables do. */
  lemma StepReported(w: World, e: Event)
    ensures var after := Step(w, e).tables;
            var legs := if LegsCommit(w, e) then LegReport(w, e).inserted else 0;
            var kobo := if LegsCommit(w, e) then LegReport(w, e).principalKobo + LegReport(w, e).interestKobo else 0;
            var postings := if PostingsCommit(w, e) then PostingReport(w, e).inserted else 0;
            && |after.legs| == |w.tables.legs| + legs
            && Kobo.Wrap(kobo) == Kobo.Wrap(Total(after.legs, AmountOf) - Total(w.tables.legs, AmountOf))
            && |after.gl| == |w.tables.gl| + postings
  {
    hide Step, LegsCommit, PostingsCommit, LegReport, PostingReport, Offered, Total, SumSeq, Fresh, KeysOf, Kobo.Wrap;
    FailedStepLeaves(w, e);
    if LegsCommit(w, e) {
      RunConserves(w, e);
    }
    if PostingsCommit(w, e) {
      GlRunConserves(w, e);
    }
  }

  /**
   The books balance over every history, failed runs included: the legs and postings that
   successful runs report as inserted are what the tables gained, and the principal and
   interest they report are, modulo int64 wrap-around, the money the legs gained.
   */
  lemma {:induction false} HistoryConserves(w: World, es: seq<Event>)
    ensures var after := Run(w, es).tables;
            && |after.legs| == |w.tables.legs| + ReportedLegs(w, es)
            && Kobo.Wrap(ReportedKobo(w, es)) == Kobo.Wrap(Total(after.legs, AmountOf) - Total(w.tables.legs, AmountOf))
            && |after.gl| == |w.tables.gl| + ReportedPostings(w, es)
  {
    hide Step, LegsCommit, PostingsCommit, LegReport, PostingReport, Total, Kobo.Wrap;
    if es != [] {
      var before, last := es[..|es| - 1], es[|es| - 1];
      HistoryConserves(w, before);
      var v := Run(w, before);
      StepReported(v, last);
      var kobo := if LegsCommit(v, last) then LegReport(v, last).principalKobo + LegReport(v, last).interestKobo else 0;
      WrapBoth(ReportedKobo(w, before), kobo,
               Total(v.tables.legs, AmountOf) - Total(w.tables.legs, AmountOf),
               Total(Step(v, last).tables.legs, AmountOf) - Total(v.tables.legs, AmountOf));
    }
  }

  lemma WrapBoth(a: int, b: int, p: int, q: int)
    requires Kobo.Wrap(a) == Kobo.Wrap(p) && Kobo.Wrap(b) == Kobo.Wrap(q)
    ensures Kobo.Wrap(a + b) == Kobo.Wrap(p + q)
  {
    hide Kobo.Wrap;
    WrapSum(a, b);
    WrapSum(p, q);
  }

  /** And, by any weight at all, a table gains the weight of exactly the rows that were new. */
  lemma HistoryTotals(w: World, es: seq<Event>, legWeight: Leg -> int, receiptWeight: Receipt -> int, postingWeight: Posting -> int)
    ensures var t, after, rows := w.tables, Run(w, es).tables, Written(w, es);
            && Total(after.legs, legWeight) == Total(t.legs, legWeight) + SumSeq(Fresh(t.legs, rows.legs, LegKey), legWeight)
            && Total(after.receipts, receiptWeight) ==
               Total(t.receipts, receiptWeight) + SumSeq(Fresh(t.receipts, rows.receipts, ReceiptKey), receiptWeight)
            && Total(after.gl, postingWeight) ==
               Total(t.gl, postingWeight) + SumSeq(Fresh(t.gl, rows.postings, PostingKey), postingWeight)
  {
    hide Run, Written, InsertAll, Total, SumSeq, Fresh;
    HistoryIsOneInsert(w, es);
    TotalConserved(w.tables.legs, Written(w, es).legs, LegKey, legWeight);
    TotalConserved(w.tables.receipts, Written(w, es).receipts, ReceiptKey, receiptWeight);
    TotalConserved(w.tables.gl, Written(w, es).postings, PostingKey, postingWeight);
  }

  // ── reading again what is held ─────────────────────────────────────────────

  /** Legs, receipts or postings that are all held already leave their table as it is. */
  lemma CoveredChangesNothing(w: World, e: Event)
    ensures KeysOf(Offered(e).legs, LegKey) <= w.tables.legs.Keys ==> Step(w, e).tables.legs == w.tables.legs
    ensures KeysOf(Offered(e).receipts, ReceiptKey) <= w.tables.receipts.Keys ==> Step(w, e).tables.receipts == w.tables.receipts
    ensures KeysOf(Offered(e).postings, PostingKey) <= w.tables.gl.Keys ==> Step(w, e).tables.gl == w.tables.gl
  {
    hide Step, Offered, InsertAll, LegsCommit, PostingsCommit, ReceiptsWritten, KeysOf;
    StepInserts(w, e);
    FailedStepLeaves(w, e);
    if KeysOf(Offered(e).legs, LegKey) <= w.tables.legs.Keys {
      CoveredInsertsNothing(w.tables.legs, Offered(e).legs, LegKey);
    }
    if KeysOf(Offered(e).receipts, ReceiptKey) <= w.tables.receipts.Keys {
      WrittenOffered(e);
      CoveredInsertsNothing(w.tables.receipts, ReceiptsWritten(e), ReceiptKey);
    }
    if KeysOf(Offered(e).postings, PostingKey) <= w.tables.gl.Keys {
      CoveredInsertsNothing(w.tables.gl, Offered(e).postings, PostingKey);
    }
  }

  lemma WrittenOffered(e: Event)
    ensures KeysOf(ReceiptsWritten(e), ReceiptKey) <= KeysOf(Offered(e).receipts, ReceiptKey)
  {
    hide OfferedLegs, OfferedReceipts, OfferedPostings, ReceiptsReached, LegsOf, Swept;
    assert forall r :: r in ReceiptsWritten(e) ==> r in Offered(e).receipts;
  }

  /** And a run over a window whose legs are held reports each a duplicate, and no money; so with postings. */
  lemma CoveredReportsNothing(w: World, e: Event)
    ensures LegsCommit(w, e) && KeysOf(Offered(e).legs, LegKey) <= w.tables.legs.Keys ==>
              var r := LegReport(w, e);
              r.inserted == 0 && r.duplicate == |Offered(e).legs| && r.principalKobo == 0 && r.interestKobo == 0
    ensures PostingsCommit(w, e) && KeysOf(Offered(e).postings, PostingKey) <= w.tables.gl.Keys ==>
              PostingReport(w, e).inserted == 0 && PostingReport(w, e).duplicate == |Offered(e).postings|
  {
    hide Step, Offered, LegsCommit, PostingsCommit, LegReport, PostingReport, KeysOf, Total, SumSeq, Fresh;
    CoveredChangesNothing(w, e);
    if LegsCommit(w, e) {
      RunConserves(w, e);
    }
    if PostingsCommit(w, e) {
      GlRunConserves(w, e);
    }
  }

  /**
   A run that committed its legs, its receipts or its postings writes none of them when it
   comes again, however much later and whatever has happened since.
   */
  lemma RerunWritesNothing(w: World, e: Event, es: seq<Event>)
    ensures var v := Run(Step(w, e), es);
            && (LegsCommit(w, e) ==> Step(v, e).tables.legs == v.tables.legs)
            && (LegsCommit(w, e) && LegsCommit(v, e) ==>
                  LegReport(v, e).inserted == 0 && LegReport(v, e).principalKobo == 0 && LegReport(v, e).interestKobo == 0)
            && (ReceiptsWritten(e) == Offered(e).receipts ==> Step(v, e).tables.receipts == v.tables.receipts)
            && (PostingsCommit(w, e) ==> Step(v, e).tables.gl == v.tables.gl)
            && (PostingsCommit(w, e) && PostingsCommit(v, e) ==> PostingReport(v, e).inserted == 0)
  {
    hide Step, Run, Offered, InsertAll, LegsCommit, PostingsCommit, LegReport, PostingReport, ReceiptsWritten, KeysOf;
    var v := Run(Step(w, e), es);
    StepInserts(w, e);
    InsertAllHolds(w.tables.legs, WrittenBy(w, e).legs, LegKey);
    InsertAllHolds(w.tables.receipts, WrittenBy(w, e).receipts, ReceiptKey);
    InsertAllHolds(w.tables.gl, WrittenBy(w, e).postings, PostingKey);
    NothingHeldChanges(Step(w, e), es);
    CoveredChangesNothing(v, e);
    CoveredReportsNothing(v, e);
  }

  // ── where every held row came from ─────────────────────────────────────────

  /** A held leg is the classification of a ledger row, up to the loan it was given. */
  ghost predicate LegGrounded(k: LedgerKey, leg: Leg) {
    leg.key == k && ClassifyLeg(leg.raw) == Some(leg.(loanAccount := ""))
  }

  ghost predicate PostingGrounded(k: GlKey, p: Posting) {
    p.key == k && ClassifyPosting(p.raw) == Some(p) && p.amountKobo >= 0
  }

  lemma LegsOfRows(rows: seq<Row>, loans: LoanIndex, leg: Leg)
    requires leg in LegsOf(rows, loans)
    ensures leg.raw in rows && LegGrounded(leg.key, leg)
  {
    hide KeyOf, CodeOf, ComponentOf, IsReversal, Kobo.Parse, Resolve, Collect;
    CollectMembers(rows, ClassifyLeg);
    var classified := Collect(rows, ClassifyLeg);
    var i :| 0 <= i < |classified| && leg == classified[i].(loanAccount := Resolve(classified[i], loans).0);
    assert classified[i] in classified;
    var m :| m in rows && ClassifyLeg(m) == Some(classified[i]);
  }

  lemma LegsGrounded(held: map<LedgerKey, Leg>, rows: seq<Row>, loans: LoanIndex, k: LedgerKey)
    requires k in InsertAll(held, LegsOf(rows, loans), LegKey)
    ensures var leg := InsertAll(held, LegsOf(rows, loans), LegKey)[k];
            (k in held && leg == held[k]) || (leg.raw in rows && LegGrounded(k, leg))
  {
    hide LegsOf, InsertAll, LegGrounded;
    InsertAllHolds(held, LegsOf(rows, loans), LegKey);
    if k !in held {
      LegsOfRows(rows, loans, InsertAll(held, LegsOf(rows, loans), LegKey)[k]);
    }
  }

  /** A truthful report answers each page rightly or not at all. */
  ghost predicate Truthful(source: Source, ledger: seq<Row>) {
    forall page :: 1 <= page <= MAX_PAGES ==>
      source(page) == Unavailable || source(page) == Page(PageRows(ledger, page))
  }

  lemma {:induction false} FetchedFromLedger(source: Source, ledger: seq<Row>, n: nat, m: Row)
    requires Truthful(source, ledger) && n <= MAX_PAGES && m in Fetched(source, n)
    ensures m in ledger
  {
    if m in Fetched(source, n - 1) {
      FetchedFromLedger(source, ledger, n - 1, m);
    } else {
      assert m in PageRows(ledger, n);
    }
  }

  lemma WindowFromLedger(source: Source, ledger: seq<Row>, cutoff: string, m: Row)
    requires Truthful(source, ledger) && m in WalkAll(source, cutoff, NOTHING_READ).rows
    ensures m in ledger
  {
    hide WalkAll, SummaryOf, Truthful;
    var w := WalkAll(source, cutoff, NOTHING_READ);
    WalkMeaning(source, cutoff);
    assert w.rows == InWindow(Fetched(source, w.read.pages), cutoff);
    FetchedFromLedger(source, ledger, w.read.pages, m);
  }

  // ── the leg guard never refuses on an honest report ────────────────────────

  /** Every held leg was classified from a row the ledger still has, and its date casts. */
  ghost predicate Grounded(w: World, day: string -> Option<int>) {
    forall k :: k in w.tables.legs ==>
      && LegGrounded(k, w.tables.legs[k])
      && w.tables.legs[k].raw in w.ledger
      && day(w.tables.legs[k].finDate).Some?
  }

  /**
   The ledger only gains rows, at any date; pages may be refused but not falsified; the
   backfill offers rows of the ledger; and one database casts all the dates. Cutoffs,
   loan books, settings and write faults are arbitrary.
   */
  ghost predicate Honest(w: World, e: Event, day: string -> Option<int>) {
    match e
    case Grow(ledger) => forall m :: m in w.ledger ==> m in ledger
    case Merge(inputs) => Truthful(inputs.source, w.ledger) && inputs.env.day == day
    case Hourly(inputs) => Truthful(inputs.source, w.ledger) && inputs.env.day == day
    case GlOnly(inputs) => true
    case Backfill(sweep) => (forall m :: m in Swept(sweep.answers) ==> m in w.ledger) && sweep.env.day == day
  }

  ghost predicate HonestRun(w: World, es: seq<Event>, day: string -> Option<int>) {
    es != [] ==>
      && HonestRun(w, es[..|es| - 1], day)
      && Honest(Run(w, es[..|es| - 1]), es[|es| - 1], day)
  }

  lemma WriteGrounds(w: World, rows: seq<Row>, cutoff: string, loans: LoanIndex, env: Env, fault: Option<nat>)
    requires Grounded(w, env.day) && forall m :: m in rows ==> m in w.ledger
    ensures var written := WrittenLegs(w.tables.legs, LegsOf(rows, loans), cutoff, env, fault);
            written.Success? ==> Grounded(w.(tables := w.tables.(legs := written.value)), env.day)
  {
    hide LegsOf, InsertAll, LegGrounded, GuardLegCount;
    var held, legs := w.tables.legs, LegsOf(rows, loans);
    var written := WrittenLegs(held, legs, cutoff, env, fault);
    if written.Success? && legs != [] {
      InsertAllHolds(held, legs, LegKey);
      forall k | k in written.value
        ensures LegGrounded(k, written.value[k]) && written.value[k].raw in w.ledger
        ensures env.day(written.value[k].finDate).Some?
      {
        LegsGrounded(held, rows, loans, k);
        if k !in held {
          assert written.value[k] in legs;
        }
      }
    }
  }

  lemma StepGrounds(w: World, e: Event, day: string -> Option<int>)
    requires Grounded(w, day) && Honest(w, e, day)
    ensures Grounded(Step(w, e), day)
  {
    hide WalkAll, WrittenLegs, WrittenReceipts, WrittenPostings, Collect, LegsOf, LegGrounded, Truthful;
    match e
    case Grow(ledger) =>
    case GlOnly(inputs) =>
    case Merge(inputs) => WindowGrounds(w, inputs);
    case Hourly(inputs) => WindowGrounds(w, inputs);
    case Backfill(sweep) =>
      if sweep.loans.Success? {
        WriteGrounds(w, Swept(sweep.answers), "", sweep.loans.value, sweep.env, sweep.faults.legs);
      }
  }

  lemma WindowGrounds(w: World, inputs: Inputs)
    requires Grounded(w, inputs.env.day) && Truthful(inputs.source, w.ledger)
    ensures inputs.loans.Success? ==>
              var written := WrittenLegs(w.tables.legs, LegsOf(WindowOf(inputs).rows, inputs.loans.value), inputs.cutoff,
                                         inputs.env, inputs.faults.legs);
              written.Success? ==> Grounded(w.(tables := w.tables.(legs := written.value)), inputs.env.day)
  {
    hide WalkAll, WrittenLegs, LegsOf, Grounded, Truthful;
    forall m | m in WindowOf(inputs).rows
      ensures m in w.ledger
    {
      WindowFromLedger(inputs.source, w.ledger, inputs.cutoff, m);
    }
    if inputs.loans.Success? {
      WriteGrounds(w, WindowOf(inputs).rows, inputs.cutoff, inputs.loans.value, inputs.env, inputs.faults.legs);
    }
  }

  lemma {:induction false} HistoryGrounds(w: World, es: seq<Event>, day: string -> Option<int>)
    requires Grounded(w, day) && HonestRun(w, es, day)
    ensures Grounded(Run(w, es), day)
  {
    hide Grounded, Honest, Step;
    if es != [] {
      HistoryGrounds(w, es[..|es| - 1], day);
      StepGrounds(Run(w, es[..|es| - 1]), es[|es| - 1], day);
    }
  }

  /** The report's dates are written so that no held date at or after the cutoff sorts below it as text. */
  ghost predicate DatesAgree(ledger: seq<Row>, cutoff: string, day: string -> Option<int>) {
    day(cutoff).Some? &&
    forall m :: m in ledger && day(m.financialDate).Some? && day(m.financialDate).value >= day(cutoff).value ==>
      AtLeast(m.financialDate, cutoff)
  }

  /** At least as many legs are classified from the window as are held for it. */
  lemma WindowCoversHeld(w: World, cutoff: string, loans: LoanIndex, env: Env)
    requires Grounded(w, env.day) && DatesAgree(w.ledger, cutoff, env.day)
    ensures |HeldFrom(w.tables.legs, env.day(cutoff).value, env)| <= |LegsOf(InWindow(w.ledger, cutoff), loans)|
  {
    hide LegsOf;
    var window := InWindow(w.ledger, cutoff);
    var legs := LegsOf(window, loans);
    var held := HeldFrom(w.tables.legs, env.day(cutoff).value, env);
    forall k | k in held
      ensures k in KeysOf(legs, LegKey)
    {
      var leg := w.tables.legs[k];
      LegDate(leg);
      assert leg.raw in window;
      WindowOffers(window, loans, leg);
    }
    SubsetSize(held, KeysOf(legs, LegKey));
    KeysBounded(legs, LegKey);
  }

  lemma LegDate(leg: Leg)
    requires LegGrounded(leg.key, leg)
    ensures leg.finDate == leg.raw.financialDate
  {
    hide KeyOf, CodeOf, ComponentOf, IsReversal, Kobo.Parse;
  }

  lemma WindowOffers(window: seq<Row>, loans: LoanIndex, leg: Leg)
    requires LegGrounded(leg.key, leg) && leg.raw in window
    ensures leg.key in KeysOf(LegsOf(window, loans), LegKey)
  {
    hide ClassifyLeg, Resolve, Collect;
    CollectMembers(window, ClassifyLeg);
    var classified := Collect(window, ClassifyLeg);
    var plain := leg.(loanAccount := "");
    assert plain in classified;
    var i :| 0 <= i < |classified| && classified[i] == plain;
    assert LegsOf(window, loans)[i].key == leg.key;
    assert LegsOf(window, loans)[i] in LegsOf(window, loans);
  }

  lemma {:induction false} SubsetSize<T>(a: set<T>, b: set<T>)
    requires a <= b
    ensures |a| <= |b|
  {
    if a != {} {
      var x :| x in a;
      SubsetSize(a - {x}, b - {x});
    }
  }

  /**
   Over any honest history from empty tables, with runs, backfills, late rows, failed
   fetches and rolled-back writes in any order, the next run over a date-descending
   report is never refused by the leg guard, whatever the settings, as long as its window
   holds at most 30,000 rows.
   */
  lemma GuardNeverRefuses(ledger: seq<Row>, es: seq<Event>, inputs: Inputs)
    requires HonestRun(World(ledger, NO_TABLES), es, inputs.env.day)
    requires var now := Run(World(ledger, NO_TABLES), es).ledger;
             && Descending(now) && Serves(inputs.source, now)
             && |InWindow(now, inputs.cutoff)| <= 30_000
             && DatesAgree(now, inputs.cutoff, inputs.env.day)
    requires inputs.loans.Success?
    ensures var w := Run(World(ledger, NO_TABLES), es);
            var legs := LegsOf(WindowOf(inputs).rows, inputs.loans.value);
            && |HeldFrom(w.tables.legs, inputs.env.day(inputs.cutoff).value, inputs.env)| <= |legs|
            && GuardLegCount(w.tables.legs, |legs|, inputs.cutoff, inputs.env) == None
            && RepaymentJob(w.tables, inputs).1 != Some(GuardRefused)
            && MergedJob(w.tables, inputs).repError != Some(GuardRefused)
  {
    hide Grounded, HonestRun, Step, Serves, DatesAgree, HeldFrom, LegsOf, WalkAll, Descending;
    var start := World(ledger, NO_TABLES);
    NothingIsGrounded(ledger, inputs.env.day);
    HistoryGrounds(start, es, inputs.env.day);
    var w := Run(start, es);
    HonestWindow(inputs.source, w.ledger, inputs.cutoff);
    WindowCoversHeld(w, inputs.cutoff, inputs.loans.value, inputs.env);
    CutoffCasts(w.ledger, inputs.cutoff, inputs.env.day);
    PassedGuard(w.tables, inputs);
  }

  lemma PassedGuard(t: Tables, inputs: Inputs)
    requires inputs.loans.Success?
    requires GuardLegCount(t.legs, |LegsOf(WindowOf(inputs).rows, inputs.loans.value)|, inputs.cutoff, inputs.env) == None
    ensures RepaymentJob(t, inputs).1 != Some(GuardRefused) && MergedJob(t, inputs).repError != Some(GuardRefused)
  {
    hide WalkAll, LegsOf, GuardLegCount, WrittenReceipts, WrittenPostings, Collect;
  }

  lemma NothingIsGrounded(ledger: seq<Row>, day: string -> Option<int>)
    ensures Grounded(World(ledger, NO_TABLES), day)
  {
  }

  lemma CutoffCasts(ledger: seq<Row>, cutoff: string, day: string -> Option<int>)
    requires DatesAgree(ledger, cutoff, day)
    ensures day(cutoff).Some?
  {
  }

  /** Dates cast in calendar order, whatever time follows them. */
  ghost predicate CastsInOrder(day: string -> Option<int>) {
    forall a: LedgerDates.Date, b: LedgerDates.Date, x: string, y: string ::
      InOrderAt(day, a, x, b, y)
  }

  ghost predicate InOrderAt(day: string -> Option<int>, a: LedgerDates.Date, x: string, b: LedgerDates.Date, y: string) {
    var s, t := LedgerDates.Iso(a) + x, LedgerDates.Iso(b) + y;
    LedgerDates.Writable(a) && LedgerDates.Writable(b) && day(s).Some? && day(t).Some? && day(s).value >= day(t).value ==>
      !LedgerDates.Earlier(a, b)
  }

  ghost predicate Dated(m: Row) {
    exists d: LedgerDates.Date, time: string :: LedgerDates.Writable(d) && m.financialDate == LedgerDates.Iso(d) + time
  }

  /** What the guard is asked for holds of any report that writes its dates as YYYY-MM-DD. */
  lemma IsoDatesAgree(ledger: seq<Row>, cutoff: LedgerDates.Date, day: string -> Option<int>)
    requires LedgerDates.Writable(cutoff) && day(LedgerDates.Iso(cutoff)).Some?
    requires CastsInOrder(day) && forall m :: m in ledger ==> Dated(m)
    ensures DatesAgree(ledger, LedgerDates.Iso(cutoff), day)
  {
    hide Below, LedgerDates.Iso;
    var c := LedgerDates.Iso(cutoff);
    forall m | m in ledger && day(m.financialDate).Some? && day(m.financialDate).value >= day(c).value
      ensures AtLeast(m.financialDate, c)
    {
      assert Dated(m);
      var d, time :| LedgerDates.Writable(d) && m.financialDate == LedgerDates.Iso(d) + time;
      assert InOrderAt(day, d, time, cutoff, "");
      assert c + "" == c;
      LedgerDates.WindowIsByDate([m], m, d, time, cutoff);
      assert m in InWindow([m], c);
    }
  }

  // ── how a run ends ─────────────────────────────────────────────────────────

  /** How the repayment side ends once its window is read. */
  ghost function LegsEnd(t: Tables, inputs: Inputs): Option<CaptureError> {
    var legs := OfferedLegs(inputs);
    if TooFew(t.legs, |legs|, inputs.cutoff, inputs.env) then Some(GuardRefused)
    else if inputs.cutoff != "" && inputs.env.day(inputs.cutoff).None? then Some(DatabaseFailed)
    else if legs != [] && (inputs.faults.legs.Some? || exists leg :: leg in legs && inputs.env.day(leg.finDate).None?)
    then Some(DatabaseFailed)
    else None
  }

  ghost function PostingsEnd(inputs: Inputs): Option<CaptureError> {
    var postings := OfferedPostings(inputs);
    if postings != [] &&
       (inputs.faults.gl.Some? || exists p :: p in postings && (inputs.env.day(p.finDate).None? || p.amountKobo < 0))
    then Some(DatabaseFailed)
    else None
  }

  /** What ends a run before it writes anything: the schema, the loan book, or the fetch. */
  ghost function EndsEarly(inputs: Inputs): Option<CaptureError> {
    if !inputs.schemaOk then Some(SchemaMissing)
    else if inputs.loans.Failure? then Some(inputs.loans.error)
    else if WindowOf(inputs).error.Some? then Some(WalkFailed(WindowOf(inputs).error.value))
    else None
  }

  lemma LegsEndExact(t: Tables, inputs: Inputs)
    requires inputs.loans.Success?
    ensures AppliedRepayments(t, WindowOf(inputs).rows, inputs.cutoff, inputs.loans.value, inputs.env, inputs.faults).1 ==
            LegsEnd(t, inputs)
  {
    hide WalkAll, LegsOf, GuardLegCount, TooFew, InsertAll, WrittenReceipts;
    GuardExact(t.legs, |OfferedLegs(inputs)|, inputs.cutoff, inputs.env);
    var legs := OfferedLegs(inputs);
    if Castable(legs, inputs.env) {
    } else {
      var i :| 0 <= i < |legs| && inputs.env.day(legs[i].finDate).None?;
      assert legs[i] in legs;
    }
  }

  lemma PostingsEndExact(t: Tables, inputs: Inputs)
    ensures AppliedPostings(t, WindowOf(inputs).rows, inputs.env, inputs.faults).1 == PostingsEnd(inputs)
  {
    hide WalkAll, Collect, InsertAll;
    var postings := OfferedPostings(inputs);
    if TakesAll(postings, inputs.env) {
    } else {
      var i :| 0 <= i < |postings| && !Takes(postings[i], inputs.env);
      assert postings[i] in postings;
    }
  }

  /**
   Exactly how each job ends. In particular a run is refused by the leg guard if and only if
   its window could be read and offers too few legs for those held since its cutoff.
   */
  lemma RunEndsExactly(t: Tables, inputs: Inputs)
    ensures RepaymentJob(t, inputs).1 == if EndsEarly(inputs).Some? then EndsEarly(inputs) else LegsEnd(t, inputs)
    ensures MergedJob(t, inputs).repError == if EndsEarly(inputs).Some? then EndsEarly(inputs) else LegsEnd(t, inputs)
    ensures MergedJob(t, inputs).glError == if EndsEarly(inputs).Some? then EndsEarly(inputs) else PostingsEnd(inputs)
    ensures GlJob(t, inputs).1 ==
            if WindowOf(inputs).error.Some? then Some(WalkFailed(WindowOf(inputs).error.value)) else PostingsEnd(inputs)
  {
    hide WalkAll, AppliedRepayments, AppliedPostings, LegsEnd, PostingsEnd, OfferedLegs, OfferedPostings;
    PostingsEndExact(t, inputs);
    if inputs.loans.Success? {
      LegsEndExact(t, inputs);
      if EndsEarly(inputs) == None {
        SameLegsEnd(t, AppliedPostings(t, WindowOf(inputs).rows, inputs.env, inputs.faults).0, inputs);
      }
    }
  }

  lemma SameLegsEnd(t: Tables, u: Tables, inputs: Inputs)
    requires inputs.loans.Success?
    ensures u == AppliedPostings(t, WindowOf(inputs).rows, inputs.env, inputs.faults).0 ==>
              AppliedRepayments(u, WindowOf(inputs).rows, inputs.cutoff, inputs.loans.value, inputs.env, inputs.faults).1 ==
              LegsEnd(t, inputs)
  {
    hide WalkAll, AppliedRepayments, LegsEnd, Collect, WrittenPostings;
    LegsEndExact(u, inputs);
    if u == AppliedPostings(t, WindowOf(inputs).rows, inputs.env, inputs.faults).0 {
      SameLegs(t, u, inputs);
    }
  }

  lemma SameLegs(t: Tables, u: Tables, inputs: Inputs)
    requires t.legs == u.legs
    ensures LegsEnd(t, inputs) == LegsEnd(u, inputs)
  {
    hide OfferedLegs, TooFew;
  }

  /** A run that gets as far as writing inserts its receipts up to the first whose date does not cast or which the database fails. */
  lemma ReceiptsReachedExact(inputs: Inputs)
    ensures var rs, n := OfferedReceipts(inputs), ReceiptsReached(inputs);
            && (EndsEarly(inputs).Some? ==> n == 0)
            && (forall i :: 0 <= i < n ==> inputs.faults.receipts != Some(i) && inputs.env.day(rs[i].finDate).Some?)
            && (EndsEarly(inputs) == None && n < |rs| ==>
                  inputs.faults.receipts == Some(n) || inputs.env.day(rs[n].finDate).None?)
  {
    hide WalkAll, Collect, ReceiptsRun;
    if EndsEarly(inputs) == None {
      var rs, n := OfferedReceipts(inputs), ReceiptsReached(inputs);
      forall i | 0 <= i < n
        ensures inputs.faults.receipts != Some(i) && inputs.env.day(rs[i].finDate).Some?
      {
        assert !ReceiptFails(rs, i, inputs.env, inputs.faults.receipts);
      }
    }
  }

  /** And the backfill, which has no cutoff and so no guard. */
  lemma BackfillEndsExactly(t: Tables, b: Sweep)
    ensures BackfillJob(t, b).1 ==
            if !b.schemaOk then Some(SchemaMissing)
            else if b.loans.Failure? then Some(b.loans.error)
            else if b.answers == [] then Some(NoLinkedAccounts)
            else
              var legs := Offered(Backfill(b)).legs;
              if legs != [] && (b.faults.legs.Some? || exists leg :: leg in legs && b.env.day(leg.finDate).None?)
              then Some(DatabaseFailed)
              else None
  {
    hide LegsOf, Swept, GuardLegCount, TooFew, InsertAll;
    var legs := Offered(Backfill(b)).legs;
    GuardExact(t.legs, |legs|, "", b.env);
    BackfillGuardless(t.legs, |legs|, b.env);
    if !Castable(legs, b.env) {
      var i :| 0 <= i < |legs| && b.env.day(legs[i].finDate).None?;
      assert legs[i] in legs;
    }
  }

  lemma BackfillGuardless(held: map<LedgerKey, Leg>, incoming: nat, env: Env)
    ensures !TooFew(held, incoming, "", env)
  {
  }

  /**
   A gutted window is never written: after any history, under the default thresholds, a run
   whose window offers over two and over a quarter fewer legs than are held since its cutoff
   ends in the guard's refusal or earlier, and leaves every leg as it was.
   */
  lemma ShortWindowRefused(w: World, es: seq<Event>, inputs: Inputs)
    requires inputs.env.shrink == ShrinkGuard.DEFAULTS
    requires inputs.cutoff != "" && inputs.env.day(inputs.cutoff).Some?
    requires var held := HeldSince(Run(w, es).tables.legs, inputs.env.day(inputs.cutoff).value, inputs.env.day);
             |OfferedLegs(inputs)| + 2 < held && 4 * |OfferedLegs(inputs)| < 3 * held
    ensures var t := Run(w, es).tables;
            && RepaymentJob(t, inputs).0.legs == t.legs && MergedJob(t, inputs).tables.legs == t.legs
            && (EndsEarly(inputs) == None ==>
                  RepaymentJob(t, inputs).1 == Some(GuardRefused) && MergedJob(t, inputs).repError == Some(GuardRefused))
  {
    hide Run, RepaymentJob, MergedJob, HeldSince, OfferedLegs, OfferedReceipts, OfferedPostings, ReceiptsReached, InsertAll, EndsEarly, ShrinkGuard.TooFar;
    var t := Run(w, es).tables;
    ShrinkGuard.DefaultTooFar(HeldSince(t.legs, inputs.env.day(inputs.cutoff).value, inputs.env.day), |OfferedLegs(inputs)|);
    assert LegsEnd(t, inputs) == Some(GuardRefused);
    RunEndsExactly(t, inputs);
    RepaymentInserts(t, inputs);
    MergeInserts(t, inputs);
    InsertNone(t.legs, LegKey);
  }

  // ── the two ledgers agree ──────────────────────────────────────────────────

  /** The GL posting of a repayment leg: same entry, debit side, the leg's absolute amount. */
  ghost predicate Mirrors(leg: Leg, p: Posting) {
    && p.postingRef == leg.postingRef
    && p.accountNum == leg.casaAccount
    && p.entryCode == leg.entryCode
    && TrimSpace(p.finDate) == TrimSpace(leg.finDate)
    && p.side == Debit
    && p.amountKobo == Kobo.Abs(leg.amountKobo)
  }

  /** Every held leg has its posting under the same key, and both come from ledger rows. */
  ghost predicate Paired(t: Tables) {
    && (forall k :: k in t.legs ==> LegGrounded(k, t.legs[k]) && GlKey(k, Debit) in t.gl)
    && (forall k :: k in t.gl ==> PostingGrounded(k, t.gl[k]))
  }

  lemma GroundedPairMirrors(k: LedgerKey, leg: Leg, p: Posting)
    requires LegGrounded(k, leg) && PostingGrounded(GlKey(k, Debit), p)
    ensures Mirrors(leg, p)
  {
    hide CodeOf, ComponentOf, IsReversal, SideOf, TrimSpace, NarrationTail, Kobo.Parse, Kobo.Wrap;
    Kobo.ParseTrim(leg.raw.amount);
    Kobo.ParseTrim(p.raw.amount);
    assert KeyOf(leg.raw) == KeyOf(p.raw);
    var a := Kobo.Parse(leg.raw.amount).value;
    assert Kobo.Parse(p.raw.amount).value == a;
    Kobo.ParsedRange(leg.raw.amount);
    Kobo.WrapNegated(a);
  }

  /** A row that is a repayment leg is a GL posting too, on the debit side. */
  lemma LegRowPosts(m: Row)
    requires ClassifyLeg(m).Some?
    ensures ClassifyPosting(m).Some? && ClassifyPosting(m).value.key == GlKey(KeyOf(m), Debit)
  {
    hide CodeOf, ComponentOf, IsReversal, SideOf, TrimSpace, NarrationTail, Kobo.Parse, Kobo.Wrap;
    AcceptedIsDebit(CodeOf(m));
    Kobo.ParsedRange(m.amount);
    Kobo.WrapNegated(Kobo.Parse(m.amount).value);
  }

  lemma PostingsGrounded(held: map<GlKey, Posting>, rows: seq<Row>, env: Env, fault: Option<nat>)
    requires forall k :: k in held ==> PostingGrounded(k, held[k])
    ensures var written := WrittenPostings(held, Collect(rows, ClassifyPosting), env, fault);
            written.Success? ==> forall k :: k in written.value ==> PostingGrounded(k, written.value[k])
  {
    hide Collect, InsertAll, ClassifyPosting, PostingGrounded, Takes;
    var ps := Collect(rows, ClassifyPosting);
    var written := WrittenPostings(held, ps, env, fault);
    InsertAllHolds(held, ps, PostingKey);
    if written.Success? {
      forall k | k in written.value && k !in held
        ensures PostingGrounded(k, written.value[k])
      {
        NewPostingGrounded(ps, rows, env, written.value[k]);
      }
    }
  }

  lemma PostingsCover(held: map<GlKey, Posting>, rows: seq<Row>, env: Env, fault: Option<nat>)
    ensures var written := WrittenPostings(held, Collect(rows, ClassifyPosting), env, fault);
            written.Success? ==>
              && held.Keys <= written.value.Keys
              && forall m :: m in rows && ClassifyLeg(m).Some? ==> GlKey(KeyOf(m), Debit) in written.value
  {
    hide Collect, InsertAll, ClassifyLeg, ClassifyPosting, KeyOf, TakesAll;
    var ps := Collect(rows, ClassifyPosting);
    var written := WrittenPostings(held, ps, env, fault);
    CollectMembers(rows, ClassifyPosting);
    InsertAllHolds(held, ps, PostingKey);
    if written.Success? {
      forall m | m in rows && ClassifyLeg(m).Some?
        ensures GlKey(KeyOf(m), Debit) in written.value
      {
        LegRowPosts(m);
        var p := ClassifyPosting(m).value;
        assert p in ps && PostingKey(p) in KeysOf(ps, PostingKey);
      }
    }
  }

  lemma NewPostingGrounded(ps: seq<Posting>, rows: seq<Row>, env: Env, p: Posting)
    requires p in ps && TakesAll(ps, env)
    requires ps == Collect(rows, ClassifyPosting)
    ensures PostingGrounded(p.key, p)
  {
    hide Collect, GlKeyOf, CodeOf, SideOf, TrimSpace, NarrationTail, Kobo.Parse, Magnitude;
    CollectMembers(rows, ClassifyPosting);
    var m :| m in rows && ClassifyPosting(m) == Some(p);
    assert p.raw == m;
  }

  /** A merged run, whatever else fails, in which the database does not fail the GL write. */
  ghost predicate GlWritten(t: Tables, inputs: Inputs) {
    MergedJob(t, inputs).glError != Some(DatabaseFailed)
  }

  lemma MergePairs(t: Tables, inputs: Inputs)
    requires Paired(t) && GlWritten(t, inputs)
    ensures Paired(MergedJob(t, inputs).tables)
  {
    hide WalkAll, WrittenReceipts, LegsOf, Collect, WrittenLegs, WrittenPostings, LegGrounded, PostingGrounded, ClassifyLeg, KeyOf;
    var w := WindowOf(inputs);
    if Precheck(inputs) == None && w.error == None {
      PostingsGrounded(t.gl, w.rows, inputs.env, inputs.faults.gl);
      PostingsCover(t.gl, w.rows, inputs.env, inputs.faults.gl);
      LegsPair(t, w.rows, inputs);
      PostingsFailure(t.gl, Collect(w.rows, ClassifyPosting), inputs.env, inputs.faults.gl);
    }
  }

  lemma PostingsFailure(held: map<GlKey, Posting>, ps: seq<Posting>, env: Env, fault: Option<nat>)
    ensures WrittenPostings(held, ps, env, fault).Failure? ==>
              WrittenPostings(held, ps, env, fault).error == DatabaseFailed
  {
  }

  /** A leg the run holds was held before, or is a row of this window. */
  lemma LegsPair(t: Tables, rows: seq<Row>, inputs: Inputs)
    requires inputs.loans.Success?
    requires forall k :: k in t.legs ==> LegGrounded(k, t.legs[k])
    ensures var written := WrittenLegs(t.legs, LegsOf(rows, inputs.loans.value), inputs.cutoff, inputs.env, inputs.faults.legs);
            written.Success? ==> forall k :: k in written.value ==>
              && LegGrounded(k, written.value[k])
              && (k in t.legs || exists m :: m in rows && ClassifyLeg(m).Some? && KeyOf(m) == k)
  {
    hide LegsOf, InsertAll, GuardLegCount, Castable, LegGrounded, ClassifyLeg, KeyOf;
    var written := WrittenLegs(t.legs, LegsOf(rows, inputs.loans.value), inputs.cutoff, inputs.env, inputs.faults.legs);
    if written.Success? && LegsOf(rows, inputs.loans.value) != [] {
      forall k | k in written.value
        ensures LegGrounded(k, written.value[k])
        ensures k in t.legs || exists m :: m in rows && ClassifyLeg(m).Some? && KeyOf(m) == k
      {
        LegsGrounded(t.legs, rows, inputs.loans.value, k);
        if !(k in t.legs && written.value[k] == t.legs[k]) {
          GroundedKey(k, written.value[k]);
        }
      }
    }
  }

  lemma GroundedKey(k: LedgerKey, leg: Leg)
    requires LegGrounded(k, leg)
    ensures ClassifyLeg(leg.raw).Some? && KeyOf(leg.raw) == k
  {
    hide KeyOf, CodeOf, ComponentOf, IsReversal, Kobo.Parse;
  }

  function AfterMerges(t: Tables, runs: seq<Inputs>): Tables {
    if runs == [] then t else MergedJob(AfterMerges(t, runs[..|runs| - 1]), runs[|runs| - 1]).tables
  }

  ghost predicate GlAlwaysWritten(t: Tables, runs: seq<Inputs>) {
    runs != [] ==>
      && GlAlwaysWritten(t, runs[..|runs| - 1])
      && GlWritten(AfterMerges(t, runs[..|runs| - 1]), runs[|runs| - 1])
  }

  lemma {:induction false} MergesPair(t: Tables, runs: seq<Inputs>)
    requires Paired(t) && GlAlwaysWritten(t, runs)
    ensures Paired(AfterMerges(t, runs))
  {
    hide Paired, GlWritten, MergedJob;
    if runs != [] {
      MergesPair(t, runs[..|runs| - 1]);
      MergePairs(AfterMerges(t, runs[..|runs| - 1]), runs[|runs| - 1]);
    }
  }

  /**
   In every history of merged runs from empty tables, from any report whatever, in which
   no GL write fails, each held leg has its posting in the GL table.
   */
  lemma LedgersAgree(runs: seq<Inputs>, k: LedgerKey)
    requires GlAlwaysWritten(NO_TABLES, runs) && k in AfterMerges(NO_TABLES, runs).legs
    ensures var t := AfterMerges(NO_TABLES, runs);
            GlKey(k, Debit) in t.gl && Mirrors(t.legs[k], t.gl[GlKey(k, Debit)])
  {
    hide LegGrounded, PostingGrounded, Mirrors, GlAlwaysWritten, AfterMerges;
    assert Paired(NO_TABLES);
    MergesPair(NO_TABLES, runs);
    var t := AfterMerges(NO_TABLES, runs);
    GroundedPairMirrors(k, t.legs[k], t.gl[GlKey(k, Debit)]);
  }
}
