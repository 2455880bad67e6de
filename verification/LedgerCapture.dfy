/**
 The capture jobs over the three tables of the mirror: the two standalone jobs, the
 merged job that fetches once and writes twice, and the one-off backfill.
 */
module LedgerCapture {
  import opened Wrappers
  import opened Text
  import opened Sequences
  import opened CallOver
  import opened InsertOnly
  import opened Repayments
  import opened GlPostings

  /** The contents of the three capture tables. */
  datatype Tables = Tables(
    legs: map<LedgerKey, Leg>,
    receipts: map<LedgerKey, Receipt>,
    gl: map<GlKey, Posting>)

  /** For each of the three writers, the statement of this run the database fails, if any. */
  datatype Faults = Faults(receipts: Option<nat>, legs: Option<nat>, gl: Option<nat>)

  /** Everything a run reads that is not a table of the mirror. */
  datatype Inputs = Inputs(
    source: Source,
    cutoff: string,
    schemaOk: bool,
    loans: Result<LoanIndex, CaptureError>,
    env: Env,
    faults: Faults)

  // ── what each writer leaves behind ─────────────────────────────────────────

  function ReceiptKey(r: Receipt): LedgerKey {
    r.key
  }

  predicate ReceiptFails(rs: seq<Receipt>, i: nat, env: Env, fault: Option<nat>)
    requires i < |rs|
  {
    fault == Some(i) || env.day(rs[i].finDate).None?
  }

  /** The number of receipt statements that run before the first failing one. */
  function ReceiptsRun(rs: seq<Receipt>, from: nat, env: Env, fault: Option<nat>): (n: nat)
    requires from <= |rs|
    ensures from <= n <= |rs|
    ensures forall i :: from <= i < n ==> !ReceiptFails(rs, i, env, fault)
    ensures n < |rs| ==> ReceiptFails(rs, n, env, fault)
    decreases |rs| - from
  {
    if from == |rs| || ReceiptFails(rs, from, env, fault) then from
    else ReceiptsRun(rs, from + 1, env, fault)
  }

  lemma ReceiptsStep(rs: seq<Receipt>, i: nat, env: Env, fault: Option<nat>)
    requires i < |rs|
    ensures ReceiptsRun(rs, i, env, fault) ==
            if fault == Some(i) || env.day(rs[i].finDate).None? then i else ReceiptsRun(rs, i + 1, env, fault)
  {
  }

  /** Receipts are not in a transaction: those before the first failure stay written. */
  function WrittenReceipts(held: map<LedgerKey, Receipt>, rs: seq<Receipt>, env: Env, fault: Option<nat>)
    : map<LedgerKey, Receipt>
  {
    InsertAll(held, rs[..ReceiptsRun(rs, 0, env, fault)], ReceiptKey)
  }

  /** classifyLegs and resolveLegs, one after the other. */
  function LegsOf(rows: seq<Row>, loans: LoanIndex): seq<Leg> {
    Resolved(Collect(rows, ClassifyLeg), loans)
  }

  /** applyRepaymentRows: the tables it leaves, and its error. */
  function AppliedRepayments(t: Tables, rows: seq<Row>, cutoff: string, loans: LoanIndex, env: Env, faults: Faults)
    : (Tables, Option<CaptureError>)
  {
    var receipts := WrittenReceipts(t.receipts, Collect(rows, ClassifyReceipt), env, faults.receipts);
    match WrittenLegs(t.legs, LegsOf(rows, loans), cutoff, env, faults.legs)
    case Success(legs) => (t.(receipts := receipts, legs := legs), None)
    case Failure(e) => (t.(receipts := receipts), Some(e))
  }

  /** applyGLRows */
  function AppliedPostings(t: Tables, rows: seq<Row>, env: Env, faults: Faults): (Tables, Option<CaptureError>) {
    match WrittenPostings(t.gl, Collect(rows, ClassifyPosting), env, faults.gl)
    case Success(gl) => (t.(gl := gl), None)
    case Failure(e) => (t, Some(e))
  }

  // ── the jobs ───────────────────────────────────────────────────────────────

  function WindowOf(inputs: Inputs): Walk {
    WalkAll(inputs.source, inputs.cutoff, NOTHING_READ)
  }

  /** The checks a repayment run makes before fetching. */
  function Precheck(inputs: Inputs): Option<CaptureError> {
    if !inputs.schemaOk then Some(SchemaMissing)
    else if inputs.loans.Failure? then Some(inputs.loans.error)
    else None
  }

  /** SyncRepayments */
  function RepaymentJob(t: Tables, inputs: Inputs): (Tables, Option<CaptureError>) {
    var w := WindowOf(inputs);
    if Precheck(inputs).Some? then (t, Precheck(inputs))
    else if w.error.Some? then (t, Some(WalkFailed(w.error.value)))
    else AppliedRepayments(t, w.rows, inputs.cutoff, inputs.loans.value, inputs.env, inputs.faults)
  }

  /** SyncGLPostings */
  function GlJob(t: Tables, inputs: Inputs): (Tables, Option<CaptureError>) {
    var w := WindowOf(inputs);
    if w.error.Some? then (t, Some(WalkFailed(w.error.value)))
    else AppliedPostings(t, w.rows, inputs.env, inputs.faults)
  }

  datatype Merged = Merged(tables: Tables, glError: Option<CaptureError>, repError: Option<CaptureError>)

  /** SyncLedgerCaptures; a failure before the writes is an error of both sides. */
  function MergedJob(t: Tables, inputs: Inputs): Merged {
    var w := WindowOf(inputs);
    if Precheck(inputs).Some? then Merged(t, Precheck(inputs), Precheck(inputs))
    else if w.error.Some? then Merged(t, Some(WalkFailed(w.error.value)), Some(WalkFailed(w.error.value)))
    else
      var (t1, glError) := AppliedPostings(t, w.rows, inputs.env, inputs.faults);
      var (t2, repError) := AppliedRepayments(t1, w.rows, inputs.cutoff, inputs.loans.value, inputs.env, inputs.faults);
      Merged(t2, glError, repError)
  }

  /** What the one-off backfill reads: one answer for each linked account. */
  datatype Sweep = Sweep(
    schemaOk: bool,
    loans: Result<LoanIndex, CaptureError>,
    answers: seq<Fetch>,
    env: Env,
    faults: Faults)

  /** The rows of the accounts that answered. */
  function Swept(answers: seq<Fetch>): seq<Row> {
    if answers == [] then []
    else
      var last := answers[|answers| - 1];
      Swept(answers[..|answers| - 1]) + if last.Page? then last.rows else []
  }

  predicate Answers(answer: Fetch) {
    answer.Page?
  }

  function BackfillPrecheck(b: Sweep): Option<CaptureError> {
    if !b.schemaOk then Some(SchemaMissing)
    else if b.loans.Failure? then Some(b.loans.error)
    else if b.answers == [] then Some(NoLinkedAccounts)
    else None
  }

  /** BackfillRepayments: no cutoff, no receipts, no GL. */
  function BackfillJob(t: Tables, b: Sweep): (Tables, Option<CaptureError>) {
    if BackfillPrecheck(b).Some? then (t, BackfillPrecheck(b))
    else
      match WrittenLegs(t.legs, LegsOf(Swept(b.answers), b.loans.value), "", b.env, b.faults.legs)
      case Success(legs) => (t.(legs := legs), None)
      case Failure(e) => (t, Some(e))
  }

  /** The counters of a repayment run when it comes to write its legs. */
  function ReportBefore(t: Tables, rows: seq<Row>, read: Summary, loans: LoanIndex, env: Env, faults: Faults)
    : (res: RepaymentResult)
    ensures res.inserted == res.duplicate == 0 && res.principalKobo == res.interestKobo == 0
  {
    var rs := Collect(rows, ClassifyReceipt);
    RepaymentResult(read, Count(rows, IsLegRow), 0, 0, Unmatched(Collect(rows, ClassifyLeg), loans), 0, 0,
                    if ReceiptsRun(rs, 0, env, faults.receipts) == |rs| then |Fresh(t.receipts, rs, ReceiptKey)| else 0)
  }

  /** What a repayment run that succeeded reports. */
  function RepaymentReport(t: Tables, rows: seq<Row>, read: Summary, loans: LoanIndex, env: Env, faults: Faults)
    : RepaymentResult
  {
    Counted(ReportBefore(t, rows, read, loans, env, faults), t.legs, LegsOf(rows, loans))
  }

  /** The counters of a backfill when it comes to write its legs. */
  function BackfillBefore(b: Sweep, loans: LoanIndex): (res: RepaymentResult)
    ensures res.inserted == res.duplicate == 0 && res.principalKobo == res.interestKobo == 0
  {
    var rows := Swept(b.answers);
    var (o, n) := Tracked(rows, "", "");
    RepaymentResult(Summary(Count(b.answers, Answers), |rows|, o, n), Count(rows, IsLegRow), 0, 0,
                    Unmatched(Collect(rows, ClassifyLeg), loans), 0, 0, 0)
  }

  /** What a backfill that succeeded reports. */
  function BackfillReport(t: Tables, b: Sweep): RepaymentResult
    requires b.loans.Success?
  {
    Counted(BackfillBefore(b, b.loans.value), t.legs, LegsOf(Swept(b.answers), b.loans.value))
  }

  lemma {:induction false} SweptConcat(a: seq<Fetch>, b: seq<Fetch>)
    ensures Swept(a + b) == Swept(a) + Swept(b)
  {
    if b == [] {
      assert a + b == a;
    } else {
      assert (a + b)[..|a + b| - 1] == a + b[..|b| - 1];
      SweptConcat(a, b[..|b| - 1]);
    }
  }

  /** The sweep gathers, in order, the rows of every account that answers, and nothing for one that does not. */
  lemma SweptExact(before: seq<Fetch>, answer: Fetch, after: seq<Fetch>)
    ensures Swept(before + [answer] + after) ==
            Swept(before) + (if answer == Unavailable then [] else answer.rows) + Swept(after)
  {
    SweptConcat(before + [answer], after);
    SweptConcat(before, [answer]);
    assert [answer][..0] == [];
  }

  /** The pages a backfill reports are the accounts that answered. */
  lemma {:induction false} PagesExact(answers: seq<Fetch>)
    ensures Count(answers, Answers) == |set i | 0 <= i < |answers| && answers[i].Page?|
  {
    if answers != [] {
      var last := |answers| - 1;
      var before := answers[..last];
      PagesExact(before);
      var some := set i | 0 <= i < |before| && before[i].Page?;
      assert (set i | 0 <= i < |answers| && answers[i].Page?) == some + if answers[last].Page? then {last} else {};
    }
  }

  lemma SweptNext(answers: seq<Fetch>, i: nat)
    requires i < |answers|
    ensures Swept(answers[..i + 1]) == Swept(answers[..i]) + if answers[i].Page? then answers[i].rows else []
  {
    assert answers[..i + 1][..i] == answers[..i];
  }

  function GlReport(t: Tables, rows: seq<Row>, read: Summary): GlResult {
    CountedPostings(GlResult(read, 0, 0), t.gl, Collect(rows, ClassifyPosting))
  }

  // ── the three walks, as the source writes them ─────────────────────────────

  method TrackDates(rows: seq<Row>, read: Summary) returns (read': Summary)
    ensures var (o, n) := Tracked(rows, read.oldest, read.newest);
            read' == read.(oldest := o, newest := n)
  {
    hide Below;
    read' := read;
    for i := 0 to |rows|
      invariant var (o, n) := Tracked(rows[..i], read.oldest, read.newest);
                read' == read.(oldest := o, newest := n)
    {
      TrackedNext(rows, i, read.oldest, read.newest);
      var d := rows[i].financialDate;
      if d == "" {
        continue;
      }
      if read'.oldest == "" || Below(d, read'.oldest) {
        read' := read'.(oldest := d);
      }
      if read'.newest == "" || Below(read'.newest, d) {
        read' := read'.(newest := d);
      }
    }
    assert rows[..|rows|] == rows;
  }

  method FilterPage(rows: seq<Row>, cutoff: string) returns (kept: seq<Row>)
    ensures kept == InWindow(rows, cutoff)
  {
    hide AtLeast;
    kept := [];
    for i := 0 to |rows|
      invariant kept == InWindow(rows[..i], cutoff)
    {
      InWindowNext(rows, i, cutoff);
      if AtLeast(rows[i].financialDate, cutoff) {
        kept := kept + [rows[i]];
      }
    }
    assert rows[..|rows|] == rows;
  }

  /** The one-pass page loop shared by the merged walk and the GL walk. */
  method ScanPage(rows: seq<Row>, cutoff: string, read: Summary) returns (kept: seq<Row>, read': Summary)
    ensures kept == InWindow(rows, cutoff)
    ensures var (o, n) := Tracked(rows, read.oldest, read.newest);
            read' == read.(oldest := o, newest := n)
  {
    hide Below, AtLeast;
    kept, read' := [], read;
    for i := 0 to |rows|
      invariant kept == InWindow(rows[..i], cutoff)
      invariant var (o, n) := Tracked(rows[..i], read.oldest, read.newest);
                read' == read.(oldest := o, newest := n)
    {
      InWindowNext(rows, i, cutoff);
      TrackedNext(rows, i, read.oldest, read.newest);
      var d := rows[i].financialDate;
      if AtLeast(d, cutoff) {
        kept := kept + [rows[i]];
      }
      if d == "" {
        continue;
      }
      if read'.oldest == "" || Below(d, read'.oldest) {
        read' := read'.(oldest := d);
      }
      if read'.newest == "" || Below(read'.newest, d) {
        read' := read'.(newest := d);
      }
    }
    assert rows[..|rows|] == rows;
  }

  /** A walk as the standalone jobs return it: without rows when it fails. */
  function RowsOnSuccess(w: Walk): Walk {
    if w.error.Some? then w.(rows := []) else w
  }

  /** walkWindow: the window filter and trackDates are two passes over each page. */
  method WalkWindow(source: Source, cutoff: string, read: Summary) returns (w: Walk)
    ensures w == RowsOnSuccess(WalkAll(source, cutoff, read))
  {
    hide Below, AtLeast, Tracked, InWindow, WalkFrom;
    var all, res := [], read;
    for page := 1 to MAX_PAGES + 1
      invariant WalkFrom(source, cutoff, page, all, res) == WalkAll(source, cutoff, read)
    {
      WalkOnward(source, cutoff, page, all, res);
      var answer := source(page);
      if answer.Unavailable? {
        return Walk([], res, Some(FetchFailed));
      }
      var rows := answer.rows;
      if page == 1 && rows == [] {
        return Walk([], res, Some(EmptyFirstPage));
      }
      if rows == [] {
        break;
      }
      res := res.(pages := res.pages + 1, scanned := res.scanned + |rows|);
      var kept := FilterPage(rows, cutoff);
      all := all + kept;
      res := TrackDates(rows, res);
      if |kept| == 0 {
        break;
      }
      if |rows| < PAGE_SIZE {
        break;
      }
    }
    WalkOnward(source, cutoff, MAX_PAGES + 1, all, res);
    return Walk(all, res, None);
  }

  /** walkCallOverOnce: one pass filters and tracks. */
  method WalkCallOverOnce(source: Source, cutoff: string) returns (w: Walk)
    ensures w == WalkAll(source, cutoff, NOTHING_READ)
  {
    hide Below, AtLeast, Tracked, InWindow, WalkFrom;
    var all, res := [], NOTHING_READ;
    for page := 1 to MAX_PAGES + 1
      invariant WalkFrom(source, cutoff, page, all, res) == WalkAll(source, cutoff, NOTHING_READ)
    {
      WalkOnward(source, cutoff, page, all, res);
      var answer := source(page);
      if answer.Unavailable? {
        return Walk(all, res, Some(FetchFailed));
      }
      var rows := answer.rows;
      if page == 1 && rows == [] {
        return Walk(all, res, Some(EmptyFirstPage));
      }
      if rows == [] {
        break;
      }
      var kept, read' := ScanPage(rows, cutoff, res.(pages := res.pages + 1, scanned := res.scanned + |rows|));
      all, res := all + kept, read';
      if |kept| == 0 {
        break;
      }
      if |rows| < PAGE_SIZE {
        break;
      }
    }
    WalkOnward(source, cutoff, MAX_PAGES + 1, all, res);
    return Walk(all, res, None);
  }

  /** glWalkWindow, with its own page size and ceiling. */
  method GlWalkWindow(source: Source, cutoff: string, read: Summary) returns (w: Walk)
    ensures w == RowsOnSuccess(WalkAll(source, cutoff, read))
  {
    hide Below, AtLeast, Tracked, InWindow, WalkFrom;
    var all, res := [], read;
    for page := 1 to GL_MAX_PAGES + 1
      invariant WalkFrom(source, cutoff, page, all, res) == WalkAll(source, cutoff, read)
    {
      WalkOnward(source, cutoff, page, all, res);
      var answer := source(page);
      if answer.Unavailable? {
        return Walk([], res, Some(FetchFailed));
      }
      var rows := answer.rows;
      if page == 1 && rows == [] {
        return Walk([], res, Some(EmptyFirstPage));
      }
      if rows == [] {
        break;
      }
      var kept, read' := ScanPage(rows, cutoff, res.(pages := res.pages + 1, scanned := res.scanned + |rows|));
      all, res := all + kept, read';
      if |kept| == 0 {
        break;
      }
      if |rows| < GL_PAGE_SIZE {
        break;
      }
    }
    WalkOnward(source, cutoff, GL_MAX_PAGES + 1, all, res);
    return Walk(all, res, None);
  }
}
