/**
 The mirror's three tables as the jobs update them. A transaction works on its own copy
 of a table and replaces the table only when it commits.
 */
module Mirror {
  import opened Wrappers
  import opened Sequences
  import opened CallOver
  import opened EntryCodes
  import opened InsertOnly
  import opened Repayments
  import opened GlPostings
  import opened LedgerCapture
  import Kobo

  class Mirror {
    var legs: map<LedgerKey, Leg>
    var receipts: map<LedgerKey, Receipt>
    var gl: map<GlKey, Posting>

    function Held(): Tables
      reads this
    {
      Tables(legs, receipts, gl)
    }

    constructor ()
      ensures Held() == Tables(map[], map[], map[])
    {
      legs, receipts, gl := map[], map[], map[];
    }

    /** The counters for one inserted row. */
    static method Tally(res: RepaymentResult, leg: Leg) returns (res': RepaymentResult)
      ensures res' == TallyOf(res, leg)
    {
      res' := res.(inserted := res.inserted + 1);
      if leg.component == Principal {
        res' := res'.(principalKobo := Kobo.Wrap(res'.principalKobo + leg.amountKobo));
      } else {
        res' := res'.(interestKobo := Kobo.Wrap(res'.interestKobo + leg.amountKobo));
      }
    }

    /** The transaction of writeLegs on its copy of the table: insert-if-absent, then commit. */
    static method InsertLegs(held: map<LedgerKey, Leg>, offered: seq<Leg>, res: RepaymentResult, env: Env, fault: Option<nat>)
      returns (tx: map<LedgerKey, Leg>, res': RepaymentResult, committed: bool)
      ensures committed <==> fault.None? && Castable(offered, env)
      ensures committed ==> tx == InsertAll(held, offered, LegKey) && res' == Counted(res, held, offered)
    {
      CountedNone(res, held);
      hide Counted, InsertAll, TallyOf, Castable, Kobo.Wrap;
      tx, res' := held, res;
      CastableNone(env);
      InsertNone(held, LegKey);
      assert offered[..0] == [];
      for i := 0 to |offered|
        invariant tx == InsertAll(held, offered[..i], LegKey)
        invariant res' == Counted(res, held, offered[..i])
        invariant fault.Some? ==> i <= fault.value
        invariant Castable(offered[..i], env)
      {
        InsertNext(held, offered, i, LegKey);
        CountedNext(res, held, offered, i);
        CastableNext(offered, i, env);
        var leg := offered[i];
        if fault == Some(i) || env.day(leg.finDate).None? {
          return tx, res', false;
        }
        if leg.key in tx {
          res' := res'.(duplicate := res'.duplicate + 1);
          continue;
        }
        tx := tx[leg.key := leg];
        res' := Tally(res', leg);
      }
      assert offered[..|offered|] == offered;
      committed := fault.None?;
    }

    /** writeLegs: the guard, then one transaction. */
    method WriteLegs(offered: seq<Leg>, res: RepaymentResult, cutoff: string, env: Env, fault: Option<nat>)
      returns (res': RepaymentResult, error: Option<CaptureError>)
      modifies this`legs
      ensures match WrittenLegs(old(legs), offered, cutoff, env, fault)
              case Success(table) => error == None && legs == table && res' == Counted(res, old(legs), offered)
              case Failure(e) => error == Some(e) && legs == old(legs)
    {
      CountedNone(res, legs);
      hide GuardLegCount, Counted, InsertAll, Castable;
      res', error := res, GuardLegCount(legs, |offered|, cutoff, env);
      if error.Some? || |offered| == 0 {
        return;
      }
      var tx, committed;
      tx, res', committed := InsertLegs(legs, offered, res, env, fault);
      if committed {
        legs := tx;
      } else {
        error := Some(DatabaseFailed);
      }
    }

    /** writeJournalReceipts: each insert commits on its own. */
    method WriteJournalReceipts(rs: seq<Receipt>, env: Env, fault: Option<nat>)
      returns (written: nat, failed: bool)
      modifies this`receipts
      ensures receipts == WrittenReceipts(old(receipts), rs, env, fault)
      ensures failed <==> ReceiptsRun(rs, 0, env, fault) < |rs|
      ensures !failed ==> written == |Fresh(old(receipts), rs, ReceiptKey)|
    {
      written := 0;
      ghost var held := receipts;
      for i := 0 to |rs|
        invariant receipts == InsertAll(held, rs[..i], ReceiptKey)
        invariant written == |Fresh(held, rs[..i], ReceiptKey)|
        invariant ReceiptsRun(rs, i, env, fault) == ReceiptsRun(rs, 0, env, fault)
      {
        InsertNext(held, rs, i, ReceiptKey);
        ReceiptsStep(rs, i, env, fault);
        var r := rs[i];
        if fault == Some(i) || env.day(r.finDate).None? {
          return written, true;
        }
        if r.key !in receipts {
          receipts := receipts[r.key := r];
          written := written + 1;
        }
      }
      assert rs[..|rs|] == rs;
      failed := false;
    }

    /** The transaction of writeGLPostings on its copy of the table. */
    static method InsertPostings(held: map<GlKey, Posting>, postings: seq<Posting>, res: GlResult, env: Env, fault: Option<nat>)
      returns (tx: map<GlKey, Posting>, res': GlResult, committed: bool)
      ensures committed <==> fault.None? && TakesAll(postings, env)
      ensures committed ==> tx == InsertAll(held, postings, PostingKey) && res' == CountedPostings(res, held, postings)
    {
      hide CountedPostings, InsertAll, Takes;
      tx, res' := held, res;
      InsertNone(held, PostingKey);
      CountedPostingsNone(res, held);
      assert postings[..0] == [];
      for i := 0 to |postings|
        invariant tx == InsertAll(held, postings[..i], PostingKey)
        invariant res' == CountedPostings(res, held, postings[..i])
        invariant fault.Some? ==> i <= fault.value
        invariant TakesAll(postings[..i], env)
      {
        InsertNext(held, postings, i, PostingKey);
        CountedPostingsNext(res, held, postings, i);
        var p := postings[i];
        if fault == Some(i) || !Takes(p, env) {
          return tx, res', false;
        }
        if p.key in tx {
          res' := res'.(duplicate := res'.duplicate + 1);
          continue;
        }
        tx := tx[p.key := p];
        res' := res'.(inserted := res'.inserted + 1);
      }
      assert postings[..|postings|] == postings;
      committed := fault.None?;
    }

    /** writeGLPostings: one transaction, no guard. */
    method WriteGLPostings(postings: seq<Posting>, res: GlResult, env: Env, fault: Option<nat>)
      returns (res': GlResult, error: Option<CaptureError>)
      modifies this`gl
      ensures match WrittenPostings(old(gl), postings, env, fault)
              case Success(table) => error == None && gl == table && res' == CountedPostings(res, old(gl), postings)
              case Failure(e) => error == Some(e) && gl == old(gl)
    {
      CountedPostingsNone(res, gl);
      hide CountedPostings, InsertAll, TakesAll;
      res', error := res, None;
      if |postings| == 0 {
        return;
      }
      var tx, committed;
      tx, res', committed := InsertPostings(gl, postings, res, env, fault);
      if committed {
        gl := tx;
      } else {
        error := Some(DatabaseFailed);
      }
    }

    /** applyRepaymentRows: a failure on the receipt side does not cost the legs. */
    method ApplyRepaymentRows(rows: seq<Row>, cutoff: string, loans: LoanIndex, env: Env, faults: Faults, read: Summary)
      returns (res: RepaymentResult, error: Option<CaptureError>)
      modifies this
      ensures (Held(), error) == AppliedRepayments(old(Held()), rows, cutoff, loans, env, faults)
      ensures error == None ==> res == RepaymentReport(old(Held()), rows, read, loans, env, faults)
    {
      hide Counted, WrittenLegs, Collect, Unmatched, ReceiptsRun, WrittenReceipts, Fresh;
      res := NOTHING_CAPTURED.(read := read);
      var receiptRows := ClassifyJournalReceipts(rows);
      var n, failed := WriteJournalReceipts(receiptRows, env, faults.receipts);
      if !failed {
        res := res.(journalReceipts := n);
      }
      var classified;
      classified, res := ClassifyLegs(rows, res);
      var resolved;
      resolved, res := ResolveLegs(classified, loans, res);
      res, error := WriteLegs(resolved, res, cutoff, env, faults.legs);
    }

    /** applyGLRows */
    method ApplyGLRows(rows: seq<Row>, env: Env, faults: Faults, read: Summary)
      returns (res: GlResult, error: Option<CaptureError>)
      modifies this`gl
      ensures (Held(), error) == AppliedPostings(old(Held()), rows, env, faults)
      ensures error == None ==> res == GlReport(old(Held()), rows, read)
    {
      hide Collect, WrittenPostings, CountedPostings;
      var postings := ClassifyGLRows(rows);
      res, error := WriteGLPostings(postings, GlResult(read, 0, 0), env, faults.gl);
    }

    /** SyncRepayments: its own walk, then the repayment half. */
    method SyncRepayments(inputs: Inputs) returns (res: RepaymentResult, error: Option<CaptureError>)
      modifies this
      ensures (Held(), error) == RepaymentJob(old(Held()), inputs)
      ensures error == None ==>
                res == RepaymentReport(old(Held()), WindowOf(inputs).rows, WindowOf(inputs).read, inputs.loans.value, inputs.env, inputs.faults)
    {
      hide WalkFrom, WalkAll, AppliedRepayments, RepaymentReport;
      res, error := NOTHING_CAPTURED, Precheck(inputs);
      if error.Some? {
        return;
      }
      var w := WalkWindow(inputs.source, inputs.cutoff, NOTHING_READ);
      if w.error.Some? {
        return res.(read := w.read), Some(WalkFailed(w.error.value));
      }
      res, error := ApplyRepaymentRows(w.rows, inputs.cutoff, inputs.loans.value, inputs.env, inputs.faults, w.read);
    }

    /** SyncGLPostings: its own walk, then the GL half. */
    method SyncGLPostings(inputs: Inputs) returns (res: GlResult, error: Option<CaptureError>)
      modifies this
      ensures (Held(), error) == GlJob(old(Held()), inputs)
      ensures error == None ==> res == GlReport(old(Held()), WindowOf(inputs).rows, WindowOf(inputs).read)
    {
      hide WalkFrom, WalkAll, AppliedPostings, GlReport;
      res, error := NOTHING_POSTED, None;
      var w := GlWalkWindow(inputs.source, inputs.cutoff, NOTHING_READ);
      if w.error.Some? {
        return res.(read := w.read), Some(WalkFailed(w.error.value));
      }
      res, error := ApplyGLRows(w.rows, inputs.env, inputs.faults, w.read);
    }

    /** SyncLedgerCaptures: one fetch, both writers attempted, each with its own outcome. */
    method SyncLedgerCaptures(inputs: Inputs)
      returns (rep: RepaymentResult, glRes: GlResult, glError: Option<CaptureError>, repError: Option<CaptureError>)
      modifies this
      ensures Merged(Held(), glError, repError) == MergedJob(old(Held()), inputs)
      ensures glError == None ==> glRes == GlReport(old(Held()), WindowOf(inputs).rows, WindowOf(inputs).read)
      ensures repError == None ==>
                rep == RepaymentReport(old(Held()), WindowOf(inputs).rows, WindowOf(inputs).read, inputs.loans.value, inputs.env, inputs.faults)
    {
      hide WalkFrom, WalkAll, WrittenLegs, WrittenReceipts, WrittenPostings, Counted, Collect, GlReport;
      rep, glRes := NOTHING_CAPTURED, NOTHING_POSTED;
      glError, repError := Precheck(inputs), Precheck(inputs);
      if glError.Some? {
        return;
      }
      var w := WalkCallOverOnce(inputs.source, inputs.cutoff);
      if w.error.Some? {
        return rep, glRes, Some(WalkFailed(w.error.value)), Some(WalkFailed(w.error.value));
      }
      glRes, glError := ApplyGLRows(w.rows, inputs.env, inputs.faults, w.read);
      rep, repError := ApplyRepaymentRows(w.rows, inputs.cutoff, inputs.loans.value, inputs.env, inputs.faults, w.read);
    }

    /** The sweep over the linked accounts. */
    static method SweepAccounts(answers: seq<Fetch>) returns (raws: seq<Row>, pages: nat)
      ensures raws == Swept(answers) && pages == Count(answers, Answers)
    {
      raws, pages := [], 0;
      for i := 0 to |answers|
        invariant raws == Swept(answers[..i]) && pages == Count(answers[..i], Answers)
      {
        SweptNext(answers, i);
        CountNext(answers, i, Answers);
        if answers[i].Unavailable? {
          continue;
        }
        pages, raws := pages + 1, raws + answers[i].rows;
      }
      assert answers[..|answers|] == answers;
    }

    /** BackfillRepayments: an account that does not answer is passed over. */
    method BackfillRepayments(b: Sweep) returns (res: RepaymentResult, error: Option<CaptureError>)
      modifies this`legs
      ensures (Held(), error) == BackfillJob(old(Held()), b)
      ensures error == None ==> res == BackfillReport(old(Held()), b)
    {
      hide Counted, WrittenLegs, Collect, Unmatched, Tracked;
      res, error := NOTHING_CAPTURED, BackfillPrecheck(b);
      if error.Some? {
        return;
      }
      var raws, pages := SweepAccounts(b.answers);
      var read := TrackDates(raws, NOTHING_READ.(pages := pages, scanned := |raws|));
      res := res.(read := read);
      var classified;
      classified, res := ClassifyLegs(raws, res);
      var resolved;
      resolved, res := ResolveLegs(classified, b.loans.value, res);
      res, error := WriteLegs(resolved, res, "", b.env, b.faults.legs);
    }
  }
}
