# The core-banking mirror, its feeds and its accounts, in Dafny

This project models the parts of the Go backend that replicate outside data under a source
that cannot be trusted, and the account and access state around them, and proves what they
keep over whole runs.

- **Ledger capture** (`CallOver`, `Kobo`, `EntryCodes`, `Repayments`, `GlPostings`,
  `LedgerDates`, `LedgerCapture`, `Mirror`, `CaptureHistory`, `DoubleEntry`, with `InsertOnly` and
  `Sequences`). The call-over report is a function from page numbers to answers; the three
  capture tables are the fields of the class `Mirror`, updated by the jobs' own loops; each
  method is proved equal to a function of the old tables, and the theorems about whole
  histories are lemmas about those functions.
- **Destructive refresh** (`SnapshotRefresh`, `ShrinkGuard`). Three books are cleared and
  refilled in one transaction, each behind a count of what will land.
- **Feed ingest** (`FeedCore`, `MergeTable`, `AccountFeed`, `CustomerFeed`, `Transcoder`).
  The driver, both row formats, the blank-means-no-change upsert, and the byte transcoder.
- **Accounts, sessions, access, failover** (`Accounts`, `PageAccess`, `Failover`).

## How to read the model

- A table is a `map` from its unique key to its row; a transaction works on its own copy and
  replaces the table at its commit. Result structs that Go passes by pointer are values that
  go in and come out.
- The database can fail any statement: every writer takes a `fault`, the number of the
  statement that fails, and the feed driver a `Mishap` for each file; both are arbitrary. Its `::date` cast is an arbitrary partial
  function `day`; nothing is assumed of it except where a lemma says so (`DatesAgree`).
- Every date filter compares dates as text, as the source does. `GuardNeverRefuses` asks that
  the database's reading of the dates not contradict that order (`IsoDatesAgree`).
- Kobo counters and parsed amounts are int64: `Kobo.Wrap` writes the wrap-around out.
- The hash of an idempotency key is the tuple of the trimmed fields it is taken over.
- Page fetches, directory listings, model streams, clocks, the loan book, the role table, the
  number and date readers and the test-card screen are parameters.
- `hide` in a proof keeps definitions it does not need from the solver; it changes no claim.

Where comments and code disagree, the model follows the code:

- `koboOf` is described as reading `^\d+\.00$`. It also takes grouping commas, padding, any
  number of decimal zeros, a plus sign, and a second sign after a minus (`--5` reads as 5, and
  the least int64 written that way stays negative). `Kobo.NeverRounds` and
  `Kobo.PrintedParses` are stated for what the code does, signs included.
- The window is described as 45 days in several comments and is 180; cutoffs are arbitrary here.
- The receipts of a run whose legs are refused are still written: they go first and are not
  in the legs' transaction. `LedgerCapture.AppliedRepayments` says so.
- The merged job is described as behaving like the two jobs it replaced. That holds exactly
  when its prechecks pass, or its window cannot be read, or the database refuses a posting,
  or every posting is already held (`CaptureHistory.MergeExact`): without the prechecks it
  writes nothing, where the standalone GL job would still write
  (`CaptureHistory.MergeLosesPosting` is such an input).
- `glCategoryOf` is described as putting D-RLPDP among the loans. It does not strip an R after
  the hyphen, so that code is "other"; `GlPostings.CategoryExact` says exactly when.
- A suspended account is described as off until it is reinstated, and the last admin as
  guarded. Two handlers of the settings page and the emergency reset check neither;
  `Accounts.SoundExactly` says exactly which of their requests break which of the two, and
  `Accounts.UnguardedBreaks` gives the inputs.
- Files are described as applied oldest-first. A failed file whose failure is not recorded
  either is tried again by the next run, after newer ones; `FeedCore.OrderExact` says exactly
  when the order holds, and `FeedCore.OlderFileWins` is an input on which it does not.
- A run's counters look like a breakdown. A zero-byte file can count twice, and the customer
  feed's rows read leave out the lines it rejects unparsed; `FeedCore.FilesAddUp` and
  `MergeTable.ReportExact` say exactly when they add up.

## Model

| member | source | states |
|---|---|---|
| Kobo.PrintedParses | backend-go/cbssync/repayments.go:617-637 | An integer printed with any grouping commas, padding and zero decimals parses to itself exactly when its magnitude is below 2^63 |
| Text.SpacesExact | backend-go/cbssync/repayments.go:541-548 | Trimming drops exactly the white space characters of Unicode |
| Kobo.NormalExact | backend-go/cbssync/repayments.go:617-622 | What is parsed is the text without its grouping commas and the padding round it |
| Kobo.FractionRefused | backend-go/cbssync/repayments.go:617-637 | Any character other than 0 after the first point is refused as a non-zero fraction |
| Kobo.NeverRounds | backend-go/cbssync/repayments.go:617-637 | Every accepted text, signs and point removed, is all digits and reads as the result shifted by its decimals: nothing accepted is rounded. The sign is that of the leading minus signs, except that two of them over 2^63 leave the least int64 |
| Kobo.ParseTrim | backend-go/cbssync/repayments.go:617-637 | Padding does not change an amount, so entries with equal keys have equal amounts |
| EntryCodes.AcceptedCodes | backend-go/cbssync/repayments.go:174-183 | A code is principal (interest) if and only if it is one of that component's base codes with an optional leading R and an optional R after the hyphen |
| EntryCodes.AcceptedReversals | backend-go/cbssync/repayments.go:597-611 | Among the accepted codes exactly the four undecorated ones are not reversals |
| EntryCodes.AcceptedIsDebit | backend-go/cbssync/gl_postings.go:210-216 | Every accepted repayment code is on the debit side |
| EntryCodes.SideExact | backend-go/cbssync/gl_postings.go:207-216 | A code under the letter D is on the debit side and under C on the credit side, whatever reversal marks it carries |
| CallOver.WalkMeaning | backend-go/cbssync/ledger_capture.go:63-119 | For every source: the walk keeps exactly the in-window rows of the pages it read, in order, reads on past every full page holding one, reports the counts and dates of what it scanned, and ends or fails where it says |
| CallOver.ExplainsUnique | backend-go/cbssync/ledger_capture.go:63-119 | That description determines rows, pages, scanned, dates and error, for any source, sorted or not |
| CallOver.TrackedExtremes | backend-go/cbssync/repayments.go:520-533 | The reported dates are the least and greatest non-empty dates scanned, and blank exactly when all are |
| CallOver.HonestWindow | backend-go/cbssync/repayments.go:443-495 | On a report sorted by date descending early stopping fails exactly on an empty report, and loses nothing if and only if the window holds at most 30,000 rows; beyond that it keeps the newest 30,000 |
| LedgerDates.TextOrderIsCalendarOrder | backend-go/cbssync/repayments.go:468-473 | Dates written YYYY-MM-DD compare as text exactly as in the calendar, whatever time follows them |
| LedgerDates.WindowIsByDate | backend-go/cbssync/repayments.go:468-473 | So the window of a cutoff day holds exactly the rows of that day and later ones |
| LedgerCapture.WalkWindow | backend-go/cbssync/repayments.go:448-495 | The two-pass walk is the common walk on every source, without the rows when it fails |
| LedgerCapture.WalkCallOverOnce | backend-go/cbssync/ledger_capture.go:63-119 | The merged walk is the common walk, on every source |
| LedgerCapture.GlWalkWindow | backend-go/cbssync/gl_postings.go:111-160 | The GL walk, with its own constants, is the common walk on every source, without the rows when it fails |
| Repayments.ClassifyLegs | backend-go/cbssync/repayments.go:541-593 | The loop yields the accepted rows' legs in order and counts every row with a repayment code, also those then skipped |
| Repayments.CodeAnyCase | backend-go/cbssync/repayments.go:541-548 | A code is read whatever padding stands round it and whatever case it is typed in |
| Repayments.LegExact | backend-go/cbssync/repayments.go:541-575 | A row is a leg if and only if its code is one of the base codes with or without its marks and its amount reads as non-zero |
| Repayments.LegSpellsKey | backend-go/cbssync/repayments.go:667-677 | A leg's stored columns are those of its row, trimmed where the source trims, and with the amount they spell its idempotency key |
| Repayments.LegAmount | backend-go/cbssync/repayments.go:551-575 | A leg's amount is the row's exact amount, negated exactly for a reversal code, never zero, with the component its code names |
| Repayments.ClassifyJournalReceipts | backend-go/cbssync/repayments.go:288-333 | The loop yields exactly the accepted journal credits, in order |
| Repayments.ReceiptExact | backend-go/cbssync/repayments.go:288-333 | A row is a receipt if and only if it is a journal credit mentioning a repayment and no card repayment, in any case, with a ten-character date and money; which is the credit column's, or the amount's when that is unreadable or zero |
| Repayments.ReceiptSpellsKey | backend-go/cbssync/repayments.go:296-331 | A receipt's stored columns are those of its row and spell its key |
| Repayments.ReceiptIsNoLeg | backend-go/cbssync/repayments.go:253-256 | No ledger row is captured both as a receipt and as its application to a loan |
| Repayments.LoadLoanAccounts | backend-go/cbssync/repayments.go:762-791 | Fails exactly on a book with no account; otherwise indexes every account, and for each linked account the loan rows it serves, in order |
| Repayments.ResolveLegs | backend-go/cbssync/repayments.go:695-737 | Keeps length, order and every field but the loan account, and raises Unmatched by the legs the switch flags |
| Repayments.TailExact | backend-go/cbssync/repayments.go:739-751 | A narration names exactly the account of 10 to 25 digits that follows its last " - " but for padding, or none |
| Repayments.BtrimExact | backend-go/cbssync/repayments.go:753-762 | Spaces round an account number of the loan book, and nothing else, are dropped |
| Repayments.AccountRead | backend-go/cbssync/repayments.go:762-775 | A loan row's account is its number without those spaces, and none when that leaves nothing |
| Repayments.AttributionExact | backend-go/cbssync/repayments.go:679-737 | A leg whose narration names a loan is given it, flagged exactly when it is not in the book; one that names none takes its linked account's loan exactly when that account serves one loan row, which is in the book, and is flagged otherwise |
| Repayments.UnmatchedExact | backend-go/cbssync/repayments.go:695-737 | The unmatched count is the number of output legs whose loan is not in the book |
| Repayments.GuardExact | backend-go/cbssync/repayments.go:884-914 | The leg guard refuses if and only if, with no override, the legs offered fall short of those held since the cutoff by more than the row floor and more than the percentage |
| GlPostings.ClassifyGLRows | backend-go/cbssync/gl_postings.go:218-262 | The loop yields a posting for every row with a readable non-zero amount, in order |
| GlPostings.PostingExact | backend-go/cbssync/gl_postings.go:218-231 | A row is a posting if and only if its amount reads as non-zero |
| GlPostings.PostingReads | backend-go/cbssync/gl_postings.go:207-250 | A posting's side is that of its code's letter, and its bucket that of its code |
| GlPostings.PostingNames | backend-go/cbssync/gl_postings.go:250-256 | A posting's loan is the account its narration names, and blank if it names none |
| GlPostings.CategoryExact | backend-go/cbssync/gl_postings.go:185-206 | Exactly which codes fall in which bucket: by the tail, on either side and with or without a leading R; and none with an R after the hyphen, which is not stripped |
| GlPostings.PostingSpellsKey | backend-go/cbssync/gl_postings.go:264-278 | A posting's stored columns are those of its row and spell its key, side included |
| GlPostings.PostingAmount | backend-go/cbssync/gl_postings.go:222-231 | A posting's amount is the row's absolute amount exactly when that is an int64, and never zero |
| InsertOnly.InsertAllHolds | backend-go/cbssync/repayments.go:945-955 | Insert-if-absent changes no held row, its keys are the union, and every new row is an offered one under its own key |
| InsertOnly.TotalConserved | backend-go/cbssync/repayments.go:963-993 | Whatever rows are weighed by, a table gains the weight of exactly its fresh rows |
| Mirror.Mirror.WriteLegs | backend-go/cbssync/repayments.go:924-999 | Refused by the guard or failed by the database the table is unchanged; committed it is insert-if-absent of the legs, with exact counters |
| Mirror.Mirror.WriteJournalReceipts | backend-go/cbssync/repayments.go:353-377 | Receipts before the first failing statement stay written, and the count is that of the new ones |
| Mirror.Mirror.WriteGLPostings | backend-go/cbssync/gl_postings.go:280-330 | All or nothing, insert-if-absent, with exact counters |
| Mirror.Mirror.SyncRepayments | backend-go/cbssync/repayments.go:229-277 | The standalone repayment job leaves the tables, error and report of its specification |
| Mirror.Mirror.SyncGLPostings | backend-go/cbssync/gl_postings.go:76-97 | The standalone GL job leaves the tables, error and report of its specification |
| Mirror.Mirror.SyncLedgerCaptures | backend-go/cbssync/ledger_capture.go:127-181 | The merged job leaves the tables and both sides' outcomes of its specification, and on success the very reports the standalone jobs give |
| Mirror.Mirror.BackfillRepayments | backend-go/cbssync/repayments.go:394-438 | Past its prechecks the backfill passes over accounts that do not answer, writes the legs of the rest with no window guard, touches no other table, and reports what it did |
| LedgerCapture.SweptExact | backend-go/cbssync/repayments.go:415-438 | The backfill's sweep gathers, in order, the rows of every account that answers, and nothing for one that does not |
| CaptureHistory.OneFetchTwoWriters | backend-go/cbssync/ledger_capture.go:121-181 | Past its prechecks the merged job equals the two jobs one after the other in either order, tables and outcomes; a failed side leaves its own table and the other side's result alone |
| CaptureHistory.MergeExact | backend-go/cbssync/ledger_capture.go:131-148 | The merged job leaves what the two jobs leave if and only if the prechecks pass, or the window cannot be read, or the database fails or refuses a posting, or every posting's key is already held |
| CaptureHistory.MergeLosesPosting | backend-go/cbssync/ledger_capture.go:131-148 | A run before the repayment schema exists, over one readable row, that writes nothing where the GL job alone writes its posting |
| CaptureHistory.MergeIdempotent | backend-go/cbssync/ledger_capture.go:127-181 | Running the merged job again on the same inputs changes no table, however the first run went |
| CaptureHistory.NothingHeldChanges | backend-go/cbssync/repayments.go:916-923 | Over every history of merged, standalone and backfill runs, from any source and with any failures, no row held in any of the three tables changes or goes |
| CaptureHistory.HistoryIsOneInsert | backend-go/cbssync/ledger_capture.go:127-181 | Over every history, whatever fails, each of the three tables is what one insert-if-absent of all the rows written, in order, makes of it |
| CaptureHistory.KeysAreTheUnion | backend-go/cbssync/repayments.go:916-955 | Over any mix of merged runs, standalone runs and backfills that commit their legs, the leg keys are exactly the first ones plus the union of what was offered, whatever the order or overlap |
| CaptureHistory.GlRunConserves | backend-go/cbssync/gl_postings.go:280-330 | A merged or standalone run that commits its postings gains exactly their keys and, by any weight, exactly what the new ones weigh, and reports each once |
| CaptureHistory.GlKeysAreTheUnion | backend-go/cbssync/gl_postings.go:264-330 | Likewise the GL keys, over merged and standalone runs that commit their postings |
| CaptureHistory.ReceiptKeysAreTheUnion | backend-go/cbssync/repayments.go:353-377 | Likewise the receipt keys, over runs that reach every receipt |
| CaptureHistory.CoveredChangesNothing | backend-go/cbssync/repayments.go:659-666 | Any run that offers only legs (receipts, postings) already held leaves that table as it is, whether it commits or not |
| CaptureHistory.CoveredReportsNothing | backend-go/cbssync/repayments.go:963-999 | And one that commits reports each leg and posting as a duplicate, and no money |
| CaptureHistory.RerunWritesNothing | backend-go/cbssync/repayments.go:916-955 | A run that committed its legs, receipts or postings writes none of them when it comes again, however much later and whatever happened in between |
| CaptureHistory.RunConserves | backend-go/cbssync/repayments.go:963-999 | For merged, standalone and backfill runs alike: inserted plus duplicate is the legs offered; the principal and interest reported are what the table's totals gained, component by component and together |
| CaptureHistory.ReceiptsConserved | backend-go/cbssync/repayments.go:353-377 | A run that reaches every receipt reports exactly the receipts the table gained |
| CaptureHistory.HistoryConserves | backend-go/cbssync/ledger_capture.go:127-181 | Over every history, failed runs included, the legs and postings the successful runs report as inserted are what the tables gained, and the money they report is, modulo int64, what the legs gained |
| CaptureHistory.HistoryTotals | backend-go/cbssync/repayments.go:963-993 | Over every history and by any weight, each table gains the weight of exactly the rows that were new |
| CaptureHistory.GuardNeverRefuses | backend-go/cbssync/repayments.go:884-914 | Over any honest history of runs, backfills, late rows, failed fetches and rolled-back writes, the legs classified from the next window are at least the legs held for it, so the guard passes under any settings |
| CaptureHistory.IsoDatesAgree | backend-go/cbssync/repayments.go:884-896 | What that asks of the dates holds of every report that writes them YYYY-MM-DD, under any database that casts them in calendar order |
| CaptureHistory.RunEndsExactly | backend-go/cbssync/ledger_capture.go:127-181 | Exactly how each side of each job ends: schema, loan book, fetch, guard, cast or database, in that order; the guard's refusal exactly on a window offering too few legs |
| CaptureHistory.BackfillEndsExactly | backend-go/cbssync/repayments.go:394-415 | Exactly how the backfill ends; it has no guard |
| CaptureHistory.ReceiptsReachedExact | backend-go/cbssync/repayments.go:353-377 | A run that gets to write inserts its receipts up to the first that fails |
| CaptureHistory.ShortWindowRefused | backend-go/cbssync/repayments.go:884-914 | After any history, under the default thresholds, a run whose window offers over two and over a quarter fewer legs than are held since its cutoff leaves every leg as it was, and ends in the guard's refusal unless it ended earlier |
| CaptureHistory.LedgersAgree | backend-go/cbssync/ledger_capture.go:154-168 | In every history of merged runs without a failed GL write, each held leg has a GL posting of the same reference, account, code and date, on the debit side, with the leg's absolute amount |
| DoubleEntry.TrapAvoided | backend-go/cbssync/repayments.go:55-79 | For any payments and reversals posted as their documented two or four rows, each row on any account and with any other fields, in any order and mixed with any rows of other codes, the captured legs sum to exactly the payments less the reversals |
| DoubleEntry.BooksBalance | backend-go/cbssync/gl_postings.go:218-262 | Over any ledger of payments and reversals posted as their documented rows, the debit and the credit postings both sum to the amounts, principal once and interest twice |
| ShrinkGuard.DefaultAllowance | backend-go/cbssync/sync.go:1062-1068 | Under the defaults a book may lose a quarter of its rows, and always two |
| ShrinkGuard.AllowanceExact | backend-go/cbssync/sync.go:1060-1068 | A drop exceeds the allowance exactly when it exceeds the row floor and the percentage itself; cutting to whole rows loses nothing |
| SnapshotRefresh.CountKeyed | backend-go/cbssync/sync.go:1093-1101 | The loop counts the distinct non-empty keys |
| SnapshotRefresh.LandedSize | backend-go/cbssync/sync.go:1089-1101 | What the guard counts is exactly what the refresh inserts |
| SnapshotRefresh.LandedChoice | backend-go/cbssync/sync.go:1112-1127 | Of several records under one key the first stays in products, the last in loans and deposits |
| SnapshotRefresh.GuardRefreshExact | backend-go/cbssync/sync.go:1032-1058 | The refresh guard refuses exactly a loss, not overridden, that empties the book or exceeds the thresholds |
| SnapshotRefresh.Snapshot.DoSync | backend-go/cbssync/sync.go:178-213 | The books change together to the specified ones, or not at all |
| SnapshotRefresh.AllOrNothing | backend-go/cbssync/sync.go:195-213 | A run commits exactly when all fetches answer, nothing fails and all three guards pass; each book then holds exactly its fetch's keys, as many as its guard approved; otherwise none changes |
| SnapshotRefresh.BooksExact | backend-go/cbssync/sync.go:1103-1210 | A committed run keeps, of the records under a key, the first fetched of a product and the last of a loan or deposit |
| SnapshotRefresh.RefusalExact | backend-go/cbssync/sync.go:178-213 | A run that does not commit says why: a fetch exactly when one failed, a guard only when a book is not tolerated, the database only on a fault |
| SnapshotRefresh.NeverDrained | backend-go/cbssync/sync.go:1032-1058 | With the override off, no number of runs under any thresholds empties a non-empty book |
| SnapshotRefresh.ShrinksByQuarters | backend-go/cbssync/sync.go:1006-1024 | Under the defaults, k runs over a book of at least 8 rows leave size_k * 4^k >= size_0 * 3^k |
| FeedCore.Feed.Ingest | backend-go/feedcore/feedcore.go:148-193 | A run tries the pending files oldest-first up to wherever it stops, the file in flight leaving nothing, under any failures of a file, its record or the record of its failure; and reports the counters of the files it finished |
| FeedCore.FilesAddUp | backend-go/feedcore/feedcore.go:177-227 | The files a run finishes add up, each counted once as read, empty or failed, exactly when the record of every zero-byte file among them was written |
| MergeTable.ReportExact | backend-go/feedcore/feedcore.go:229-261 | The rows a run reports as inserted are the growth of the table; and inserted, updated and rejected add up to the rows read exactly when the feed counts as read every line of every file committed |
| MergeTable.RolledBackExact | backend-go/acctfeed/acctfeed.go:221-254 | A file is rolled back if and only if the database refuses the row of one of its lines |
| MergeTable.FileKeys | backend-go/acctfeed/acctfeed.go:169-213 | A file that is not holds exactly the keys held before or given by its lines |
| MergeTable.OutcomeExact | backend-go/acctfeed/acctfeed.go:221-254 | Its inserted rows are the new keys, its rejected the lines that give no row, its updates the others |
| FeedCore.JobsAreTheRest | backend-go/feedcore/feedcore.go:163-175 | Whatever order the directory lists them in, the jobs are exactly the unrecorded files in arrival order |
| FeedCore.JobsByDay | backend-go/feedcore/feedcore.go:45-51 | Whatever the directory lists, a run takes its files day by day and by sequence within a day |
| FeedCore.FileLeaves | backend-go/feedcore/feedcore.go:212-261 | One file leaves its rows and its record together, or a record of failure, or, when that too is lost, nothing |
| FeedCore.ReportMatchesRecords | backend-go/feedcore/feedcore.go:177-261 | Files read, empty and failed are those newly recorded as such, but for the zero-byte files counted twice and the failures that left no record |
| FeedCore.RunsAreTheirLog | backend-go/feedcore/feedcore.go:177-190 | Whatever stops or fails, the runs leave what applying the files once each, in the order they were recorded, leaves |
| FeedCore.OrderExact | backend-go/feedcore/feedcore.go:175-190 | Over whole histories the files are recorded in arrival order if and only if no run records a file after failing to record an older one |
| FeedCore.DaysSettleInTurn | backend-go/feedcore/feedcore.go:175-190 | Then a file of a later day, or of the same day and a later sequence, is recorded after every earlier one, over all the runs |
| FeedCore.OlderFileWins | backend-go/feedcore/feedcore.go:182-190 | A run that loses a file and its record, and then a quiet one: the older file is applied last and its value stays |
| FeedCore.CrashesChangeNothing | backend-go/custfeed/ingest.go:60-66 | Any series of interrupted runs, once one goes to its end, leaves the table and the file records of trying every file once, oldest first; what fails may be anything that fails alike in every run and is recorded |
| MergeTable.LastNonBlankWins | backend-go/acctfeed/acctfeed.go:169-213 | Each column holds the last non-blank value offered, or its old value if none was |
| MergeTable.FeedHoldsLastSettled | backend-go/feedcore/feedcore.go:148-261 | Over any runs and failures each column holds the last non-blank value of the committed files in the order they were recorded, or its old value |
| MergeTable.FeedRefinesLastNonBlank | backend-go/feedcore/feedcore.go:148-261 | However its runs are interrupted, a feed ends with the last non-blank value of every column in (date, sequence, line) order over the files not rolled back |
| AccountFeed.Apply | backend-go/acctfeed/acctfeed.go:221-254 | One transaction of upserts equal to the row fold, with the fold's counters: inserted is what the table gained, and the three add up to the lines |
| AccountFeed.FollowsLayout | backend-go/acctfeed/acctfeed.go:100-145 | A line of twenty named fields is accepted exactly on its account number and card name; then it is keyed by the account number and every column holds what its own field says, codes only if they are digits, with the product line and the utilisation derived from theirs |
| AccountFeed.WidthExact | backend-go/acctfeed/acctfeed.go:100-104 | A line of any other width is rejected |
| CustomerFeed.ParseLine | backend-go/custfeed/parse.go:81-121 | The in-place trim and the both-ends assignment give the specified customer or the specified error |
| CustomerFeed.AcceptsExactly | backend-go/custfeed/parse.go:81-121 | A line is a customer if and only if it has at least twelve pieces and the last is 4 to 12 digits; else the error says which |
| CustomerFeed.ParsesFromBothEnds | backend-go/custfeed/parse.go:74-80 | With an address of any three or more pieces the other nine fields are read right and the overflow is folded into line 3 |
| CustomerFeed.ParseInvertsPrint | backend-go/custfeed/parse.go:81-121 | For trimmed comma-free fields and a valid CIF, parsing the joined line returns every field |
| CustomerFeed.PrintParseStable | backend-go/custfeed/parse.go:81-121 | For every line that parses, printing the customer and parsing again gives the same customer |
| CustomerFeed.FullAddressOf | backend-go/custfeed/parse.go:41-49 | The address is the trimmed non-blank lines joined with a comma and a space |
| CustomerFeed.FieldColumns | backend-go/custfeed/ingest.go:170-228 | Each field of a customer goes to the column of its name, and a blank one nowhere |
| CustomerFeed.DerivedColumns | backend-go/custfeed/ingest.go:170-228 | The whole name, the whole address, the malformed flag and the file name are derived from theirs |
| CustomerFeed.EmailExact | backend-go/custfeed/parse.go:51-60 | The flag is set exactly on an email that is not blank and is not text, an at sign, and text with a point in it |
| CustomerFeed.Apply | backend-go/custfeed/ingest.go:229-330 | Parse-then-upsert equals the one-pass row fold with its counters, rows read being the customers parsed |
| CustomerFeed.RejectedUnread | backend-go/custfeed/ingest.go:229-330 | A file of one unparseable line reports no row read and one rejected, so its counters do not add up |
| Transcoder.ToUTF8 | backend-go/feedcore/feedcore.go:296-314 | The loop computes the specified transcoding |
| Transcoder.EncodeIsChar | backend-go/feedcore/feedcore.go:303-310 | Every scalar value encodes to one well-formed UTF-8 character that decodes to it |
| Transcoder.CharExact | backend-go/feedcore/feedcore.go:296-299 | And every well-formed character is the encoding of a scalar value: no overlong form, no surrogate |
| Transcoder.DecodeExact | backend-go/feedcore/feedcore.go:296-299 | Well-formed bytes are exactly the encoding of what they decode to |
| Transcoder.Chart | backend-go/feedcore/feedcore.go:303-324 | The chart of Windows-1252, byte by byte, with its five undefined slots |
| Transcoder.AlwaysWellFormed | backend-go/feedcore/feedcore.go:289-324 | The output is always well-formed UTF-8, equals the input exactly when that is well formed, is stable under a second pass, and otherwise decodes to one Windows-1252 code point per byte |
| Accounts.UserStore.Update | backend-go/handlers/admin.go:285-481 | Done exactly when not rejected and not a refused role change, it moves the role of a live account, the watermark when a password is set, and nothing else of anyone |
| Accounts.UserStore.Suspend | backend-go/handlers/admin_suspend.go:64-138 | Done exactly with a reason, on another, present account that is not the last active admin; the account is then inactive, suspended now, without a code, its sessions cut at now, and nobody else's changes |
| Accounts.UserStore.Create | backend-go/handlers/admin.go:253-263 | A new account has the role and activity given, no suspension and no code, and its watermark at now; no other changes |
| Accounts.UserStore.Deactivate | backend-go/handlers/admin.go:585-625 | Done exactly on another, present account that is not the last active admin; it is then inactive, its sessions cut at now, and nothing else of anyone changes |
| Accounts.UserStore.Delete | backend-go/handlers/admin.go:483-512 | Done on the same conditions; the account is then deleted and inactive, its sessions left alone |
| Accounts.UserStore.Reactivate | backend-go/handlers/admin.go:627-670 | Done exactly on a present account; it is then active, with no suspension and no code, its role and watermark kept |
| Accounts.UserStore.IssueReinstateCode | backend-go/handlers/admin_suspend.go:167-221 | Done exactly for 0, 4 or 6 digits on a present, suspended account; the code then lives thirty minutes with no attempt spent |
| Accounts.UserStore.ReinstateWithCode | backend-go/handlers/admin_suspend.go:261-339 | It compares exactly a live, unexpired, unspent code of a suspended account, reinstates exactly when that code matches, keeps the watermark, and otherwise at most counts the attempt or burns the code |
| Accounts.UserStore.SettingsUpdate | backend-go/handlers/settings_handler.go:360-390 | The settings page sets role and activity of a live account, unguarded |
| Accounts.GuardsExact | backend-go/handlers/admin.go:358-372 | The self guard and the last-admin guard: an admin is the last when no two accounts are active admins |
| Accounts.RoleChangeExact | backend-go/handlers/admin.go:346-374 | Exactly which role changes are refused |
| Accounts.TryableExact | backend-go/handlers/admin_suspend.go:284-316 | Exactly when a code can be tried |
| Accounts.CodeRoundTrip | backend-go/handlers/admin_suspend.go:167-339 | A code brought within thirty minutes reinstates the account it was issued for if and only if fewer than five wrong ones were tried, whatever was asked of other accounts |
| Accounts.ActivityExact | backend-go/handlers/admin.go:585-654 | Exactly which requests switch an account on and off |
| Accounts.StaysOff | backend-go/handlers/admin.go:607-654 | Over every run an account switched off stays off until a reactivation, its own code, a settings change or an emergency reset |
| Accounts.DeletesMakeGone | backend-go/handlers/settings_handler.go:425-441 | The settings page's delete leaves any account deleted and inactive; the admin page's exactly on another account that is not the last active admin |
| Accounts.DeletionIsFinal | backend-go/handlers/settings_handler.go:425-441 | Over every run of requests a deleted account stays deleted and inactive, its role unchanged, until an emergency reset names it |
| Accounts.ResetUndoesDeletionOnly | backend-go/handlers/auth.go:818-867 | The emergency reset makes the account present and active, costs no admin, revives no refused token, leaves a suspension's code as usable as it was, and is undone by a delete |
| Accounts.SessionsEndExactly | backend-go/core/auth.go:180-211 | Exactly which requests end sessions: a password set, a deactivation, a suspension, a sign-out everywhere; no delete, reset or change of role does |
| Accounts.StepSoundExact | backend-go/handlers/settings_handler.go:360-441 | One request of any handler keeps a sound state sound (an active admin, no suspended account active, live codes of the current suspension only) exactly when it neither revives a suspended account nor takes the only active admin away by an unguarded handler |
| Accounts.SoundExactly | backend-go/handlers/admin_suspend.go:18-29 | Over every run of all the handlers from a sound start, the state stays sound throughout if and only if no such request was made |
| Accounts.AlwaysSound | backend-go/handlers/admin.go:346-374 | Over every run of the other handlers (the admin pages, suspension and reinstatement, account creation, password changes) the state is always sound |
| Accounts.UnguardedBreaks | backend-go/handlers/settings_handler.go:360-441 | Five concrete requests of the unguarded handlers that break a sound state |
| Accounts.ComparedAtMostFiveTimes | backend-go/handlers/admin_suspend.go:31-41 | Between two issues a code is compared at most five times, and never more than its remaining attempts |
| Accounts.SuspensionEndsSessions | backend-go/core/auth.go:180-211 | A token minted more than one second before a suspension is refused on every later request, reinstatement included |
| Accounts.AdmitExact | backend-go/core/auth.go:407-458 | A request is let through exactly under all five conditions: unexpired, not denied, not cut, its CSRF right, not blocked from writing |
| Accounts.NewSessionsSurvive | backend-go/core/auth.go:194-211 | A token minted at or after the watermark is never refused because of it |
| Accounts.WatermarkExact | backend-go/core/auth.go:142-155 | Exactly which mint times the watermark refuses, given second-truncated issue times and one second of grace |
| PageAccess.HasPage | backend-go/core/auth.go:107-125 | The nested search decides the one page rule |
| PageAccess.RequirePages | backend-go/core/auth.go:517-548 | The middleware passes exactly signed-in users the one page rule passes |
| PageAccess.UserCanUseTool | backend-go/handlers/assistant.go:1272-1297 | The tool check is the one page rule, with no pages meaning open |
| PageAccess.CanSeeAllRows | backend-go/core/scope.go:75-82 | True exactly when the primary role, or a secondary one other than admin, is one of the six executive roles or a head by either naming |
| PageAccess.WriteBlocked | backend-go/core/auth.go:498-514 | True exactly when some role is internal control's and the request writes anything but signing in and out, report tables and the identity reveal |
| PageAccess.SecondaryAdminIsNothing | backend-go/core/auth.go:52-82 | "admin" anywhere among the secondary roles changes no page, row or write decision |
| Failover.Screen.StreamTo | backend-go/handlers/assistant_stream.go:155-197 | One target shows the content of its lines up to the first error, and on success returns exactly what it showed, with the tool calls of its lines in order |
| Failover.Screen.ChatStream | backend-go/handlers/assistant_fallback.go:152-183 | For every pattern of failures and cancellations: all that is shown comes from the last target tried, and success returns exactly that |
| Failover.ShowsText | backend-go/handlers/assistant_stream.go:155-183 | What a target shows is the text of its lines up to the first error, in non-empty fragments |
| Failover.TurnExact | backend-go/handlers/assistant_stream.go:155-197 | A turn succeeds exactly on a whole body without an error, and gives its text and all its tool calls in order |
| Failover.FallbackExact | backend-go/handlers/assistant_fallback.go:152-183 | A target is tried if and only if every one before it failed in silence with the caller still there |
| Failover.NeverSpliced | backend-go/handlers/assistant_fallback.go:145-151 | Once a target has shown a fragment no other target is tried |
| Failover.TriesUnique | backend-go/handlers/assistant_fallback.go:152-183 | Replies and cancellations determine how many targets are tried |

## Left out

- HTTP, routing, SSE framing, mail, audit rows, logging, heartbeats and timers: plumbing around the modelled state.
- SQL text, stored functions, views and indexes: only conflict rules, CHECKs and commit or rollback are modelled; NULL and a blank text are one value.
- SHA-256, bcrypt and JWT signing: keys are tuples, a code check is equality, a token is already verified.
- JSON extraction from untyped maps: a ledger row is the text of its fields; `recordKey` de-duplication happens before the model's fetch.
- Date layouts: `transactionDate` is stored as text, feed dates come from a parameter, and file names are already parsed; a file whose name does not parse is not in the listing.
- Character counts: the two byte-length tests (a date of at least 10, an account number of at least 6) count characters, and upper-casing is exact only where the result is ASCII.
- Repayments.GuardLegCount: counts the cbs_gl channel only; rows of other channels are not in the modelled table.
- The backfill's accounts: what each answers is arbitrary; `GuardNeverRefuses` asks that the rows be rows of the ledger.
- ShrinkGuard.Allowance: the percentage is a real number, so float rounding of unusual percentages and an infinite percentage are not modelled; the default of 25 is exact in floating point.
- SnapshotRefresh.Snapshot.DoSync: the steps after the commit (customer master, parties, officers, schedules) and the run row are not modelled; a record is its key and an opaque body.
- Insert-only columns (synthetic ids, source, first seen) and `last_seen`: easy or clock-driven.
- MergeTable.FeedRefinesLastNonBlank: columns are merged one by one, so a derived column (product line, utilisation) can differ from what its source columns now give; the lemma says which value it holds.
- FeedCore.CrashesChangeNothing: applying a file is a function of table and file; a file recorded as failed is never retried.
- Interleaving inside one admin or reinstatement request: each request is one atomic step against a database that answers.
- Accounts.UserStore.Update: e-mail addresses, names, departments, extra roles and the password itself are not modelled; any rejection on those grounds is the `rejected` flag. The grounds on which account creation is refused are not modelled either.
- Refresh, MFA and SSE tokens, and failing open when the database does not answer: access tokens against an answering database only.
- `assistantTargets` and the blocking form of the chat call: the target list is arbitrary, which covers the two-element one.
- The page catalogue and the role table: the table is a parameter.
- Dashboards, alerts, assistant tools and prompts, AppsFlyer, the frontend and the scripts: reporting or glue.
