/**
 The GL call-over report and the window walk over it.

 The report is paged by number and has no date filter, so a window is cut client-side:
 read pages newest-first and stop at the first page with nothing at or after the cutoff.
 The source is any function from page numbers to answers.
 */
module CallOver {
  import opened Wrappers
  import opened Text

  /** One ledger row, every field as the text the report carries. */
  datatype Row = Row(
    financialDate: string,
    transactionDate: string,
    accountNumber: string,
    accountName: string,
    branch: string,
    initiatedBy: string,
    approvedBy: string,
    postingReference: string,
    amount: string,
    credit: string,
    narration: string,
    entryCode: string,
    instrument: string)

  const PAGE_SIZE: nat := 500
  const MAX_PAGES: nat := 60

  datatype Fetch = Page(rows: seq<Row>) | Unavailable

  type Source = int -> Fetch

  /** What a walk reports about itself. */
  datatype Summary = Summary(pages: nat, scanned: nat, oldest: string, newest: string)

  const NOTHING_READ := Summary(0, 0, "", "")

  datatype WalkError = FetchFailed | EmptyFirstPage

  /** The rows kept so far, the summary, and the error that ended the walk, if any. */
  datatype Walk = Walk(rows: seq<Row>, read: Summary, error: Option<WalkError>)

  function InWindow(rows: seq<Row>, cutoff: string): (r: seq<Row>)
    ensures |r| <= |rows|
    ensures forall m :: m in r <==> m in rows && AtLeast(m.financialDate, cutoff)
  {
    if rows == [] then []
    else
      var rest := InWindow(rows[1..], cutoff);
      if AtLeast(rows[0].financialDate, cutoff) then [rows[0]] + rest else rest
  }

  function Older(d: string, oldest: string): string {
    if d != "" && (oldest == "" || Below(d, oldest)) then d else oldest
  }

  function Newer(d: string, newest: string): string {
    if d != "" && (newest == "" || Below(newest, d)) then d else newest
  }

  /** trackDates, as a fold from the left. */
  function Tracked(rows: seq<Row>, oldest: string, newest: string): (string, string) {
    if rows == [] then (oldest, newest)
    else
      var d := rows[|rows| - 1].financialDate;
      var (o, n) := Tracked(rows[..|rows| - 1], oldest, newest);
      (Older(d, o), Newer(d, n))
  }

  function Read(read: Summary, rows: seq<Row>): Summary {
    var (o, n) := Tracked(rows, read.oldest, read.newest);
    Summary(read.pages + 1, read.scanned + |rows|, o, n)
  }

  datatype Progress = Ended(walk: Walk) | Onward(rows: seq<Row>, read: Summary)

  /** One turn of the page loop, having kept `rows`. */
  function Turn(source: Source, cutoff: string, page: nat, rows: seq<Row>, read: Summary): Progress {
    match source(page)
    case Unavailable => Ended(Walk(rows, read, Some(FetchFailed)))
    case Page(batch) =>
      if page == 1 && batch == [] then Ended(Walk(rows, read, Some(EmptyFirstPage)))
      else if batch == [] then Ended(Walk(rows, read, None))
      else
        var kept := InWindow(batch, cutoff);
        if kept == [] || |batch| < PAGE_SIZE then Ended(Walk(rows + kept, Read(read, batch), None))
        else Onward(rows + kept, Read(read, batch))
  }

  /** The walk from page `page` on. */
  function WalkFrom(source: Source, cutoff: string, page: nat, rows: seq<Row>, read: Summary): Walk
    decreases MAX_PAGES + 1 - page
  {
    if page > MAX_PAGES then Walk(rows, read, None)
    else
      match Turn(source, cutoff, page, rows, read)
      case Ended(w) => w
      case Onward(rows', read') => WalkFrom(source, cutoff, page + 1, rows', read')
  }

  function WalkAll(source: Source, cutoff: string, read: Summary): Walk {
    WalkFrom(source, cutoff, 1, [], read)
  }

  // ── what a walk means, for every source ────────────────────────────────────

  /** Every row of the first n pages. */
  function Fetched(source: Source, n: nat): seq<Row> {
    if n == 0 then []
    else Fetched(source, n - 1) + if source(n).Page? then source(n).rows else []
  }

  /** Page p was worth reading past: full, and not yet wholly below the cutoff. */
  predicate ReadsOn(source: Source, cutoff: string, p: nat) {
    && source(p).Page?
    && |source(p).rows| >= PAGE_SIZE
    && InWindow(source(p).rows, cutoff) != []
  }

  ghost predicate ReadsOnBefore(source: Source, cutoff: string, n: nat) {
    forall p :: 1 <= p < n ==> ReadsOn(source, cutoff, p)
  }

  lemma {:induction false} InWindowAppend(a: seq<Row>, b: seq<Row>, cutoff: string)
    ensures InWindow(a + b, cutoff) == InWindow(a, cutoff) + InWindow(b, cutoff)
  {
    if a == [] {
      assert a + b == b;
    } else {
      assert (a + b)[1..] == a[1..] + b;
      InWindowAppend(a[1..], b, cutoff);
    }
  }

  lemma InWindowNext(rows: seq<Row>, i: nat, cutoff: string)
    requires i < |rows|
    ensures InWindow(rows[..i + 1], cutoff) ==
            InWindow(rows[..i], cutoff) + if AtLeast(rows[i].financialDate, cutoff) then [rows[i]] else []
  {
    assert rows[..i + 1] == rows[..i] + [rows[i]];
    InWindowAppend(rows[..i], [rows[i]], cutoff);
  }

  lemma TrackedNext(rows: seq<Row>, i: nat, oldest: string, newest: string)
    requires i < |rows|
    ensures var (o, n) := Tracked(rows[..i], oldest, newest);
            var d := rows[i].financialDate;
            Tracked(rows[..i + 1], oldest, newest) == (Older(d, o), Newer(d, n))
  {
    assert rows[..i + 1][..i] == rows[..i];
  }

  lemma {:induction false} TrackedAppend(a: seq<Row>, b: seq<Row>, oldest: string, newest: string)
    ensures var (o, n) := Tracked(a, oldest, newest);
            Tracked(a + b, oldest, newest) == Tracked(b, o, n)
  {
    if b == [] {
      assert a + b == a;
    } else {
      assert (a + b)[..|a + b| - 1] == a + b[..|b| - 1];
      TrackedAppend(a, b[..|b| - 1], oldest, newest);
    }
  }

  /** The summary of having read exactly `rows` in n pages, from nothing. */
  function SummaryOf(n: nat, rows: seq<Row>): Summary {
    var (o, nw) := Tracked(rows, "", "");
    Summary(n, |rows|, o, nw)
  }

  /** The dates reported are the extremes of the non-empty dates scanned. */
  lemma {:induction false} TrackedExtremes(rows: seq<Row>)
    ensures var (o, n) := Tracked(rows, "", "");
            && (o == "" <==> forall m :: m in rows ==> m.financialDate == "")
            && (o != "" ==> exists m :: m in rows && m.financialDate == o)
            && (n != "" ==> exists m :: m in rows && m.financialDate == n)
            && (o == "" <==> n == "")
            && forall m :: m in rows && m.financialDate != "" ==>
                 AtLeast(m.financialDate, o) && AtLeast(n, m.financialDate)
  {
    if rows != [] {
      var init, last := rows[..|rows| - 1], rows[|rows| - 1];
      TrackedExtremes(init);
      var (o, n) := Tracked(init, "", "");
      assert rows == init + [last];
      forall m | m in rows && m.financialDate != ""
        ensures AtLeast(m.financialDate, Older(last.financialDate, o))
        ensures AtLeast(Newer(last.financialDate, n), m.financialDate)
      {
        BelowAsymmetric(last.financialDate, o);
        BelowAsymmetric(n, last.financialDate);
        BelowAsymmetric(last.financialDate, last.financialDate);
        if m in init {
          if Below(last.financialDate, o) {
            AtLeastTransitive(m.financialDate, o, last.financialDate);
          }
          if Below(n, last.financialDate) {
            AtLeastTransitive(last.financialDate, n, m.financialDate);
          }
        }
      }
    }
  }

  lemma BelowAsymmetric(a: string, b: string)
    ensures Below(a, b) ==> !Below(b, a)
  {
  }

  /** How a walk may end: on a last page, at the ceiling, or before an empty page. */
  predicate EndsAfter(source: Source, cutoff: string, n: nat) {
    n > 0 && source(n).Page? && source(n).rows != [] &&
    (!ReadsOn(source, cutoff, n) || n == MAX_PAGES || source(n + 1) == Page([]))
  }

  ghost predicate Explains(source: Source, cutoff: string, w: Walk) {
    var n := w.read.pages;
    var rows := Fetched(source, n);
    && n <= MAX_PAGES
    && w.rows == InWindow(rows, cutoff)
    && w.read == SummaryOf(n, rows)
    && ReadsOnBefore(source, cutoff, n)
    && match w.error
       case None => EndsAfter(source, cutoff, n)
       case Some(EmptyFirstPage) => n == 0 && source(1) == Page([])
       case Some(FetchFailed) => n < MAX_PAGES && source(n + 1) == Unavailable && (n > 0 ==> ReadsOn(source, cutoff, n))
  }

  /** The rows kept and the summary after exactly the first n pages. */
  function After(source: Source, cutoff: string, n: nat, error: Option<WalkError>): (w: Walk)
    ensures w.error == error
  {
    var rows := Fetched(source, n);
    Walk(InWindow(rows, cutoff), SummaryOf(n, rows), error)
  }

  /** One more page read extends the kept rows and the summary. */
  lemma ReadStep(source: Source, cutoff: string, page: nat, error: Option<WalkError>)
    requires page >= 1 && source(page).Page?
    ensures var start, batch := After(source, cutoff, page - 1, error), source(page).rows;
            After(source, cutoff, page, error) ==
            Walk(start.rows + InWindow(batch, cutoff), Read(start.read, batch), error)
  {
    var rows, batch := Fetched(source, page - 1), source(page).rows;
    assert Fetched(source, page) == rows + batch;
    InWindowAppend(rows, batch, cutoff);
    TrackedAppend(rows, batch, "", "");
  }

  /** The three ways a walk that has read n pages may end. */
  lemma EndMeaning(source: Source, cutoff: string, n: nat, error: Option<WalkError>)
    requires n <= MAX_PAGES && ReadsOnBefore(source, cutoff, n)
    requires match error
             case None => EndsAfter(source, cutoff, n)
             case Some(EmptyFirstPage) => n == 0 && source(1) == Page([])
             case Some(FetchFailed) => n < MAX_PAGES && source(n + 1) == Unavailable && (n > 0 ==> ReadsOn(source, cutoff, n))
    ensures Explains(source, cutoff, After(source, cutoff, n, error))
  {
  }

  lemma TurnMeaning(source: Source, cutoff: string, page: nat)
    requires 1 <= page <= MAX_PAGES && ReadsOnBefore(source, cutoff, page)
    ensures var start := After(source, cutoff, page - 1, None);
            match Turn(source, cutoff, page, start.rows, start.read)
            case Ended(w) => Explains(source, cutoff, w)
            case Onward(rows, read) => Walk(rows, read, None) == After(source, cutoff, page, None) && ReadsOn(source, cutoff, page)
  {
    assert page > 1 ==> ReadsOn(source, cutoff, page - 1);
    var start := After(source, cutoff, page - 1, None);
    if source(page) == Unavailable {
      EndMeaning(source, cutoff, page - 1, Some(FetchFailed));
    } else if source(page).rows == [] {
      EndMeaning(source, cutoff, page - 1, if page == 1 then Some(EmptyFirstPage) else None);
    } else {
      FullTurnMeaning(source, cutoff, page, start);
    }
  }

  lemma FullTurnMeaning(source: Source, cutoff: string, page: nat, start: Walk)
    requires 1 <= page <= MAX_PAGES && ReadsOnBefore(source, cutoff, page)
    requires source(page).Page? && source(page).rows != []
    requires start == After(source, cutoff, page - 1, None)
    ensures match Turn(source, cutoff, page, start.rows, start.read)
            case Ended(w) => Explains(source, cutoff, w)
            case Onward(rows, read) => Walk(rows, read, None) == After(source, cutoff, page, None) && ReadsOn(source, cutoff, page)
  {
    ReadStep(source, cutoff, page, None);
    if !ReadsOn(source, cutoff, page) {
      EndMeaning(source, cutoff, page, None);
    }
  }

  lemma WalkOnward(source: Source, cutoff: string, page: nat, rows: seq<Row>, read: Summary)
    ensures var turn := Turn(source, cutoff, page, rows, read);
            WalkFrom(source, cutoff, page, rows, read) ==
            if page > MAX_PAGES then Walk(rows, read, None)
            else if turn.Ended? then turn.walk
            else WalkFrom(source, cutoff, page + 1, turn.rows, turn.read)
  {
  }

  lemma {:induction false} WalkFromMeaning(source: Source, cutoff: string, page: nat)
    requires 1 <= page <= MAX_PAGES + 1 && ReadsOnBefore(source, cutoff, page)
    ensures var start := After(source, cutoff, page - 1, None);
            Explains(source, cutoff, WalkFrom(source, cutoff, page, start.rows, start.read))
    decreases MAX_PAGES + 1 - page
  {
    hide WalkFrom, Explains, After, Turn, ReadsOn, ReadsOnBefore, EndsAfter;
    var start := After(source, cutoff, page - 1, None);
    WalkOnward(source, cutoff, page, start.rows, start.read);
    if page > MAX_PAGES {
      CeilingMeaning(source, cutoff);
    } else {
      TurnMeaning(source, cutoff, page);
      if Turn(source, cutoff, page, start.rows, start.read).Onward? {
        ReadsOnNext(source, cutoff, page);
        WalkFromMeaning(source, cutoff, page + 1);
      }
    }
  }

  lemma CeilingMeaning(source: Source, cutoff: string)
    requires ReadsOnBefore(source, cutoff, MAX_PAGES + 1)
    ensures Explains(source, cutoff, After(source, cutoff, MAX_PAGES, None))
  {
    assert ReadsOn(source, cutoff, MAX_PAGES);
    EndMeaning(source, cutoff, MAX_PAGES, None);
  }

  lemma ReadsOnNext(source: Source, cutoff: string, page: nat)
    requires ReadsOnBefore(source, cutoff, page) && ReadsOn(source, cutoff, page)
    ensures ReadsOnBefore(source, cutoff, page + 1)
  {
  }

  /**
   For every source, sorted or not: the walk keeps exactly the rows at or after the
   cutoff among the pages it read, in order; it read on past every page that was full
   and held such a row, and stopped or failed where it says it did.
   */
  lemma WalkMeaning(source: Source, cutoff: string)
    ensures Explains(source, cutoff, WalkAll(source, cutoff, NOTHING_READ))
  {
    WalkFromMeaning(source, cutoff, 1);
  }

  lemma PageWasRead(source: Source, cutoff: string, w: Walk, p: nat)
    requires Explains(source, cutoff, w) && 1 <= p <= w.read.pages
    ensures source(p).Page? && source(p).rows != []
    ensures p < w.read.pages ==> ReadsOn(source, cutoff, p)
  {
    if p < w.read.pages {
      assert ReadsOn(source, cutoff, p);
    }
  }

  lemma ReadsAsFar(source: Source, cutoff: string, v: Walk, w: Walk)
    requires Explains(source, cutoff, v) && Explains(source, cutoff, w)
    ensures v.read.pages >= w.read.pages
  {
    hide SummaryOf, InWindow, Fetched;
    var m := v.read.pages;
    if m < w.read.pages {
      PageWasRead(source, cutoff, w, m + 1);
      if m > 0 {
        PageWasRead(source, cutoff, w, m);
      }
    }
  }

  /** That description fixes the walk: two explanations of one source agree in full. */
  lemma ExplainsUnique(source: Source, cutoff: string, v: Walk, w: Walk)
    requires Explains(source, cutoff, v) && Explains(source, cutoff, w)
    ensures v == w
  {
    ReadsAsFar(source, cutoff, v, w);
    ReadsAsFar(source, cutoff, w, v);
  }

  // ── early stopping loses nothing ───────────────────────────────────────────

  /** Ordered financialDate descending, as the report is. */
  ghost predicate Descending(ledger: seq<Row>) {
    forall i, j :: 0 <= i < j < |ledger| ==> AtLeast(ledger[i].financialDate, ledger[j].financialDate)
  }

  function Min(a: int, b: int): int {
    if a < b then a else b
  }

  function PageRows(ledger: seq<Row>, page: int): seq<Row> {
    if page < 1 then []
    else ledger[Min(PAGE_SIZE * (page - 1), |ledger|)..Min(PAGE_SIZE * page, |ledger|)]
  }

  /** An honest source: the ledger, unchanged for the length of one walk, cut into pages. */
  ghost predicate Serves(source: Source, ledger: seq<Row>) {
    forall page :: 1 <= page <= MAX_PAGES ==> source(page) == Page(PageRows(ledger, page))
  }

  /** The first k rows are in the window and the others are not. */
  ghost predicate CutAt(ledger: seq<Row>, cutoff: string, k: nat) {
    && k <= |ledger|
    && (forall i :: 0 <= i < k ==> AtLeast(ledger[i].financialDate, cutoff))
    && (forall i :: k <= i < |ledger| ==> !AtLeast(ledger[i].financialDate, cutoff))
  }

  lemma {:induction false} CutWindow(rows: seq<Row>, cutoff: string, k: nat)
    requires CutAt(rows, cutoff, k)
    ensures InWindow(rows, cutoff) == rows[..k]
  {
    hide Below;
    if rows != [] {
      CutWindow(rows[1..], cutoff, if k == 0 then 0 else k - 1);
    }
  }

  lemma {:induction false} DescendingCut(ledger: seq<Row>, cutoff: string)
    requires Descending(ledger)
    ensures CutAt(ledger, cutoff, |InWindow(ledger, cutoff)|)
  {
    if ledger == [] {
    } else if AtLeast(ledger[0].financialDate, cutoff) {
      DescendingCut(ledger[1..], cutoff);
      var k := |InWindow(ledger[1..], cutoff)|;
      assert forall i :: 1 <= i < |ledger| ==> ledger[i] == ledger[1..][i - 1];
    } else {
      forall i | 0 <= i < |ledger|
        ensures !AtLeast(ledger[i].financialDate, cutoff)
      {
        if i > 0 && AtLeast(ledger[i].financialDate, cutoff) {
          AtLeastTransitive(ledger[0].financialDate, ledger[i].financialDate, cutoff);
        }
      }
      CutWindow(ledger, cutoff, 0);
    }
  }

  const REACH: nat := PAGE_SIZE * MAX_PAGES

  lemma PageWindow(ledger: seq<Row>, cutoff: string, k: nat, page: nat)
    requires CutAt(ledger, cutoff, k) && page >= 1
    ensures var lo, hi := Min(PAGE_SIZE * (page - 1), |ledger|), Min(PAGE_SIZE * page, |ledger|);
            InWindow(PageRows(ledger, page), cutoff) == if k <= lo then [] else ledger[lo..Min(hi, k)]
  {
    hide Below, AtLeast, InWindow;
    var start, end := PAGE_SIZE * (page - 1), PAGE_SIZE * page;
    assert end == start + PAGE_SIZE;
    var lo, hi := Min(start, |ledger|), Min(end, |ledger|);
    var batch := ledger[lo..hi];
    assert PageRows(ledger, page) == batch;
    var cut := if k <= lo then 0 else Min(hi, k) - lo;
    assert forall i :: 0 <= i < |batch| ==> batch[i] == ledger[lo + i];
    CutWindow(batch, cutoff, cut);
    assert batch[..cut] == if k <= lo then [] else ledger[lo..Min(hi, k)];
  }

  /** The kept rows after the pages before `page`. */
  function KeptBefore(ledger: seq<Row>, k: nat, page: nat): seq<Row>
    requires k <= |ledger| && page >= 1
  {
    ledger[..Min(PAGE_SIZE * (page - 1), k)]
  }

  lemma KeptStep(ledger: seq<Row>, cutoff: string, k: nat, page: nat)
    requires k <= |ledger| && CutAt(ledger, cutoff, k) && page >= 1
    ensures var batch := PageRows(ledger, page);
            var kept := InWindow(batch, cutoff);
            && KeptBefore(ledger, k, page) + kept == KeptBefore(ledger, k, page + 1)
            && (kept == [] || |batch| < PAGE_SIZE ==> k <= PAGE_SIZE * page)
            && (batch == [] ==> |ledger| <= PAGE_SIZE * (page - 1))
  {
    hide CutAt, InWindow, AtLeast;
    PageWindow(ledger, cutoff, k, page);
    var start, end := PAGE_SIZE * (page - 1), PAGE_SIZE * page;
    assert end == start + PAGE_SIZE;
    var lo, hi := Min(start, |ledger|), Min(end, |ledger|);
    if k <= lo {
      assert Min(start, k) == Min(end, k) == k;
    } else {
      assert ledger[..lo] + ledger[lo..Min(hi, k)] == ledger[..Min(hi, k)];
    }
  }

  lemma HonestTurn(source: Source, ledger: seq<Row>, cutoff: string, k: nat, page: nat, read: Summary)
    requires Serves(source, ledger) && CutAt(ledger, cutoff, k) && ledger != []
    requires 1 <= page <= MAX_PAGES
    ensures match Turn(source, cutoff, page, KeptBefore(ledger, k, page), read)
            case Ended(w) => w.error == None && w.rows == ledger[..Min(REACH, k)]
            case Onward(rows, _) => rows == KeptBefore(ledger, k, page + 1)
  {
    KeptStep(ledger, cutoff, k, page);
  }

  lemma {:induction false} HonestWalk(source: Source, ledger: seq<Row>, cutoff: string, k: nat, page: nat, read: Summary)
    requires k <= |ledger| && CutAt(ledger, cutoff, k)
    requires Serves(source, ledger) && ledger != []
    requires 1 <= page <= MAX_PAGES + 1
    ensures var w := WalkFrom(source, cutoff, page, KeptBefore(ledger, k, page), read);
            w.error == None && w.rows == ledger[..Min(REACH, k)]
    decreases MAX_PAGES + 1 - page
  {
    hide WalkFrom, Turn, Serves, CutAt;
    assert page == MAX_PAGES + 1 ==> KeptBefore(ledger, k, page) == ledger[..Min(REACH, k)];
    hide KeptBefore;
    var kept := KeptBefore(ledger, k, page);
    WalkOnward(source, cutoff, page, kept, read);
    if page <= MAX_PAGES {
      HonestTurn(source, ledger, cutoff, k, page, read);
      var turn := Turn(source, cutoff, page, kept, read);
      if turn.Onward? {
        HonestWalk(source, ledger, cutoff, k, page + 1, turn.read);
      }
    }
  }

  /**
   On a report sorted by date descending the walk fails only when the report is empty, and
   returns the newest 30,000 rows of the window, so it loses nothing exactly when the
   window holds no more.
   */
  lemma HonestWindow(source: Source, ledger: seq<Row>, cutoff: string)
    requires Serves(source, ledger) && Descending(ledger)
    ensures var w := WalkAll(source, cutoff, NOTHING_READ);
            var window := InWindow(ledger, cutoff);
            && w.error == (if ledger == [] then Some(EmptyFirstPage) else None)
            && w.rows == window[..Min(30_000, |window|)]
            && (w.rows == window <==> |window| <= 30_000)
  {
    DescendingCut(ledger, cutoff);
    var k := |InWindow(ledger, cutoff)|;
    CutWindow(ledger, cutoff, k);
    if ledger == [] {
      assert source(1) == Page(PageRows(ledger, 1));
      WalkOnward(source, cutoff, 1, [], NOTHING_READ);
    } else {
      assert KeptBefore(ledger, k, 1) == [];
      HonestWalk(source, ledger, cutoff, k, 1, NOTHING_READ);
    }
    assert ledger[..k][..Min(REACH, k)] == ledger[..Min(REACH, k)];
  }
}
