/**
 The destructive refresh: three snapshot books are cleared and refilled in one
 transaction, each behind a count of what will land.
 */
module SnapshotRefresh {
  import opened Wrappers
  import opened ShrinkGuard

  /** A fetched record: the key its book is indexed by, and the rest of it. */
  datatype Record = Record(key: string, body: string)

  type Book = map<string, Record>

  datatype Books = Books(products: Book, loans: Book, fds: Book)

  datatype Fetch = Fetched(rows: seq<Record>) | FetchFailed

  datatype SyncError = FetchError | BookShrank | DatabaseFailed

  /** The statements the database may fail: one refresh, or the commit. */
  datatype Fault = InProducts | InLoans | InFDs | AtCommit

  /** Everything one run reads besides the books. */
  datatype Inputs = Inputs(products: Fetch, loans: Fetch, fds: Fetch, settings: Settings, fault: Option<Fault>)

  // ── the guard ──────────────────────────────────────────────────────────────

  ghost function Keys(rows: seq<Record>): set<string> {
    set m | m in rows && m.key != "" :: m.key
  }

  /** countKeyed: how many rows the refresh will really insert. */
  method CountKeyed(rows: seq<Record>) returns (n: nat)
    ensures n == |Keys(rows)|
  {
    var seen: set<string> := {};
    for i := 0 to |rows|
      invariant seen == Keys(rows[..i])
    {
      KeysNext(rows, i);
      if rows[i].key != "" {
        seen := seen + {rows[i].key};
      }
    }
    assert rows[..|rows|] == rows;
    n := |seen|;
  }

  lemma KeysNext(rows: seq<Record>, i: nat)
    requires i < |rows|
    ensures Keys(rows[..i + 1]) == Keys(rows[..i]) + if rows[i].key == "" then {} else {rows[i].key}
  {
    assert rows[..i + 1] == rows[..i] + [rows[i]];
  }

  /** guardRefresh, given the count before. */
  function GuardRefresh(before: nat, incoming: nat, settings: Settings): Option<SyncError> {
    if before == 0 || incoming >= before then None
    else if settings.allowShrink then None
    else if incoming == 0 then Some(BookShrank)
    else if before - incoming > Allowance(before, settings) then Some(BookShrank)
    else None
  }

  // ── what a refresh leaves behind ───────────────────────────────────────────

  /** Whether a later record under a held key replaces the earlier one. */
  datatype OnConflict = KeepFirst | KeepLast

  function Landed(rows: seq<Record>, conflict: OnConflict): Book {
    if rows == [] then map[]
    else
      var book, m := Landed(rows[..|rows| - 1], conflict), rows[|rows| - 1];
      if m.key == "" || (m.key in book && conflict == KeepFirst) then book else book[m.key := m]
  }

  /** One row lands per distinct non-empty key, and it is a fetched record under that key. */
  lemma {:induction false} LandedKeys(rows: seq<Record>, conflict: OnConflict)
    ensures Landed(rows, conflict).Keys == Keys(rows)
    ensures forall k :: k in Landed(rows, conflict) ==>
              Landed(rows, conflict)[k] in rows && Landed(rows, conflict)[k].key == k
  {
    if rows != [] {
      LandedKeys(rows[..|rows| - 1], conflict);
      KeysNext(rows, |rows| - 1);
      assert rows[..|rows|] == rows;
    }
  }

  lemma LandedSize(rows: seq<Record>, conflict: OnConflict)
    ensures |Landed(rows, conflict)| == |Keys(rows)|
  {
    LandedKeys(rows, conflict);
    assert |Landed(rows, conflict)| == |Landed(rows, conflict).Keys|;
  }

  /** Which of several records under one key stays: the first for products, the last for loans and deposits. */
  lemma {:induction false} LandedChoice(rows: seq<Record>, conflict: OnConflict, i: nat)
    requires i < |rows| && rows[i].key != ""
    requires conflict == KeepFirst ==> forall j :: 0 <= j < i ==> rows[j].key != rows[i].key
    requires conflict == KeepLast ==> forall j :: i < j < |rows| ==> rows[j].key != rows[i].key
    ensures rows[i].key in Landed(rows, conflict) && Landed(rows, conflict)[rows[i].key] == rows[i]
  {
    var before := rows[..|rows| - 1];
    if i == |rows| - 1 {
      LandedKeys(before, conflict);
    } else {
      LandedChoice(before, conflict, i);
    }
  }

  /** One book's refresh: the guard, then clear and refill. */
  function Refreshed(book: Book, rows: seq<Record>, conflict: OnConflict, settings: Settings, faulty: bool)
    : Result<Book, SyncError>
  {
    match GuardRefresh(|book|, |Landed(rows, conflict)|, settings)
    case Some(e) => Failure(e)
    case None => if faulty then Failure(DatabaseFailed) else Success(Landed(rows, conflict))
  }

  /** doSync up to its commit. */
  function Synced(b: Books, run: Inputs): Result<Books, SyncError> {
    if run.products.FetchFailed? || run.loans.FetchFailed? || run.fds.FetchFailed? then Failure(FetchError)
    else
      match Refreshed(b.products, run.products.rows, KeepFirst, run.settings, run.fault == Some(InProducts))
      case Failure(e) => Failure(e)
      case Success(products) =>
        match Refreshed(b.loans, run.loans.rows, KeepLast, run.settings, run.fault == Some(InLoans))
        case Failure(e) => Failure(e)
        case Success(loans) =>
          match Refreshed(b.fds, run.fds.rows, KeepLast, run.settings, run.fault == Some(InFDs))
          case Failure(e) => Failure(e)
          case Success(fds) =>
            if run.fault == Some(AtCommit) then Failure(DatabaseFailed) else Success(Books(products, loans, fds))
  }

  class Snapshot {
    var products: Book
    var loans: Book
    var fds: Book

    function Held(): Books
      reads this
    {
      Books(products, loans, fds)
    }

    constructor ()
      ensures Held() == Books(map[], map[], map[])
    {
      products, loans, fds := map[], map[], map[];
    }

    /** refreshProducts, refreshLoans and refreshFDs on the transaction's copy of one book. */
    static method Refresh(book: Book, rows: seq<Record>, conflict: OnConflict, settings: Settings, faulty: bool)
      returns (r: Result<Book, SyncError>)
      ensures r == Refreshed(book, rows, conflict, settings, faulty)
    {
      LandedSize(rows, conflict);
      hide Allowance;
      var incoming := CountKeyed(rows);
      var refusal := GuardRefresh(|book|, incoming, settings);
      if refusal.Some? {
        return Failure(refusal.value);
      }
      if faulty {
        return Failure(DatabaseFailed);
      }
      var tx: Book := map[];
      for i := 0 to |rows|
        invariant tx == Landed(rows[..i], conflict)
      {
        assert rows[..i + 1][..i] == rows[..i];
        var m := rows[i];
        if m.key == "" || (m.key in tx && conflict == KeepFirst) {
          continue;
        }
        tx := tx[m.key := m];
      }
      assert rows[..|rows|] == rows;
      return Success(tx);
    }

    /** doSync: all three books change together at the commit, or none does. */
    method DoSync(run: Inputs) returns (error: Option<SyncError>)
      modifies this
      ensures match Synced(old(Held()), run)
              case Success(b) => error == None && Held() == b
              case Failure(e) => error == Some(e) && Held() == old(Held())
    {
      hide Refreshed;
      if run.products.FetchFailed? || run.loans.FetchFailed? || run.fds.FetchFailed? {
        return Some(FetchError);
      }
      var p := Refresh(products, run.products.rows, KeepFirst, run.settings, run.fault == Some(InProducts));
      if p.Failure? {
        return Some(p.error);
      }
      var l := Refresh(loans, run.loans.rows, KeepLast, run.settings, run.fault == Some(InLoans));
      if l.Failure? {
        return Some(l.error);
      }
      var f := Refresh(fds, run.fds.rows, KeepLast, run.settings, run.fault == Some(InFDs));
      if f.Failure? {
        return Some(f.error);
      }
      if run.fault == Some(AtCommit) {
        return Some(DatabaseFailed);
      }
      products, loans, fds := p.value, l.value, f.value;
      error := None;
    }
  }

  // ── over any number of runs ────────────────────────────────────────────────

  function After(b: Books, run: Inputs): Books {
    match Synced(b, run)
    case Success(b') => b'
    case Failure(_) => b
  }

  function AfterAll(b: Books, runs: seq<Inputs>): Books {
    if runs == [] then b else After(AfterAll(b, runs[..|runs| - 1]), runs[|runs| - 1])
  }

  /** A resize that may be committed: no loss, or an overridden one, or a part of the book the thresholds allow. */
  ghost predicate Tolerated(before: nat, after: nat, settings: Settings) {
    after >= before || settings.allowShrink || (after > 0 && !TooFar(before, after, settings))
  }

  /** The guard refuses exactly the others. */
  lemma GuardRefreshExact(before: nat, after: nat, settings: Settings)
    ensures GuardRefresh(before, after, settings) == if Tolerated(before, after, settings) then None else Some(BookShrank)
  {
    hide Allowance, TooFar;
    if after < before {
      AllowanceExact(before, after, settings);
    }
  }

  ghost predicate Passes(book: Book, rows: seq<Record>, settings: Settings) {
    Tolerated(|book|, |Keys(rows)|, settings)
  }

  lemma RefreshedMeaning(book: Book, rows: seq<Record>, conflict: OnConflict, settings: Settings, faulty: bool)
    ensures var r := Refreshed(book, rows, conflict, settings, faulty);
            && (r.Success? <==> Passes(book, rows, settings) && !faulty)
            && (r.Success? ==> r.value.Keys == Keys(rows))
  {
    hide GuardRefresh, Landed, Keys, Tolerated;
    LandedSize(rows, conflict);
    LandedKeys(rows, conflict);
    GuardRefreshExact(|book|, |Keys(rows)|, settings);
  }

  /**
   All or nothing: the run commits exactly when every fetch answers, the database does not
   fail, and all three guards pass; then each book is exactly its fetch's keyed records,
   as many as its guard approved. Otherwise no book changes.
   */
  lemma AllOrNothing(b: Books, run: Inputs)
    ensures Synced(b, run).Success? <==>
            && run.products.Fetched? && run.loans.Fetched? && run.fds.Fetched? && run.fault == None
            && Passes(b.products, run.products.rows, run.settings)
            && Passes(b.loans, run.loans.rows, run.settings)
            && Passes(b.fds, run.fds.rows, run.settings)
    ensures Synced(b, run).Success? ==>
            && After(b, run).products.Keys == Keys(run.products.rows)
            && After(b, run).loans.Keys == Keys(run.loans.rows)
            && After(b, run).fds.Keys == Keys(run.fds.rows)
    ensures Synced(b, run).Failure? ==> After(b, run) == b
  {
    hide Refreshed, Passes, Keys;
    assert run.fault.Some? ==> match run.fault.value
                               case InProducts => run.fault == Some(InProducts)
                               case InLoans => run.fault == Some(InLoans)
                               case InFDs => run.fault == Some(InFDs)
                               case AtCommit => run.fault == Some(AtCommit);
    if run.products.Fetched? && run.loans.Fetched? && run.fds.Fetched? {
      RefreshedMeaning(b.products, run.products.rows, KeepFirst, run.settings, run.fault == Some(InProducts));
      RefreshedMeaning(b.loans, run.loans.rows, KeepLast, run.settings, run.fault == Some(InLoans));
      RefreshedMeaning(b.fds, run.fds.rows, KeepLast, run.settings, run.fault == Some(InFDs));
    }
  }

  datatype Which = Products | Loans | FixedDeposits

  function Size(b: Books, book: Which): nat {
    match book
    case Products => |b.products|
    case Loans => |b.loans|
    case FixedDeposits => |b.fds|
  }

  /** One run either leaves a book as it was or resizes it to a size its guard passed. */
  lemma SizeStep(b: Books, run: Inputs, book: Which)
    ensures var before, after := Size(b, book), Size(After(b, run), book);
            before == after || Tolerated(before, after, run.settings)
  {
    hide Tolerated, Synced, Keys;
    AllOrNothing(b, run);
    SizeOfKeys(After(b, run).products);
    SizeOfKeys(After(b, run).loans);
    SizeOfKeys(After(b, run).fds);
  }

  lemma SizeOfKeys(book: Book)
    ensures |book| == |book.Keys|
  {
  }

  /** A committed run keeps, of the records under a key, the first fetched of a product and the last of a loan or deposit. */
  lemma BooksExact(b: Books, run: Inputs, i: nat)
    requires Synced(b, run).Success?
    ensures var rows, book := run.products.rows, After(b, run).products;
            i < |rows| && rows[i].key != "" && (forall j :: 0 <= j < i ==> rows[j].key != rows[i].key) ==>
              rows[i].key in book && book[rows[i].key] == rows[i]
    ensures var rows, book := run.loans.rows, After(b, run).loans;
            i < |rows| && rows[i].key != "" && (forall j :: i < j < |rows| ==> rows[j].key != rows[i].key) ==>
              rows[i].key in book && book[rows[i].key] == rows[i]
    ensures var rows, book := run.fds.rows, After(b, run).fds;
            i < |rows| && rows[i].key != "" && (forall j :: i < j < |rows| ==> rows[j].key != rows[i].key) ==>
              rows[i].key in book && book[rows[i].key] == rows[i]
  {
    hide GuardRefresh, Landed;
    var products, loans, fds := run.products.rows, run.loans.rows, run.fds.rows;
    if i < |products| && products[i].key != "" && (forall j :: 0 <= j < i ==> products[j].key != products[i].key) {
      LandedChoice(products, KeepFirst, i);
    }
    if i < |loans| && loans[i].key != "" && (forall j :: i < j < |loans| ==> loans[j].key != loans[i].key) {
      LandedChoice(loans, KeepLast, i);
    }
    if i < |fds| && fds[i].key != "" && (forall j :: i < j < |fds| ==> fds[j].key != fds[i].key) {
      LandedChoice(fds, KeepLast, i);
    }
  }

  /** How a run that does not commit ends. */
  lemma RefusalExact(b: Books, run: Inputs)
    requires Synced(b, run).Failure?
    ensures Synced(b, run).error == FetchError <==> run.products.FetchFailed? || run.loans.FetchFailed? || run.fds.FetchFailed?
    ensures Synced(b, run).error == DatabaseFailed ==> run.fault.Some?
    ensures Synced(b, run).error == BookShrank ==>
              || !Passes(b.products, run.products.rows, run.settings)
              || !Passes(b.loans, run.loans.rows, run.settings)
              || !Passes(b.fds, run.fds.rows, run.settings)
  {
    hide Refreshed, Passes;
    if run.products.Fetched? && run.loans.Fetched? && run.fds.Fetched? {
      RefusedBook(b.products, run.products.rows, KeepFirst, run.settings, run.fault == Some(InProducts));
      RefusedBook(b.loans, run.loans.rows, KeepLast, run.settings, run.fault == Some(InLoans));
      RefusedBook(b.fds, run.fds.rows, KeepLast, run.settings, run.fault == Some(InFDs));
    }
  }

  lemma RefusedBook(book: Book, rows: seq<Record>, conflict: OnConflict, settings: Settings, faulty: bool)
    ensures var r := Refreshed(book, rows, conflict, settings, faulty);
            r.Failure? ==>
              && r.error in {BookShrank, DatabaseFailed}
              && (r.error == BookShrank <==> !Passes(book, rows, settings))
              && (r.error == DatabaseFailed ==> faulty)
  {
    hide GuardRefresh, Landed, Keys, Tolerated;
    LandedSize(rows, conflict);
    GuardRefreshExact(|book|, |Keys(rows)|, settings);
  }

  ghost predicate NoOverride(runs: seq<Inputs>) {
    forall run :: run in runs ==> !run.settings.allowShrink
  }

  /** With the override off, no number of runs under any thresholds empties a non-empty book. */
  lemma NeverDrained(b: Books, runs: seq<Inputs>)
    requires NoOverride(runs)
    ensures |b.products| > 0 ==> |AfterAll(b, runs).products| > 0
    ensures |b.loans| > 0 ==> |AfterAll(b, runs).loans| > 0
    ensures |b.fds| > 0 ==> |AfterAll(b, runs).fds| > 0
  {
    hide AfterAll;
    forall book | Size(b, book) > 0
      ensures Size(AfterAll(b, runs), book) > 0
    {
      BookNeverDrained(b, runs, book);
    }
    assert Size(b, Products) == |b.products| && Size(b, Loans) == |b.loans| && Size(b, FixedDeposits) == |b.fds|;
  }

  lemma {:induction false} BookNeverDrained(b: Books, runs: seq<Inputs>, book: Which)
    requires NoOverride(runs) && Size(b, book) > 0
    ensures Size(AfterAll(b, runs), book) > 0
  {
    hide After, TooFar;
    if runs != [] {
      var before, last := runs[..|runs| - 1], runs[|runs| - 1];
      assert last in runs;
      BookNeverDrained(b, before, book);
      SizeStep(AfterAll(b, before), last, book);
    }
  }

  function Power(base: nat, k: nat): nat {
    if k == 0 then 1 else base * Power(base, k - 1)
  }

  ghost predicate DefaultRuns(runs: seq<Inputs>) {
    forall run :: run in runs ==> run.settings == DEFAULTS
  }

  /** Every book on the way, the last one left out, holds at least 8 rows. */
  ghost predicate StaysLarge(b: Books, runs: seq<Inputs>, book: Which)
  {
    forall i :: 0 <= i < |runs| ==> Size(AfterAll(b, runs[..i]), book) >= 8
  }

  lemma QuarterStep(before: nat, after: nat)
    requires before >= 8 && (before == after || Tolerated(before, after, DEFAULTS))
    ensures 4 * after >= 3 * before
  {
    hide TooFar;
    DefaultTooFar(before, after);
  }

  lemma PowerStep(size: nat, next: nat, start: nat, p3: nat, p4: nat)
    requires size * p4 >= start * p3 && 4 * next >= 3 * size
    ensures next * (4 * p4) >= start * (3 * p3)
  {
    assert next * (4 * p4) == (4 * next) * p4;
    assert (4 * next) * p4 >= (3 * size) * p4;
    assert (3 * size) * p4 == 3 * (size * p4);
    assert start * (3 * p3) == 3 * (start * p3);
  }

  /** Under the defaults a book of at least 8 rows loses at most a quarter a run. */
  lemma {:induction false} ShrinksByQuarters(b: Books, runs: seq<Inputs>, book: Which)
    requires DefaultRuns(runs) && StaysLarge(b, runs, book)
    ensures Size(AfterAll(b, runs), book) * Power(4, |runs|) >= Size(b, book) * Power(3, |runs|)
  {
    hide After, Tolerated, Size;
    if runs != [] {
      var n := |runs| - 1;
      var before, last := runs[..n], runs[n];
      assert last in runs;
      forall i | 0 <= i < |before|
        ensures Size(AfterAll(b, before[..i]), book) >= 8
      {
        assert before[..i] == runs[..i];
      }
      ShrinksByQuarters(b, before, book);
      SizeStep(AfterAll(b, before), last, book);
      QuarterStep(Size(AfterAll(b, before), book), Size(AfterAll(b, runs), book));
      PowerStep(Size(AfterAll(b, before), book), Size(AfterAll(b, runs), book), Size(b, book), Power(3, n), Power(4, n));
    }
  }
}
