/**
 The blank-means-no-change upsert shared by the feeds, over any set of columns.

 A parsed row carries only its non-blank columns, so COALESCE(NULLIF(new, ''), old) in
 every column is: the new value where the row has one, the held value elsewhere.
 */
module MergeTable {
  import opened Wrappers
  import opened Sequences
  import opened FeedCore

  datatype Value = Text(text: string) | Number(number: real) | Day(day: int) | Flag(flag: bool)

  datatype Row<C> = Row(key: string, columns: map<C, Value>)

  type Table<C> = map<string, map<C, Value>>

  /** A text to be written: none when blank. */
  function AsText(s: string): Option<Value> {
    if s == "" then None else Some(Text(s))
  }

  function Merge<C>(held: map<C, Value>, row: map<C, Value>): map<C, Value> {
    map c | c in held.Keys + row.Keys :: if c in row then row[c] else held[c]
  }

  /** INSERT … ON CONFLICT (key) DO UPDATE with every column merged. */
  function Upsert<C>(t: Table<C>, row: Row<C>): Table<C> {
    t[row.key := if row.key in t then Merge(t[row.key], row.columns) else row.columns]
  }

  function UpsertAll<C>(t: Table<C>, rows: seq<Row<C>>): Table<C> {
    if rows == [] then t else Upsert(UpsertAll(t, rows[..|rows| - 1]), rows[|rows| - 1])
  }

  lemma {:induction false} UpsertConcat<C>(t: Table<C>, a: seq<Row<C>>, b: seq<Row<C>>)
    ensures UpsertAll(t, a + b) == UpsertAll(UpsertAll(t, a), b)
  {
    if b == [] {
      assert a + b == a;
    } else {
      assert (a + b)[..|a + b| - 1] == a + b[..|b| - 1];
      UpsertConcat(t, a, b[..|b| - 1]);
    }
  }

  /** The last row that sets a column of a key, or -1. */
  function LastSet<C>(rows: seq<Row<C>>, key: string, c: C): (i: int)
    ensures -1 <= i < |rows|
    ensures i >= 0 ==> rows[i].key == key && c in rows[i].columns
    ensures forall j :: i < j < |rows| ==> !(rows[j].key == key && c in rows[j].columns)
  {
    if rows == [] then -1
    else
      var last := |rows| - 1;
      if rows[last].key == key && c in rows[last].columns then last else LastSet(rows[..last], key, c)
  }

  /** A column of a row, if it is set. */
  function At<C>(columns: map<C, Value>, c: C): Option<Value> {
    if c in columns then Some(columns[c]) else None
  }

  /** What a column of a key holds, if anything. */
  function Held<C>(t: Table<C>, key: string, c: C): Option<Value> {
    if key in t && c in t[key] then Some(t[key][c]) else None
  }

  /** Each column holds the last non-blank value offered for it, or its old value if none was. */
  lemma {:induction false} LastNonBlankWins<C>(t: Table<C>, rows: seq<Row<C>>, key: string, c: C)
    ensures var i := LastSet(rows, key, c);
            Held(UpsertAll(t, rows), key, c) == if i == -1 then Held(t, key, c) else Some(rows[i].columns[c])
  {
    if rows != [] {
      var before := rows[..|rows| - 1];
      LastNonBlankWins(t, before, key, c);
    }
  }

  // ── as an applier of feed files ────────────────────────────────────────────

  /** A feed: how a line parses to a row, which lines it counts as read, and which rows the database refuses. */
  datatype Feed<!C> = Feed(
    parse: (FileMeta, string) -> Option<Row<C>>,
    counts: string -> bool,
    refuses: Row<C> -> bool)

  function RowsOf<C>(f: File, feed: Feed<C>): seq<Row<C>> {
    if f.content.Lines? then Collect(f.content.lines, (line: string) => feed.parse(f.meta, line)) else []
  }

  predicate Accepted<C>(rows: seq<Row<C>>, feed: Feed<C>) {
    forall i :: 0 <= i < |rows| ==> !feed.refuses(rows[i])
  }

  function LinesOf(f: File): seq<string> {
    if f.content.Lines? then f.content.lines else []
  }

  /** The rows upserted into a table, by whether their key is new; the lines with no row are rejected. */
  function Upserted<C>(t: Table<C>, rows: seq<Row<C>>, lines: nat, read: nat): Outcome<Table<C>> {
    var after := UpsertAll(t, rows);
    Outcome(after, read, |after| - |t|, |rows| - (|after| - |t|), lines - |rows|)
  }

  /** One refused row rolls the whole file back. */
  function ApplyRows<C>(feed: Feed<C>): Applier<Table<C>> {
    (t: Table<C>, f: File) =>
      if Accepted(RowsOf(f, feed), feed)
      then Some(Upserted(t, RowsOf(f, feed), |LinesOf(f)|, Count(LinesOf(f), feed.counts)))
      else None
  }

  /** One more item of a file: what it adds, and that a refused row refuses the whole file. */
  lemma ItemStep<A, C>(t: Table<C>, items: seq<A>, i: nat, row: A -> Option<Row<C>>, feed: Feed<C>)
    requires i < |items|
    ensures var so, next := Collect(items[..i], row), Collect(items[..i + 1], row);
            && |next| == |so| + (if row(items[i]).Some? then 1 else 0)
            && UpsertAll(t, next) == (if row(items[i]).None? then UpsertAll(t, so) else Upsert(UpsertAll(t, so), row(items[i]).value))
            && (Accepted(next, feed) <==> Accepted(so, feed) && (row(items[i]).Some? ==> !feed.refuses(row(items[i]).value)))
            && (Accepted(Collect(items, row), feed) ==> Accepted(next, feed))
  {
    hide Upsert, Collect;
    CollectNext(items, i, row);
    PrefixCollected(items, i + 1, row);
    var so, next := Collect(items[..i], row), Collect(items[..i + 1], row);
    if row(items[i]).Some? {
      assert next[..|next| - 1] == so;
    } else {
      assert next == so;
    }
  }

  lemma NoItems<A, C>(t: Table<C>, row: A -> Option<Row<C>>, feed: Feed<C>)
    ensures Collect([], row) == [] && UpsertAll(t, Collect([], row)) == t && Accepted(Collect([], row), feed)
  {
  }

  lemma {:induction false} CollectedAndNot<A, B>(rows: seq<A>, f: A -> Option<B>, none: A -> bool)
    requires forall a :: none(a) <==> f(a).None?
    ensures |Collect(rows, f)| + Count(rows, none) == |rows|
  {
    if rows != [] {
      CollectedAndNot(rows[..|rows| - 1], f, none);
    }
  }

  lemma {:induction false} UpsertKeys<C>(t: Table<C>, rows: seq<Row<C>>)
    ensures UpsertAll(t, rows).Keys == t.Keys + set row | row in rows :: row.key
  {
    if rows != [] {
      var before, last := rows[..|rows| - 1], rows[|rows| - 1];
      UpsertKeys(t, before);
      assert rows == before + [last];
      assert (set row | row in rows :: row.key) == (set row | row in before :: row.key) + {last.key};
    }
  }

  /** A file is rolled back exactly when the database refuses the row of one of its lines. */
  lemma RolledBackExact<C(!new)>(t: Table<C>, f: File, feed: Feed<C>)
    ensures ApplyRows(feed)(t, f).None? <==> exists line :: line in LinesOf(f) && Refused(feed, f.meta, line)
  {
    hide Count, UpsertAll;
    var parse := (line: string) => feed.parse(f.meta, line);
    var rows := RowsOf(f, feed);
    RowsAreCollected(f, feed, parse);
    CollectMembers(LinesOf(f), parse);
    if Accepted(rows, feed) {
      forall line | line in LinesOf(f)
        ensures !Refused(feed, f.meta, line)
      {
        if parse(line).Some? {
          assert parse(line).value in rows;
        }
      }
    } else {
      var i :| 0 <= i < |rows| && feed.refuses(rows[i]);
      assert rows[i] in rows;
      var line :| line in LinesOf(f) && parse(line) == Some(rows[i]);
      assert Refused(feed, f.meta, line);
    }
  }

  predicate Refused<C>(feed: Feed<C>, meta: FileMeta, line: string) {
    feed.parse(meta, line).Some? && feed.refuses(feed.parse(meta, line).value)
  }

  /** A file that is not holds every key held before or given by a line, and no other. */
  lemma FileKeys<C(!new)>(t: Table<C>, f: File, feed: Feed<C>, key: string)
    requires ApplyRows(feed)(t, f).Some?
    ensures key in ApplyRows(feed)(t, f).value.data <==>
            key in t || exists line :: line in LinesOf(f) && GivesKey(feed, f.meta, line, key)
  {
    hide Count, UpsertAll, Accepted;
    var parse := (line: string) => feed.parse(f.meta, line);
    var rows := RowsOf(f, feed);
    RowsAreCollected(f, feed, parse);
    CollectMembers(LinesOf(f), parse);
    UpsertKeys(t, rows);
    if row :| row in rows && row.key == key {
      var line :| line in LinesOf(f) && parse(line) == Some(row);
      assert GivesKey(feed, f.meta, line, key);
    }
    if line :| line in LinesOf(f) && GivesKey(feed, f.meta, line, key) {
      assert parse(line).value in rows;
    }
  }

  /**
   Its counters: the lines the feed counts are the rows read; the keys new are inserted, the
   other rows are updates, and the lines that give no row are rejected.
   */
  lemma OutcomeExact<C>(t: Table<C>, f: File, feed: Feed<C>)
    requires ApplyRows(feed)(t, f).Some?
    ensures var o := ApplyRows(feed)(t, f).value;
            && o.rows == Count(LinesOf(f), feed.counts)
            && o.inserted == |o.data| - |t|
            && o.rejected == Count(LinesOf(f), (line: string) => feed.parse(f.meta, line).None?)
            && o.inserted + o.updated + o.rejected == |LinesOf(f)|
  {
    hide Count, UpsertAll, Accepted;
    var parse := (line: string) => feed.parse(f.meta, line);
    RowsAreCollected(f, feed, parse);
    CollectedAndNot(LinesOf(f), parse, (line: string) => feed.parse(f.meta, line).None?);
  }

  predicate GivesKey<C>(feed: Feed<C>, meta: FileMeta, line: string, key: string) {
    feed.parse(meta, line).Some? && feed.parse(meta, line).value.key == key
  }

  lemma RowsAreCollected<C>(f: File, feed: Feed<C>, parse: string -> Option<Row<C>>)
    requires forall line :: parse(line) == feed.parse(f.meta, line)
    ensures RowsOf(f, feed) == Collect(LinesOf(f), parse)
  {
    if f.content.Lines? {
      CollectSame(f.content.lines, (line: string) => feed.parse(f.meta, line), parse);
    }
  }

  lemma {:induction false} CollectSame<A, B>(rows: seq<A>, f: A -> Option<B>, g: A -> Option<B>)
    requires forall a :: f(a) == g(a)
    ensures Collect(rows, f) == Collect(rows, g)
  {
    if rows != [] {
      CollectSame(rows[..|rows| - 1], f, g);
    }
  }

  // ── what a run reports ─────────────────────────────────────────────────────

  /** The file's rows are committed; whether they are does not depend on the table. */
  predicate Commits<C>(a: Attempt, feed: Feed<C>) {
    && a.file.content.Lines? && !a.mishap.unread && !a.mishap.unsaved
    && Accepted(RowsOf(a.file, feed), feed)
  }

  /** The lines committed without being counted as rows read. */
  function Uncounted<C>(tries: seq<Attempt>, feed: Feed<C>): nat {
    if tries == [] then 0
    else
      var a := tries[|tries| - 1];
      Uncounted(tries[..|tries| - 1], feed) +
      if Commits(a, feed) then |LinesOf(a.file)| - Count(LinesOf(a.file), feed.counts) else 0
  }

  lemma FileReport<C>(res: Report, st: Store<Table<C>>, a: Attempt, feed: Feed<C>)
    ensures var r := CountFile(res, st, a, ApplyRows(feed));
            && r.inserted - res.inserted == |ApplyFile(st, a, ApplyRows(feed)).data| - |st.data|
            && r.rows - res.rows + (if Commits(a, feed) then |LinesOf(a.file)| - Count(LinesOf(a.file), feed.counts) else 0) ==
               r.inserted + r.updated + r.rejected - (res.inserted + res.updated + res.rejected)
  {
    hide UpsertAll, RowsOf, Accepted, Count;
  }

  lemma {:induction false} ReportGap<C>(res: Report, st: Store<Table<C>>, tries: seq<Attempt>, feed: Feed<C>)
    requires res.rows == res.inserted + res.updated + res.rejected
    ensures var r := CountAll(res, st, tries, ApplyRows(feed));
            && r.inserted - res.inserted == |ApplyAll(st, tries, ApplyRows(feed)).data| - |st.data|
            && r.rows + Uncounted(tries, feed) == r.inserted + r.updated + r.rejected
  {
    hide CountFile, ApplyFile, ApplyRows, Commits, Count;
    if tries != [] {
      var before := tries[..|tries| - 1];
      ReportGap(res, st, before, feed);
      FileReport(CountAll(res, st, before, ApplyRows(feed)), ApplyAll(st, before, ApplyRows(feed)), tries[|tries| - 1], feed);
    }
  }

  ghost predicate ReadsAll<C>(a: Attempt, feed: Feed<C>) {
    Commits(a, feed) ==> forall line :: line in LinesOf(a.file) ==> feed.counts(line)
  }

  lemma {:induction false} AllCount(lines: seq<string>, counts: string -> bool)
    ensures Count(lines, counts) == |lines| <==> forall line :: line in lines ==> counts(line)
  {
    if lines != [] {
      var before, last := lines[..|lines| - 1], lines[|lines| - 1];
      assert lines == before + [last];
      AllCount(before, counts);
      assert last in lines;
    }
  }

  lemma {:induction false} NoneUncounted<C>(tries: seq<Attempt>, feed: Feed<C>)
    ensures Uncounted(tries, feed) == 0 <==> forall a :: a in tries ==> ReadsAll(a, feed)
  {
    hide Commits, Count;
    if tries != [] {
      var before, last := tries[..|tries| - 1], tries[|tries| - 1];
      assert tries == before + [last];
      NoneUncounted(before, feed);
      AllCount(LinesOf(last.file), feed.counts);
      assert last in tries;
      assert ReadsAll(last, feed) <==> (Commits(last, feed) ==> Count(LinesOf(last.file), feed.counts) == |LinesOf(last.file)|);
    }
  }

  /**
   What a run reports is what it did: the rows inserted are the table's growth; and inserted,
   updated and rejected add up to the rows read exactly when the feed counts as read every
   line of every file the run committed.
   */
  lemma ReportExact<C>(st: Store<Table<C>>, dir: seq<File>, feed: Feed<C>, stop: Option<nat>, mishaps: Mishaps)
    ensures var r := Counted(st, dir, ApplyRows(feed), stop, mishaps);
            && r.inserted == |Ingested(st, dir, ApplyRows(feed), stop, mishaps).data| - |st.data|
            && (r.inserted + r.updated + r.rejected == r.rows <==>
                forall a :: a in Attempted(st, dir, stop, mishaps) ==> ReadsAll(a, feed))
  {
    hide CountAll, ApplyAll, Attempted, ApplyRows, ReadsAll, Uncounted;
    var tries := Attempted(st, dir, stop, mishaps);
    ReportGap(Report(|dir|, 0, 0, 0, 0, 0, 0, 0), st, tries, feed);
    NoneUncounted(tries, feed);
  }

  lemma NothingUpserted<C>(t: Table<C>, feed: Feed<C>, f: File)
    requires RowsOf(f, feed) == []
    ensures ApplyRows(feed)(t, f) == Some(Outcome(t, Count(LinesOf(f), feed.counts), 0, 0, |LinesOf(f)|))
  {
    hide RowsOf, Count;
    var rows := RowsOf(f, feed);
    assert UpsertAll(t, rows) == t;
    assert Accepted(rows, feed);
    hide UpsertAll, Accepted;
    assert Upserted(t, rows, |LinesOf(f)|, Count(LinesOf(f), feed.counts)) ==
           Outcome(t, Count(LinesOf(f), feed.counts), 0, 0, |LinesOf(f)|);
  }

  lemma NoRowOfOne<R>(line: string, row: string -> Option<R>)
    requires row(line) == None
    ensures Collect([line], row) == []
  {
    assert [line][..0] == [];
  }

  lemma NoneOfOne(line: string, counts: string -> bool)
    requires !counts(line)
    ensures Count([line], counts) == 0
  {
    assert [line][..0] == [];
  }

  /** A file of one line that is neither a row nor counted as one. */
  lemma RejectsOneLine<C>(t: Table<C>, f: File, feed: Feed<C>, line: string)
    requires f.content == Lines([line]) && feed.parse(f.meta, line) == None && !feed.counts(line)
    ensures ApplyRows(feed)(t, f) == Some(Outcome(t, 0, 0, 0, 1))
  {
    var parse := (line: string) => feed.parse(f.meta, line);
    NoRowOfOne(line, parse);
    NoneOfOne(line, feed.counts);
    hide Collect, Count;
    assert RowsOf(f, feed) == Collect(f.content.lines, parse);
    assert f.content.lines == [line];
    NothingUpserted(t, feed, f);
  }

  // ── the last non-blank value ───────────────────────────────────────────────

  /** The rows an attempt contributes for good. */
  function Contributed<C>(a: Attempt, feed: Feed<C>): seq<Row<C>> {
    if Commits(a, feed) then RowsOf(a.file, feed) else []
  }

  function AllContributed<C>(tries: seq<Attempt>, feed: Feed<C>): seq<Row<C>> {
    if tries == [] then []
    else AllContributed(tries[..|tries| - 1], feed) + Contributed(tries[|tries| - 1], feed)
  }

  lemma ApplyContributes<C>(st: Store<Table<C>>, a: Attempt, feed: Feed<C>)
    ensures ApplyFile(st, a, ApplyRows(feed)).data == UpsertAll(st.data, Contributed(a, feed))
  {
    hide RowsOf, Accepted, Count;
  }

  lemma {:induction false} FoldOfRows<C>(st: Store<Table<C>>, tries: seq<Attempt>, feed: Feed<C>)
    ensures ApplyAll(st, tries, ApplyRows(feed)).data == UpsertAll(st.data, AllContributed(tries, feed))
  {
    hide Contributed, ApplyFile, ApplyRows;
    if tries != [] {
      var before := tries[..|tries| - 1];
      FoldOfRows(st, before, feed);
      ApplyContributes(ApplyAll(st, before, ApplyRows(feed)), tries[|tries| - 1], feed);
      UpsertConcat(st.data, AllContributed(before, feed), Contributed(tries[|tries| - 1], feed));
    }
  }

  /**
   The feed as a whole, over any runs and whatever goes wrong in them: every column of every
   key holds the last non-blank value of the files that committed, in the order the files
   settled, or the value it held before if there is none.
   */
  lemma FeedHoldsLastSettled<C(!new)>(st0: Store<Table<C>>, runs: seq<Run>, feed: Feed<C>, key: string, c: C)
    ensures var rows := AllContributed(Log(st0, runs, ApplyRows(feed)), feed);
            var i := LastSet(rows, key, c);
            Held(AfterRuns(st0, runs, ApplyRows(feed)).data, key, c) ==
            if i == -1 then Held(st0.data, key, c) else Some(rows[i].columns[c])
  {
    hide AfterRuns, ApplyRows, LastSet, Held, Log;
    var log := Log(st0, runs, ApplyRows(feed));
    RunsAreTheirLog(st0, runs, ApplyRows(feed));
    FoldOfRows(st0, log, feed);
    LastNonBlankWins(st0.data, AllContributed(log, feed), key, c);
  }

  /**
   For runs that are only interrupted, or meet with the same recorded mishaps every time,
   that order is (date, sequence, line): once one has gone to its end every column holds the
   last non-blank value over all the files.
   */
  lemma FeedRefinesLastNonBlank<C(!new)>(st0: Store<Table<C>>, arrivals: seq<File>, runs: seq<Run>, feed: Feed<C>,
                                         mishaps: Mishaps, key: string, c: C)
    requires Arrivals(arrivals, runs) && runs != [] && Unrecorded(st0, arrivals) && AlwaysRecorded(arrivals, mishaps)
    requires forall run :: run in runs ==> run.mishaps == mishaps
    requires runs[|runs| - 1].stop == None && runs[|runs| - 1].arrived == |arrivals|
    ensures var rows := AllContributed(AttemptsAt(arrivals, mishaps), feed);
            var i := LastSet(rows, key, c);
            Held(AfterRuns(st0, runs, ApplyRows(feed)).data, key, c) ==
            if i == -1 then Held(st0.data, key, c) else Some(rows[i].columns[c])
  {
    hide AfterRuns, Arrivals, Unrecorded, ApplyRows, LastSet, Held, AttemptsAt;
    CrashesChangeNothing(st0, arrivals, runs, ApplyRows(feed), mishaps);
    FoldOfRows(st0, AttemptsAt(arrivals, mishaps), feed);
    LastNonBlankWins(st0.data, AllContributed(AttemptsAt(arrivals, mishaps), feed), key, c);
  }
}
