/**
 The shared ingest driver: files not yet recorded are applied oldest-first, each in one
 transaction together with its record, whatever their rows mean.
 */
module FeedCore {
  import opened Wrappers
  import opened Sequences

  /** The name of a feed file, and the date and sequence its name encodes. */
  datatype FileMeta = FileMeta(name: string, date: int, seqNo: int)

  predicate Less(a: FileMeta, b: FileMeta) {
    if a.date != b.date then a.date < b.date else a.seqNo < b.seqNo
  }

  datatype Content = ZeroBytes | Unreadable | Lines(lines: seq<string>)

  datatype File = File(meta: FileMeta, content: Content)

  datatype Status = Applied | Empty | Failed

  /** A stream's table, and what feed_files records of each file by name. */
  datatype Store<T> = Store(data: T, files: map<string, Status>)

  /** The table after a file's rows, and what the applier counts: rows read, inserted, updated and rejected. */
  datatype Outcome<T> = Outcome(data: T, rows: nat, inserted: int, updated: int, rejected: int)

  /** What applying a file's rows makes of the table; None rolls the transaction back. */
  type Applier<!T> = (T, File) -> Option<Outcome<T>>

  /** What a run reports. */
  datatype Report = Report(
    seen: nat, read: nat, empty: nat, failed: nat,
    rows: nat, inserted: int, updated: int, rejected: int)

  /**
   What goes wrong around a file, whatever it holds: it cannot be looked at; its rows, its
   record or its commit fail; and, if it failed, the record of that fails too.
   */
  datatype Mishap = Mishap(unread: bool, unsaved: bool, lost: bool)

  const SMOOTH := Mishap(false, false, false)

  /** A file taken up by a run, and what goes wrong. */
  datatype Attempt = Attempt(file: File, mishap: Mishap)

  function Record(files: map<string, Status>, name: string, status: Status): map<string, Status> {
    if name in files then files else files[name := status]
  }

  /** What an attempt makes of the table; None when the file fails. */
  function Tried<T>(data: T, a: Attempt, apply: Applier<T>): Option<Outcome<T>> {
    if a.mishap.unread || a.mishap.unsaved then None
    else
      match a.file.content
      case ZeroBytes => Some(Outcome(data, 0, 0, 0, 0))
      case Unreadable => None
      case Lines(_) => apply(data, a.file)
  }

  /** The file leaves a record of itself, so that no later run takes it up. */
  predicate Settles<T>(data: T, a: Attempt, apply: Applier<T>) {
    Tried(data, a, apply).Some? || !a.mishap.lost
  }

  function ApplyFile<T>(st: Store<T>, a: Attempt, apply: Applier<T>): Store<T> {
    match Tried(st.data, a, apply)
    case Some(o) => Store(o.data, Record(st.files, a.file.meta.name, if a.file.content.ZeroBytes? then Empty else Applied))
    case None => if a.mishap.lost then st else st.(files := Record(st.files, a.file.meta.name, Failed))
  }

  /** A zero-byte file is counted as empty before its record is written. */
  predicate CountsEmpty(a: Attempt) {
    a.file.content.ZeroBytes? && !a.mishap.unread
  }

  /** The counters after one more file: its rows count only if it committed. */
  function CountFile<T>(res: Report, st: Store<T>, a: Attempt, apply: Applier<T>): Report {
    var looked := if CountsEmpty(a) then res.(empty := res.empty + 1) else res;
    match Tried(st.data, a, apply)
    case None => looked.(failed := looked.failed + 1)
    case Some(o) =>
      if a.file.content.ZeroBytes? then looked
      else
        res.(read := res.read + 1, rows := res.rows + o.rows,
             inserted := res.inserted + o.inserted, updated := res.updated + o.updated,
             rejected := res.rejected + o.rejected)
  }

  function CountAll<T>(res: Report, st: Store<T>, tries: seq<Attempt>, apply: Applier<T>): Report {
    if tries == [] then res
    else
      var before := tries[..|tries| - 1];
      CountFile(CountAll(res, st, before, apply), ApplyAll(st, before, apply), tries[|tries| - 1], apply)
  }

  /** The files tried one after the other. */
  function ApplyAll<T>(st: Store<T>, tries: seq<Attempt>, apply: Applier<T>): Store<T> {
    if tries == [] then st else ApplyFile(ApplyAll(st, tries[..|tries| - 1], apply), tries[|tries| - 1], apply)
  }

  // ── sorting the pending files ──────────────────────────────────────────────

  function Insert(f: File, fs: seq<File>): (r: seq<File>)
    ensures forall g :: g in r <==> g == f || g in fs
    ensures |r| == |fs| + 1
  {
    if fs == [] || Less(f.meta, fs[0].meta) then [f] + fs else [fs[0]] + Insert(f, fs[1..])
  }

  function Sort(fs: seq<File>): (r: seq<File>)
    ensures forall g :: g in r <==> g in fs
    ensures |r| == |fs|
  {
    if fs == [] then [] else Insert(fs[0], Sort(fs[1..]))
  }

  function Pending(dir: seq<File>, files: map<string, Status>): (r: seq<File>)
    ensures forall f :: f in r <==> f in dir && f.meta.name !in files
  {
    if dir == [] then []
    else (if dir[0].meta.name in files then [] else [dir[0]]) + Pending(dir[1..], files)
  }

  function Jobs(dir: seq<File>, files: map<string, Status>): seq<File> {
    Sort(Pending(dir, files))
  }

  /** How many files a run finishes before it stops, if it is stopped. */
  function Finished(jobs: nat, stop: Option<nat>): nat {
    if stop.Some? && stop.value < jobs then stop.value else jobs
  }

  /** What may go wrong in a run, file by file. */
  type Mishaps = string -> Mishap

  function AttemptsAt(jobs: seq<File>, mishaps: Mishaps): (r: seq<Attempt>)
    ensures |r| == |jobs|
    ensures forall i :: 0 <= i < |jobs| ==> r[i] == Attempt(jobs[i], mishaps(jobs[i].meta.name))
  {
    seq(|jobs|, i requires 0 <= i < |jobs| => Attempt(jobs[i], mishaps(jobs[i].meta.name)))
  }

  /** The files a run finishes, stopped (or not) while file number `stop` is in flight. */
  function Attempted<T>(st: Store<T>, dir: seq<File>, stop: Option<nat>, mishaps: Mishaps): seq<Attempt> {
    var jobs := Jobs(dir, st.files);
    AttemptsAt(jobs[..Finished(|jobs|, stop)], mishaps)
  }

  /** ingest */
  function Ingested<T>(st: Store<T>, dir: seq<File>, apply: Applier<T>, stop: Option<nat>, mishaps: Mishaps): Store<T> {
    ApplyAll(st, Attempted(st, dir, stop, mishaps), apply)
  }

  /** What that run has counted when it ends. */
  function Counted<T>(st: Store<T>, dir: seq<File>, apply: Applier<T>, stop: Option<nat>, mishaps: Mishaps): Report {
    CountAll(Report(|dir|, 0, 0, 0, 0, 0, 0, 0), st, Attempted(st, dir, stop, mishaps), apply)
  }

  class Feed<T> {
    var data: T
    var files: map<string, Status>

    function Held(): Store<T>
      reads this
    {
      Store(data, files)
    }

    constructor (initial: T)
      ensures Held() == Store(initial, map[])
    {
      data, files := initial, map[];
    }

    /** applyFile and the failure record of ingest. */
    method ApplyOne(f: File, apply: Applier<T>, mishap: Mishap, res: Report) returns (res': Report)
      modifies this
      ensures Held() == ApplyFile(old(Held()), Attempt(f, mishap), apply)
      ensures res' == CountFile(res, old(Held()), Attempt(f, mishap), apply)
    {
      res' := res;
      var done := false;
      if !mishap.unread {
        match f.content
        case ZeroBytes =>
          res' := res'.(empty := res'.empty + 1);
          if !mishap.unsaved {
            files := Record(files, f.meta.name, Empty);
            done := true;
          }
        case Unreadable =>
        case Lines(_) =>
          var tx := apply(data, f);
          if tx.Some? && !mishap.unsaved {
            data, files := tx.value.data, Record(files, f.meta.name, Applied);
            res' := res'.(read := res'.read + 1, rows := res'.rows + tx.value.rows,
                          inserted := res'.inserted + tx.value.inserted,
                          updated := res'.updated + tx.value.updated,
                          rejected := res'.rejected + tx.value.rejected);
            done := true;
          }
      }
      if !done {
        res' := res'.(failed := res'.failed + 1);
        if !mishap.lost {
          files := Record(files, f.meta.name, Failed);
        }
      }
    }

    /** ingest. A run stopped while a file is in flight commits nothing of that file. */
    method Ingest(dir: seq<File>, apply: Applier<T>, stop: Option<nat>, mishaps: Mishaps) returns (res: Report)
      modifies this
      ensures Held() == Ingested(old(Held()), dir, apply, stop, mishaps)
      ensures res == Counted(old(Held()), dir, apply, stop, mishaps)
    {
      hide ApplyFile, CountFile, Jobs;
      res := Report(|dir|, 0, 0, 0, 0, 0, 0, 0);
      ghost var start := res;
      var jobs := Jobs(dir, files);
      ghost var tries := AttemptsAt(jobs, mishaps);
      for i := 0 to |jobs|
        invariant Held() == ApplyAll(old(Held()), tries[..i], apply)
        invariant res == CountAll(start, old(Held()), tries[..i], apply)
        invariant stop.Some? ==> i <= stop.value
      {
        assert tries[..i + 1][..i] == tries[..i];
        if stop == Some(i) {
          assert AttemptsAt(jobs[..i], mishaps) == tries[..i];
          return;
        }
        res := ApplyOne(jobs[i], apply, mishaps(jobs[i].meta.name), res);
      }
      assert tries[..|jobs|] == tries;
      assert jobs[..|jobs|] == jobs;
    }
  }

  // ── what a run counts ──────────────────────────────────────────────────────

  /** A zero-byte file whose record fails is counted as empty and as failed. */
  predicate CountsTwice(a: Attempt) {
    CountsEmpty(a) && a.mishap.unsaved
  }

  lemma {:induction false} CountsBy<T>(res: Report, st: Store<T>, tries: seq<Attempt>, apply: Applier<T>)
    ensures var r := CountAll(res, st, tries, apply);
            && r.seen == res.seen
            && r.read + r.empty + r.failed == res.read + res.empty + res.failed + |tries| + Count(tries, CountsTwice)
  {
    if tries != [] {
      CountsBy(res, st, tries[..|tries| - 1], apply);
    }
  }

  /**
   The files a run finishes add up, each counted once as read, empty or failed, exactly when
   the database took the record of every zero-byte file among them.
   */
  lemma FilesAddUp<T>(st: Store<T>, dir: seq<File>, apply: Applier<T>, stop: Option<nat>, mishaps: Mishaps)
    ensures var r, tries := Counted(st, dir, apply, stop, mishaps), Attempted(st, dir, stop, mishaps);
            && r.seen == |dir|
            && (r.read + r.empty + r.failed == |tries| <==> forall a :: a in tries ==> !CountsTwice(a))
  {
    hide CountAll, Attempted, CountsTwice;
    var tries := Attempted(st, dir, stop, mishaps);
    CountsBy(Report(|dir|, 0, 0, 0, 0, 0, 0, 0), st, tries, apply);
    CountZero(tries, CountsTwice);
  }

  // ── crash safety ───────────────────────────────────────────────────────────

  function FilesOf(tries: seq<Attempt>): (r: seq<File>)
    ensures |r| == |tries|
    ensures forall i :: 0 <= i < |tries| ==> r[i] == tries[i].file
  {
    seq(|tries|, i requires 0 <= i < |tries| => tries[i].file)
  }

  /** Oldest first, with no two files of the same date and sequence. */
  ghost predicate InOrder(fs: seq<File>) {
    forall i, j :: 0 <= i < j < |fs| ==> Before(fs[i].meta, fs[j].meta)
  }

  /** A file of an earlier day, or of the same day and an earlier sequence. */
  predicate Before(a: FileMeta, b: FileMeta) {
    a.date < b.date || (a.date == b.date && a.seqNo < b.seqNo)
  }

  ghost predicate NamesDistinct(fs: seq<File>) {
    forall i, j :: 0 <= i < j < |fs| ==> fs[i].meta.name != fs[j].meta.name
  }

  lemma SameLast(a: seq<File>, b: seq<File>)
    requires InOrder(a) && InOrder(b) && a != [] && b != []
    requires a[|a| - 1] in b && b[|b| - 1] in a
    ensures a[|a| - 1] == b[|b| - 1]
  {
    var i :| 0 <= i < |b| && b[i] == a[|a| - 1];
    var j :| 0 <= j < |a| && a[j] == b[|b| - 1];
    var x, y := a[|a| - 1], b[|b| - 1];
    assert x == y || Before(x.meta, y.meta);
    assert x == y || Before(y.meta, x.meta);
  }

  lemma SomeFile(fs: seq<File>) returns (f: File)
    requires fs != []
    ensures f in fs
  {
    f := fs[0];
  }

  /** Two ordered lists of the same files are the same list. */
  lemma {:induction false} OrderUnique(a: seq<File>, b: seq<File>)
    requires InOrder(a) && InOrder(b)
    requires forall f :: f in a <==> f in b
    ensures a == b
  {
    hide Before;
    if a == [] {
      if b != [] {
        var f := SomeFile(b);
        assert false;
      }
    } else {
      assert a[|a| - 1] in b;
      assert b[|b| - 1] in a;
      SameLast(a, b);
      var a', b' := a[..|a| - 1], b[..|b| - 1];
      assert a == a' + [a[|a| - 1]] && b == b' + [b[|b| - 1]];
      forall f
        ensures f in a' <==> f in b'
      {
        LastApart(a, f);
        LastApart(b, f);
      }
      OrderUnique(a', b');
    }
  }

  lemma LastApart(fs: seq<File>, f: File)
    requires InOrder(fs) && fs != []
    ensures f in fs[..|fs| - 1] <==> f in fs && f != fs[|fs| - 1]
  {
    assert fs == fs[..|fs| - 1] + [fs[|fs| - 1]];
  }

  ghost predicate Comparable(f: File, fs: seq<File>) {
    forall g :: g in fs ==> Before(f.meta, g.meta) || Before(g.meta, f.meta)
  }

  lemma {:induction false} InsertOrders(f: File, fs: seq<File>)
    requires InOrder(fs) && Comparable(f, fs)
    ensures InOrder(Insert(f, fs))
  {
    if fs != [] && !Before(f.meta, fs[0].meta) {
      InsertOrders(f, fs[1..]);
      var r := Insert(f, fs);
      var rest := Insert(f, fs[1..]);
      assert fs == [fs[0]] + fs[1..];
      forall i, j | 0 <= i < j < |r|
        ensures Before(r[i].meta, r[j].meta)
      {
        assert rest[j - 1] == f || rest[j - 1] in fs[1..];
      }
    } else if fs != [] {
      var r := Insert(f, fs);
      forall i, j | 0 <= i < j < |r|
        ensures Before(r[i].meta, r[j].meta)
      {
      }
    }
  }

  /** Nowhere does a file follow one of a later day, or of the same day and a later sequence. */
  ghost predicate Ascending(fs: seq<File>) {
    forall i, j :: 0 <= i < j < |fs| ==> !Before(fs[j].meta, fs[i].meta)
  }

  lemma {:induction false} InsertAscends(f: File, fs: seq<File>)
    requires Ascending(fs)
    ensures Ascending(Insert(f, fs))
  {
    var r := Insert(f, fs);
    if fs != [] && !Less(f.meta, fs[0].meta) {
      InsertAscends(f, fs[1..]);
      var rest := Insert(f, fs[1..]);
      assert fs == [fs[0]] + fs[1..];
      forall i, j | 0 <= i < j < |r|
        ensures !Before(r[j].meta, r[i].meta)
      {
        assert rest[j - 1] == f || rest[j - 1] in fs[1..];
      }
    } else if fs != [] {
      forall i, j | 0 <= i < j < |r|
        ensures !Before(r[j].meta, r[i].meta)
      {
      }
    }
  }

  lemma {:induction false} SortAscends(fs: seq<File>)
    ensures Ascending(Sort(fs))
  {
    if fs != [] {
      SortAscends(fs[1..]);
      InsertAscends(fs[0], Sort(fs[1..]));
    }
  }

  /** Whatever the directory lists, a run takes its files day by day, and by sequence within a day. */
  lemma JobsByDay(dir: seq<File>, files: map<string, Status>, i: nat, j: nat)
    requires i < j < |Jobs(dir, files)|
    ensures var a, b := Jobs(dir, files)[i].meta, Jobs(dir, files)[j].meta;
            a.date <= b.date && (a.date == b.date ==> a.seqNo <= b.seqNo)
  {
    SortAscends(Pending(dir, files));
  }

  /** Any two different files of the list can be ordered, and no file is listed twice. */
  ghost predicate Orderable(fs: seq<File>) {
    forall i, j :: 0 <= i < j < |fs| ==> Before(fs[i].meta, fs[j].meta) || Before(fs[j].meta, fs[i].meta)
  }

  lemma {:induction false} SortOrders(fs: seq<File>)
    requires Orderable(fs)
    ensures InOrder(Sort(fs))
  {
    if fs != [] {
      SortOrders(fs[1..]);
      forall g | g in Sort(fs[1..])
        ensures Before(fs[0].meta, g.meta) || Before(g.meta, fs[0].meta)
      {
        var j :| 0 <= j < |fs[1..]| && fs[1..][j] == g;
        assert fs[j + 1] == g;
      }
      InsertOrders(fs[0], Sort(fs[1..]));
    }
  }

  lemma {:induction false} PendingOrderable(dir: seq<File>, files: map<string, Status>)
    requires Orderable(dir)
    ensures Orderable(Pending(dir, files))
  {
    if dir != [] {
      PendingOrderable(dir[1..], files);
      var rest := Pending(dir[1..], files);
      forall j | 0 <= j < |rest|
        ensures Before(dir[0].meta, rest[j].meta) || Before(rest[j].meta, dir[0].meta)
      {
        assert rest[j] in dir[1..];
        var i :| 0 <= i < |dir[1..]| && dir[1..][i] == rest[j];
        assert dir[i + 1] == rest[j];
      }
    }
  }

  /** A directory listing, in any order, of exactly the first n files ever to arrive. */
  ghost predicate Lists(dir: seq<File>, arrivals: seq<File>, n: nat) {
    n <= |arrivals| && Orderable(dir) && forall f :: f in dir <==> f in arrivals[..n]
  }

  /** The names recorded once the first m arrivals have been handled. */
  ghost predicate Recorded<T(!new)>(st: Store<T>, arrivals: seq<File>, m: nat)
    requires m <= |arrivals|
  {
    forall f :: f in arrivals ==> (f.meta.name in st.files <==> f in arrivals[..m])
  }

  /** Having handled the first m arrivals, a run that sees the first n has the others as its jobs, in order. */
  lemma JobsAreTheRest<T(!new)>(st: Store<T>, arrivals: seq<File>, m: nat, dir: seq<File>, n: nat)
    requires InOrder(arrivals) && m <= n && Lists(dir, arrivals, n) && Recorded(st, arrivals, m)
    ensures Jobs(dir, st.files) == arrivals[m..n]
  {
    var jobs := Jobs(dir, st.files);
    PendingOrderable(dir, st.files);
    SortOrders(Pending(dir, st.files));
    forall f
      ensures f in jobs <==> f in arrivals[m..n]
    {
      SliceMembers(arrivals, m, n, f);
    }
    OrderUnique(jobs, arrivals[m..n]);
  }

  lemma SliceMembers(arrivals: seq<File>, m: nat, n: nat, f: File)
    requires InOrder(arrivals) && m <= n <= |arrivals|
    ensures f in arrivals[m..n] <==> f in arrivals[..n] && f !in arrivals[..m]
  {
    assert arrivals[..n] == arrivals[..m] + arrivals[m..n];
    forall i, j | 0 <= i < m && m <= j < n
      ensures arrivals[i] != arrivals[j]
    {
      assert Before(arrivals[i].meta, arrivals[j].meta);
    }
  }

  lemma {:induction false} ApplyConcat<T>(st: Store<T>, a: seq<Attempt>, b: seq<Attempt>, apply: Applier<T>)
    ensures ApplyAll(st, a + b, apply) == ApplyAll(ApplyAll(st, a, apply), b, apply)
  {
    if b == [] {
      assert a + b == a;
    } else {
      assert (a + b)[..|a + b| - 1] == a + b[..|b| - 1];
      ApplyConcat(st, a, b[..|b| - 1], apply);
    }
  }

  // ── the files that settle, in the order they do ────────────────────────────

  predicate SettlesAt<T>(st: Store<T>, tries: seq<Attempt>, i: nat, apply: Applier<T>)
    requires i < |tries|
  {
    Settles(ApplyAll(st, tries[..i], apply).data, tries[i], apply)
  }

  /** The attempts that leave a record, in order. */
  function Settling<T>(st: Store<T>, tries: seq<Attempt>, apply: Applier<T>): (r: seq<Attempt>)
    ensures |r| <= |tries|
  {
    if tries == [] then []
    else
      var last := |tries| - 1;
      Settling(st, tries[..last], apply) + if SettlesAt(st, tries, last, apply) then [tries[last]] else []
  }

  /** No file settles after one that does not. */
  ghost predicate InTurn<T>(st: Store<T>, tries: seq<Attempt>, apply: Applier<T>) {
    forall i, j :: 0 <= i < j < |tries| && SettlesAt(st, tries, j, apply) ==> SettlesAt(st, tries, i, apply)
  }

  lemma SettlesBefore<T>(st: Store<T>, tries: seq<Attempt>, n: nat, apply: Applier<T>)
    requires n <= |tries|
    ensures forall i :: 0 <= i < n ==> (SettlesAt(st, tries[..n], i, apply) <==> SettlesAt(st, tries, i, apply))
  {
    assert forall i :: 0 <= i < n ==> tries[..n][..i] == tries[..i];
  }

  lemma {:induction false} AllSettle<T>(st: Store<T>, tries: seq<Attempt>, apply: Applier<T>)
    ensures |Settling(st, tries, apply)| == |tries| <==> forall i :: 0 <= i < |tries| ==> SettlesAt(st, tries, i, apply)
    ensures |Settling(st, tries, apply)| == |tries| ==> Settling(st, tries, apply) == tries
  {
    hide SettlesAt;
    if tries != [] {
      var last := |tries| - 1;
      AllSettle(st, tries[..last], apply);
      SettlesBefore(st, tries, last, apply);
      assert tries == tries[..last] + [tries[last]];
    }
  }

  /** Exactly when none settles out of turn, the attempts that settle are the first so many. */
  lemma {:induction false} SettlingPrefix<T>(st: Store<T>, tries: seq<Attempt>, apply: Applier<T>)
    requires NamesDistinct(FilesOf(tries))
    ensures FilesOf(Settling(st, tries, apply)) <= FilesOf(tries) <==> InTurn(st, tries, apply)
  {
    hide SettlesAt;
    if tries != [] {
      var last := |tries| - 1;
      var before := tries[..last];
      SettlesBefore(st, tries, last, apply);
      assert FilesOf(before) == FilesOf(tries)[..last];
      SettlingPrefix(st, before, apply);
      AllSettle(st, before, apply);
      LastInTurn(st, tries, apply);
      var so := Settling(st, before, apply);
      if SettlesAt(st, tries, last, apply) {
        assert FilesOf(so + [tries[last]]) == FilesOf(so) + [tries[last].file];
        if |so| < last {
          assert FilesOf(tries)[|so|].meta.name != tries[last].file.meta.name;
          assert FilesOf(so + [tries[last]])[|so|] == tries[last].file;
        }
      } else {
        assert Settling(st, tries, apply) == so;
        PrefixOfPrefix(FilesOf(so), FilesOf(tries), last);
      }
    }
  }

  lemma PrefixOfPrefix<A>(a: seq<A>, b: seq<A>, n: nat)
    requires |a| <= n <= |b|
    ensures a <= b[..n] <==> a <= b
  {
    assert a <= b ==> forall i :: 0 <= i < |a| ==> b[..n][i] == a[i];
  }

  lemma LastInTurn<T>(st: Store<T>, tries: seq<Attempt>, apply: Applier<T>)
    requires tries != []
    ensures var last := |tries| - 1;
            InTurn(st, tries, apply) <==>
            && InTurn(st, tries[..last], apply)
            && (SettlesAt(st, tries, last, apply) ==> forall i :: 0 <= i < last ==> SettlesAt(st, tries, i, apply))
  {
    hide SettlesAt;
    SettlesBefore(st, tries, |tries| - 1, apply);
  }

  /** Attempts that leave no record leave nothing at all. */
  lemma {:induction false} UnsettledLeaveNothing<T>(st: Store<T>, tries: seq<Attempt>, apply: Applier<T>)
    ensures ApplyAll(st, Settling(st, tries, apply), apply) == ApplyAll(st, tries, apply)
  {
    hide Tried;
    if tries != [] {
      var last := |tries| - 1;
      UnsettledLeaveNothing(st, tries[..last], apply);
      var so := Settling(st, tries[..last], apply);
      if SettlesAt(st, tries, last, apply) {
        assert (so + [tries[last]])[..|so|] == so;
      } else {
        assert Settling(st, tries, apply) == so;
      }
    }
  }

  /** The names recorded are those of the files that settled. */
  lemma {:induction false} SettledNames<T>(st: Store<T>, tries: seq<Attempt>, apply: Applier<T>)
    ensures ApplyAll(st, tries, apply).files.Keys ==
            st.files.Keys + NamesOf(Settling(st, tries, apply))
  {
    hide Tried;
    if tries != [] {
      var last := |tries| - 1;
      SettledNames(st, tries[..last], apply);
      var so := Settling(st, tries[..last], apply);
      NamesNext(so, tries[last]);
      if !SettlesAt(st, tries, last, apply) {
        assert Settling(st, tries, apply) == so;
      }
    }
  }

  function NamesOf(tries: seq<Attempt>): set<string> {
    set f | f in FilesOf(tries) :: f.meta.name
  }

  lemma NamesNext(so: seq<Attempt>, a: Attempt)
    ensures NamesOf(so + [a]) == NamesOf(so) + {a.file.meta.name}
  {
    assert FilesOf(so + [a]) == FilesOf(so) + [a.file];
  }

  // ── the report and the records ─────────────────────────────────────────────

  /** The file's rows, or its emptiness, are committed with its record. */
  ghost predicate Goes<T>(data: T, a: Attempt, apply: Applier<T>) {
    && !a.mishap.unread && !a.mishap.unsaved && !a.file.content.Unreadable?
    && (a.file.content.Lines? ==> apply(data, a.file).Some?)
  }

  /** What one file leaves: its rows and record together, or a record of failure, or nothing. */
  lemma FileLeaves<T>(st: Store<T>, a: Attempt, apply: Applier<T>)
    requires a.file.meta.name !in st.files
    ensures var after, name := ApplyFile(st, a, apply), a.file.meta.name;
            && (Goes(st.data, a, apply) && a.file.content.ZeroBytes? ==> after == Store(st.data, st.files[name := Empty]))
            && (Goes(st.data, a, apply) && a.file.content.Lines? ==>
                  after == Store(apply(st.data, a.file).value.data, st.files[name := Applied]))
            && (!Goes(st.data, a, apply) ==> after == if a.mishap.lost then st else Store(st.data, st.files[name := Failed]))
    ensures Settles(st.data, a, apply) <==> Goes(st.data, a, apply) || !a.mishap.lost
  {
  }

  /** How many files are recorded under a status. */
  ghost function CountOf(files: map<string, Status>, status: Status): nat {
    |set name | name in files && files[name] == status|
  }

  lemma CountOfNext(files: map<string, Status>, name: string, status: Status)
    requires name !in files
    ensures var next := files[name := status];
            && CountOf(next, Applied) == CountOf(files, Applied) + (if status == Applied then 1 else 0)
            && CountOf(next, Empty) == CountOf(files, Empty) + (if status == Empty then 1 else 0)
            && CountOf(next, Failed) == CountOf(files, Failed) + (if status == Failed then 1 else 0)
  {
    CountOneNext(files, name, status, Applied);
    CountOneNext(files, name, status, Empty);
    CountOneNext(files, name, status, Failed);
  }

  lemma CountOneNext(files: map<string, Status>, name: string, status: Status, other: Status)
    requires name !in files
    ensures CountOf(files[name := status], other) == CountOf(files, other) + if status == other then 1 else 0
  {
    var next := files[name := status];
    var before := set n | n in files && files[n] == other;
    var after := set n | n in next && next[n] == other;
    assert after == before + if status == other then {name} else {};
  }

  lemma {:induction false} SettlingWithin<T>(st: Store<T>, tries: seq<Attempt>, apply: Applier<T>)
    ensures NamesOf(Settling(st, tries, apply)) <= NamesOf(tries)
  {
    hide SettlesAt;
    if tries != [] {
      var last := |tries| - 1;
      SettlingWithin(st, tries[..last], apply);
      NamesNext(Settling(st, tries[..last], apply), tries[last]);
      NamesNext(tries[..last], tries[last]);
      assert tries == tries[..last] + [tries[last]];
      if !SettlesAt(st, tries, last, apply) {
        assert Settling(st, tries, apply) == Settling(st, tries[..last], apply);
      }
    }
  }

  lemma LastUnrecorded<T>(st: Store<T>, tries: seq<Attempt>, apply: Applier<T>)
    requires tries != [] && NamesDistinct(FilesOf(tries)) && NamesOf(tries) !! st.files.Keys
    ensures NamesDistinct(FilesOf(tries[..|tries| - 1])) && NamesOf(tries[..|tries| - 1]) !! st.files.Keys
    ensures tries[|tries| - 1].file.meta.name !in ApplyAll(st, tries[..|tries| - 1], apply).files
  {
    hide ApplyAll, Settling;
    var before, last := tries[..|tries| - 1], tries[|tries| - 1];
    assert FilesOf(before) == FilesOf(tries)[..|before|];
    assert tries == before + [last];
    NamesNext(before, last);
    SettledNames(st, before, apply);
    SettlingWithin(st, before, apply);
    assert forall i :: 0 <= i < |before| ==> FilesOf(tries)[i].meta.name != FilesOf(tries)[|before|].meta.name;
    assert forall f :: f in FilesOf(before) ==> f.meta.name != last.file.meta.name;
  }

  lemma {:induction false} RecordsCounted<T>(res: Report, st: Store<T>, tries: seq<Attempt>, apply: Applier<T>)
    requires NamesDistinct(FilesOf(tries)) && NamesOf(tries) !! st.files.Keys
    ensures var r, files := CountAll(res, st, tries, apply), ApplyAll(st, tries, apply).files;
            && r.read - res.read == CountOf(files, Applied) - CountOf(st.files, Applied)
            && r.empty - res.empty == CountOf(files, Empty) - CountOf(st.files, Empty) + Count(tries, CountsTwice)
            && r.failed - res.failed ==
               CountOf(files, Failed) - CountOf(st.files, Failed) + |tries| - |Settling(st, tries, apply)|
  {
    hide ApplyFile, CountFile, Settles, CountOf, CountsTwice, NamesOf, NamesDistinct;
    if tries != [] {
      var before, last := tries[..|tries| - 1], tries[|tries| - 1];
      LastUnrecorded(st, tries, apply);
      RecordsCounted(res, st, before, apply);
      FileCounted(CountAll(res, st, before, apply), ApplyAll(st, before, apply), last, apply);
    }
  }

  lemma FileCounted<T>(res: Report, st: Store<T>, a: Attempt, apply: Applier<T>)
    requires a.file.meta.name !in st.files
    ensures var r, files := CountFile(res, st, a, apply), ApplyFile(st, a, apply).files;
            && r.read - res.read == CountOf(files, Applied) - CountOf(st.files, Applied)
            && r.empty - res.empty == CountOf(files, Empty) - CountOf(st.files, Empty) + (if CountsTwice(a) then 1 else 0)
            && r.failed - res.failed ==
               CountOf(files, Failed) - CountOf(st.files, Failed) + (if Settles(st.data, a, apply) then 0 else 1)
  {
    hide CountOf;
    var name := a.file.meta.name;
    FileLeaves(st, a, apply);
    CountOfNext(st.files, name, Applied);
    CountOfNext(st.files, name, Empty);
    CountOfNext(st.files, name, Failed);
  }

  lemma {:induction false} InsertNames(f: File, fs: seq<File>)
    requires NamesDistinct(fs) && forall g :: g in fs ==> g.meta.name != f.meta.name
    ensures NamesDistinct(Insert(f, fs))
  {
    if fs != [] && !Less(f.meta, fs[0].meta) {
      InsertNames(f, fs[1..]);
      var rest := Insert(f, fs[1..]);
      assert fs == [fs[0]] + fs[1..];
      forall i, j | 0 <= i < j < |rest| + 1
        ensures ([fs[0]] + rest)[i].meta.name != ([fs[0]] + rest)[j].meta.name
      {
        assert rest[j - 1] == f || rest[j - 1] in fs[1..];
      }
    }
  }

  lemma {:induction false} JobNames(dir: seq<File>, files: map<string, Status>)
    requires NamesDistinct(dir)
    ensures NamesDistinct(Pending(dir, files)) && NamesDistinct(Jobs(dir, files))
  {
    PendingNames(dir, files);
    SortNames(Pending(dir, files));
  }

  lemma {:induction false} PendingNames(dir: seq<File>, files: map<string, Status>)
    requires NamesDistinct(dir)
    ensures NamesDistinct(Pending(dir, files))
  {
    if dir != [] {
      PendingNames(dir[1..], files);
      var rest := Pending(dir[1..], files);
      forall j | 0 <= j < |rest|
        ensures rest[j].meta.name != dir[0].meta.name
      {
        assert rest[j] in dir[1..];
        var i :| 0 <= i < |dir[1..]| && dir[1..][i] == rest[j];
        assert dir[i + 1] == rest[j];
      }
    }
  }

  lemma {:induction false} SortNames(fs: seq<File>)
    requires NamesDistinct(fs)
    ensures NamesDistinct(Sort(fs))
  {
    if fs != [] {
      SortNames(fs[1..]);
      forall g | g in Sort(fs[1..])
        ensures g.meta.name != fs[0].meta.name
      {
        var i :| 0 <= i < |fs[1..]| && fs[1..][i] == g;
        assert fs[i + 1] == g;
      }
      InsertNames(fs[0], Sort(fs[1..]));
    }
  }

  /**
   A run's report is what its records gained: files read are those newly recorded as applied;
   files empty those newly recorded as empty, and those counted twice; files failed those
   newly recorded as failed, and those whose failure left no record.
   */
  lemma ReportMatchesRecords<T>(st: Store<T>, dir: seq<File>, apply: Applier<T>, stop: Option<nat>, mishaps: Mishaps)
    requires NamesDistinct(dir)
    ensures var r, after := Counted(st, dir, apply, stop, mishaps), Ingested(st, dir, apply, stop, mishaps);
            var tries := Attempted(st, dir, stop, mishaps);
            && r.read == CountOf(after.files, Applied) - CountOf(st.files, Applied)
            && r.empty == CountOf(after.files, Empty) - CountOf(st.files, Empty) + Count(tries, CountsTwice)
            && r.failed == CountOf(after.files, Failed) - CountOf(st.files, Failed) + |tries| - |Settling(st, tries, apply)|
  {
    hide CountAll, ApplyAll, Settling, CountOf, CountsTwice, Jobs;
    var jobs := Jobs(dir, st.files);
    var some := jobs[..Finished(|jobs|, stop)];
    JobNames(dir, st.files);
    FilesOfAttempts(some, mishaps);
    assert NamesDistinct(some);
    JobsPending(dir, st.files);
    assert NamesOf(Attempted(st, dir, stop, mishaps)) !! st.files.Keys;
    RecordsCounted(Report(|dir|, 0, 0, 0, 0, 0, 0, 0), st, Attempted(st, dir, stop, mishaps), apply);
  }

  lemma JobsPending(dir: seq<File>, files: map<string, Status>)
    ensures forall f :: f in Jobs(dir, files) ==> f.meta.name !in files
  {
  }

  // ── whole histories ────────────────────────────────────────────────────────

  /** A run: what the directory lists, how many arrivals that is, where the run stops, and what goes wrong. */
  datatype Run = Run(dir: seq<File>, arrived: nat, stop: Option<nat>, mishaps: Mishaps)

  function AfterRuns<T>(st: Store<T>, runs: seq<Run>, apply: Applier<T>): Store<T> {
    if runs == [] then st
    else
      var last := runs[|runs| - 1];
      Ingested(AfterRuns(st, runs[..|runs| - 1], apply), last.dir, apply, last.stop, last.mishaps)
  }

  function AttemptedBy<T>(st: Store<T>, run: Run): seq<Attempt> {
    Attempted(st, run.dir, run.stop, run.mishaps)
  }

  /** The files that settled over the runs, in the order they did. */
  function Log<T>(st: Store<T>, runs: seq<Run>, apply: Applier<T>): seq<Attempt> {
    if runs == [] then []
    else
      var before := AfterRuns(st, runs[..|runs| - 1], apply);
      Log(st, runs[..|runs| - 1], apply) + Settling(before, AttemptedBy(before, runs[|runs| - 1]), apply)
  }

  /** Whatever goes wrong, the runs leave what applying the files in the order they settled leaves. */
  lemma {:induction false} RunsAreTheirLog<T>(st: Store<T>, runs: seq<Run>, apply: Applier<T>)
    ensures AfterRuns(st, runs, apply) == ApplyAll(st, Log(st, runs, apply), apply)
  {
    hide ApplyAll, Settling, Attempted;
    if runs == [] {
      AppliedNone(st, apply);
    } else {
      var init := runs[..|runs| - 1];
      RunsAreTheirLog(st, init, apply);
      var before := AfterRuns(st, init, apply);
      var tries := AttemptedBy(before, runs[|runs| - 1]);
      UnsettledLeaveNothing(before, tries, apply);
      ApplyConcat(st, Log(st, init, apply), Settling(before, tries, apply), apply);
    }
  }

  lemma AppliedNone<T>(st: Store<T>, apply: Applier<T>)
    ensures ApplyAll(st, [], apply) == st
  {
  }

  /** In no run does a file settle after one that does not. */
  ghost predicate AllInTurn<T>(st: Store<T>, runs: seq<Run>, apply: Applier<T>) {
    runs != [] ==>
      var before := AfterRuns(st, runs[..|runs| - 1], apply);
      AllInTurn(st, runs[..|runs| - 1], apply) && InTurn(before, AttemptedBy(before, runs[|runs| - 1]), apply)
  }

  /** Files arrive in order and stay: each run sees the first so many, never fewer than before. */
  ghost predicate Arrivals(arrivals: seq<File>, runs: seq<Run>) {
    && InOrder(arrivals) && NamesDistinct(arrivals)
    && (forall i :: 0 <= i < |runs| ==> Lists(runs[i].dir, arrivals, runs[i].arrived))
    && (forall i, j :: 0 <= i < j < |runs| ==> runs[i].arrived <= runs[j].arrived)
  }

  ghost predicate Unrecorded<T(!new)>(st: Store<T>, arrivals: seq<File>) {
    forall f :: f in arrivals ==> f.meta.name !in st.files
  }

  lemma ArrivalsLast(arrivals: seq<File>, runs: seq<Run>)
    requires Arrivals(arrivals, runs) && runs != []
    ensures var before, last := runs[..|runs| - 1], runs[|runs| - 1];
            && Arrivals(arrivals, before)
            && Lists(last.dir, arrivals, last.arrived)
            && (before != [] ==> before[|before| - 1].arrived <= last.arrived)
            && InOrder(arrivals) && NamesDistinct(arrivals)
  {
    hide InOrder, NamesDistinct, Lists;
  }

  /** With the first m settled, a run takes up the next ones, in order. */
  lemma TakesUpTheRest<T(!new)>(st: Store<T>, arrivals: seq<File>, m: nat, run: Run)
    requires InOrder(arrivals) && m <= run.arrived && Lists(run.dir, arrivals, run.arrived) && Recorded(st, arrivals, m)
    ensures var k := Finished(run.arrived - m, run.stop);
            AttemptedBy(st, run) == AttemptsAt(arrivals[m..m + k], run.mishaps)
  {
    hide InOrder, Recorded, Jobs;
    JobsAreTheRest(st, arrivals, m, run.dir, run.arrived);
    var k := Finished(run.arrived - m, run.stop);
    assert arrivals[m..run.arrived][..k] == arrivals[m..m + k];
  }

  lemma FilesOfAttempts(jobs: seq<File>, mishaps: Mishaps)
    ensures FilesOf(AttemptsAt(jobs, mishaps)) == jobs
  {
  }

  lemma SliceDistinct(fs: seq<File>, m: nat, n: nat)
    requires NamesDistinct(fs) && m <= n <= |fs|
    ensures NamesDistinct(fs[m..n])
  {
  }

  /** The log so far is the first so many arrivals, and those are what is recorded. */
  ghost predicate UpTo<T(!new)>(st0: Store<T>, arrivals: seq<File>, runs: seq<Run>, apply: Applier<T>) {
    var log := Log(st0, runs, apply);
    && |log| <= |arrivals| && FilesOf(log) == arrivals[..|log|]
    && Recorded(AfterRuns(st0, runs, apply), arrivals, |log|)
    && (runs != [] ==> |log| <= runs[|runs| - 1].arrived)
  }

  lemma NothingUpTo<T(!new)>(st0: Store<T>, arrivals: seq<File>, apply: Applier<T>)
    requires Unrecorded(st0, arrivals)
    ensures UpTo(st0, arrivals, [], apply)
  {
    assert FilesOf(Log(st0, [], apply)) == arrivals[..0];
  }

  lemma RecordedBy<T(!new)>(st0: Store<T>, arrivals: seq<File>, runs: seq<Run>, apply: Applier<T>, m: nat)
    requires NamesDistinct(arrivals) && Unrecorded(st0, arrivals)
    requires m <= |arrivals| && FilesOf(Log(st0, runs, apply)) == arrivals[..m]
    ensures Recorded(AfterRuns(st0, runs, apply), arrivals, m)
  {
    hide Log, AfterRuns;
    RunsAreTheirLog(st0, runs, apply);
    var log := Log(st0, runs, apply);
    LogSettles(st0, runs, apply);
    SettledNames(st0, log, apply);
    forall f | f in arrivals
      ensures f.meta.name in AfterRuns(st0, runs, apply).files <==> f in arrivals[..m]
    {
      var i :| 0 <= i < |arrivals| && arrivals[i] == f;
      assert forall j :: 0 <= j < m && arrivals[j].meta.name == f.meta.name ==> i == j;
    }
  }

  /** Every attempt in the log settles there too. */
  lemma {:induction false} LogSettles<T>(st0: Store<T>, runs: seq<Run>, apply: Applier<T>)
    ensures Settling(st0, Log(st0, runs, apply), apply) == Log(st0, runs, apply)
  {
    hide Settling, Attempted;
    if runs == [] {
      SettlingNone(st0, apply);
    } else {
      var init := runs[..|runs| - 1];
      var before := AfterRuns(st0, init, apply);
      var log, tries := Log(st0, init, apply), AttemptedBy(before, runs[|runs| - 1]);
      LogSettles(st0, init, apply);
      RunsAreTheirLog(st0, init, apply);
      SettlingTwice(before, tries, apply);
      SettlingConcat(st0, log, Settling(before, tries, apply), apply);
    }
  }

  lemma SettlingNone<T>(st: Store<T>, apply: Applier<T>)
    ensures Settling(st, [], apply) == []
  {
  }

  lemma {:induction false} SettlingTwice<T>(st: Store<T>, tries: seq<Attempt>, apply: Applier<T>)
    ensures Settling(st, Settling(st, tries, apply), apply) == Settling(st, tries, apply)
  {
    hide Settles;
    if tries != [] {
      var last := |tries| - 1;
      SettlingTwice(st, tries[..last], apply);
      UnsettledLeaveNothing(st, tries[..last], apply);
      var so := Settling(st, tries[..last], apply);
      assert (so + [tries[last]])[..|so|] == so;
      if !SettlesAt(st, tries, last, apply) {
        assert Settling(st, tries, apply) == so;
      }
    }
  }

  lemma {:induction false} SettlingConcat<T>(st: Store<T>, a: seq<Attempt>, b: seq<Attempt>, apply: Applier<T>)
    ensures Settling(st, a + b, apply) == Settling(st, a, apply) + Settling(ApplyAll(st, a, apply), b, apply)
  {
    hide Settles;
    if b == [] {
      assert a + b == a;
    } else {
      var b' := b[..|b| - 1];
      assert (a + b)[..|a + b| - 1] == a + b';
      SettlingConcat(st, a, b', apply);
      ApplyConcat(st, a, b', apply);
    }
  }

  /** What the next run takes up from there: the following k arrivals, in order. */
  lemma RunTakes<T(!new)>(st0: Store<T>, arrivals: seq<File>, runs: seq<Run>, apply: Applier<T>) returns (k: nat)
    requires Arrivals(arrivals, runs) && runs != []
    requires UpTo(st0, arrivals, runs[..|runs| - 1], apply)
    ensures var m := |Log(st0, runs[..|runs| - 1], apply)|;
            var tries := AttemptedBy(AfterRuns(st0, runs[..|runs| - 1], apply), runs[|runs| - 1]);
            m + k <= runs[|runs| - 1].arrived <= |arrivals| && FilesOf(tries) == arrivals[m..m + k] && NamesDistinct(FilesOf(tries))
  {
    hide InOrder, NamesDistinct, Lists, Recorded, Jobs, Attempted, Settling, Arrivals, FilesOf, AttemptsAt, AfterRuns;
    var init, run := runs[..|runs| - 1], runs[|runs| - 1];
    ArrivalsLast(arrivals, runs);
    ListsWithin(run, arrivals);
    var m := |Log(st0, init, apply)|;
    k := Finished(run.arrived - m, run.stop);
    TakesUpTheRest(AfterRuns(st0, init, apply), arrivals, m, run);
    FilesOfAttempts(arrivals[m..m + k], run.mishaps);
    SliceDistinct(arrivals, m, m + k);
  }

  /** One more run from there: it keeps the order exactly when none of its files settles out of turn. */
  lemma RunInTurn<T(!new)>(st0: Store<T>, arrivals: seq<File>, runs: seq<Run>, apply: Applier<T>)
    requires Arrivals(arrivals, runs) && runs != [] && Unrecorded(st0, arrivals)
    requires UpTo(st0, arrivals, runs[..|runs| - 1], apply)
    ensures var before := AfterRuns(st0, runs[..|runs| - 1], apply);
            && (FilesOf(Log(st0, runs, apply)) <= arrivals <==> InTurn(before, AttemptedBy(before, runs[|runs| - 1]), apply))
            && (FilesOf(Log(st0, runs, apply)) <= arrivals ==> UpTo(st0, arrivals, runs, apply))
  {
    hide InOrder, NamesDistinct, Lists, Recorded, Settling, InTurn, Unrecorded, Arrivals, FilesOf, AttemptedBy, AfterRuns;
    var init, run := runs[..|runs| - 1], runs[|runs| - 1];
    ArrivalsLast(arrivals, runs);
    var before, log := AfterRuns(st0, init, apply), Log(st0, init, apply);
    var k := RunTakes(st0, arrivals, runs, apply);
    var tries := AttemptedBy(before, run);
    SettlingPrefix(before, tries, apply);
    var settled := Settling(before, tries, apply);
    FilesOfConcat(log, settled);
    PrefixAfter(arrivals, |log|, k, FilesOf(settled));
    if FilesOf(Log(st0, runs, apply)) <= arrivals {
      RecordedBy(st0, arrivals, runs, apply, |log| + |settled|);
    }
  }

  lemma ListsWithin(run: Run, arrivals: seq<File>)
    requires Lists(run.dir, arrivals, run.arrived)
    ensures run.arrived <= |arrivals|
  {
  }

  lemma FilesOfConcat(a: seq<Attempt>, b: seq<Attempt>)
    ensures FilesOf(a + b) == FilesOf(a) + FilesOf(b) && |FilesOf(a)| == |a| && |FilesOf(b)| == |b|
  {
  }

  lemma PrefixAfter(all: seq<File>, m: nat, k: nat, p: seq<File>)
    requires m + k <= |all| && |p| <= k
    ensures all[..m] + p <= all <==> p <= all[m..m + k]
    ensures all[..m] + p <= all ==> all[..m] + p == all[..m + |p|]
  {
    var whole := all[..m] + p;
    if p <= all[m..m + k] {
      forall i | 0 <= i < |whole|
        ensures whole[i] == all[i]
      {
        if i >= m {
          assert p[i - m] == all[m..m + k][i - m];
        }
      }
    }
    if whole <= all {
      forall i | 0 <= i < |p|
        ensures p[i] == all[m..m + k][i]
      {
        assert whole[m + i] == all[m + i];
      }
    }
  }

  lemma LogGrows<T>(st: Store<T>, runs: seq<Run>, apply: Applier<T>, arrivals: seq<File>)
    requires runs != [] && FilesOf(Log(st, runs, apply)) <= arrivals
    ensures FilesOf(Log(st, runs[..|runs| - 1], apply)) <= arrivals
  {
    hide Settling, Attempted, FilesOf;
    var before := AfterRuns(st, runs[..|runs| - 1], apply);
    var log := Log(st, runs[..|runs| - 1], apply);
    var more := Settling(before, AttemptedBy(before, runs[|runs| - 1]), apply);
    FilesOfConcat(log, more);
    assert FilesOf(log) <= FilesOf(log) + FilesOf(more);
  }

  lemma {:induction false} OrderUpTo<T(!new)>(st0: Store<T>, arrivals: seq<File>, runs: seq<Run>, apply: Applier<T>)
    requires Arrivals(arrivals, runs) && Unrecorded(st0, arrivals)
    ensures FilesOf(Log(st0, runs, apply)) <= arrivals <==> AllInTurn(st0, runs, apply)
    ensures AllInTurn(st0, runs, apply) ==> UpTo(st0, arrivals, runs, apply)
  {
    hide Arrivals, Unrecorded, UpTo, InTurn, Log, AfterRuns, AttemptedBy;
    if runs == [] {
      NothingUpTo(st0, arrivals, apply);
      UpToPrefix(st0, arrivals, runs, apply);
    } else {
      ArrivalsLast(arrivals, runs);
      OrderUpTo(st0, arrivals, runs[..|runs| - 1], apply);
      if AllInTurn(st0, runs[..|runs| - 1], apply) {
        RunInTurn(st0, arrivals, runs, apply);
      }
      if FilesOf(Log(st0, runs, apply)) <= arrivals {
        LogGrows(st0, runs, apply, arrivals);
      }
    }
  }

  lemma UpToPrefix<T(!new)>(st0: Store<T>, arrivals: seq<File>, runs: seq<Run>, apply: Applier<T>)
    requires UpTo(st0, arrivals, runs, apply)
    ensures FilesOf(Log(st0, runs, apply)) <= arrivals
  {
  }

  /**
   Oldest-first over whole histories, exactly: whatever fails and wherever runs stop, the
   files settle in arrival order if and only if no run records a file after failing to
   record an older one.
   */
  lemma OrderExact<T(!new)>(st0: Store<T>, arrivals: seq<File>, runs: seq<Run>, apply: Applier<T>)
    requires Arrivals(arrivals, runs) && Unrecorded(st0, arrivals)
    ensures FilesOf(Log(st0, runs, apply)) <= arrivals <==> AllInTurn(st0, runs, apply)
  {
    hide Arrivals, Unrecorded, Log, AllInTurn, UpTo, FilesOf;
    OrderUpTo(st0, arrivals, runs, apply);
  }

  /** Then a file of a later day settles after every one of an earlier day, over all the runs. */
  lemma DaysSettleInTurn<T(!new)>(st0: Store<T>, arrivals: seq<File>, runs: seq<Run>, apply: Applier<T>, i: nat, j: nat)
    requires Arrivals(arrivals, runs) && Unrecorded(st0, arrivals) && AllInTurn(st0, runs, apply)
    requires i < j < |Log(st0, runs, apply)|
    ensures var a, b := Log(st0, runs, apply)[i].file.meta, Log(st0, runs, apply)[j].file.meta;
            a.date < b.date || (a.date == b.date && a.seqNo < b.seqNo)
  {
    hide Log, AllInTurn, Unrecorded;
    OrderExact(st0, arrivals, runs, apply);
    var files := FilesOf(Log(st0, runs, apply));
    assert files[i] == arrivals[i] && files[j] == arrivals[j];
  }

  /** Mishaps after which every failed file is still recorded. */
  ghost predicate AlwaysRecorded(arrivals: seq<File>, mishaps: Mishaps) {
    forall f :: f in arrivals ==> !mishaps(f.meta.name).lost
  }

  lemma {:induction false} RecordedInTurn<T(!new)>(st0: Store<T>, arrivals: seq<File>, runs: seq<Run>, apply: Applier<T>, mishaps: Mishaps)
    requires Arrivals(arrivals, runs) && Unrecorded(st0, arrivals) && AlwaysRecorded(arrivals, mishaps)
    requires forall run :: run in runs ==> run.mishaps == mishaps
    ensures UpTo(st0, arrivals, runs, apply)
    ensures Log(st0, runs, apply) == AttemptsAt(arrivals[..|Log(st0, runs, apply)|], mishaps)
    ensures runs != [] && runs[|runs| - 1].stop == None ==> |Log(st0, runs, apply)| == runs[|runs| - 1].arrived
  {
    hide Arrivals, Unrecorded, UpTo, AttemptsAt, AfterRuns, Log;
    if runs == [] {
      NothingUpTo(st0, arrivals, apply);
      EmptyLog(st0, arrivals, apply, mishaps);
    } else {
      ArrivalsLast(arrivals, runs);
      RecordedInTurn(st0, arrivals, runs[..|runs| - 1], apply, mishaps);
      assert runs[|runs| - 1] in runs;
      RunRecords(st0, arrivals, runs, apply, mishaps);
    }
  }

  lemma EmptyLog<T>(st0: Store<T>, arrivals: seq<File>, apply: Applier<T>, mishaps: Mishaps)
    ensures Log(st0, [], apply) == AttemptsAt(arrivals[..|Log(st0, [], apply)|], mishaps)
  {
    assert Log(st0, [], apply) == [];
  }

  lemma AttemptsConcat(a: seq<File>, b: seq<File>, mishaps: Mishaps)
    ensures AttemptsAt(a + b, mishaps) == AttemptsAt(a, mishaps) + AttemptsAt(b, mishaps)
  {
  }

  lemma RunRecords<T(!new)>(st0: Store<T>, arrivals: seq<File>, runs: seq<Run>, apply: Applier<T>, mishaps: Mishaps)
    requires Arrivals(arrivals, runs) && runs != [] && Unrecorded(st0, arrivals) && AlwaysRecorded(arrivals, mishaps)
    requires runs[|runs| - 1].mishaps == mishaps
    requires UpTo(st0, arrivals, runs[..|runs| - 1], apply)
    requires var log := Log(st0, runs[..|runs| - 1], apply);
             log == AttemptsAt(arrivals[..|log|], mishaps)
    ensures UpTo(st0, arrivals, runs, apply)
    ensures Log(st0, runs, apply) == AttemptsAt(arrivals[..|Log(st0, runs, apply)|], mishaps)
    ensures runs[|runs| - 1].stop == None ==> |Log(st0, runs, apply)| == runs[|runs| - 1].arrived
  {
    hide InOrder, NamesDistinct, Lists, Recorded, Jobs, Settling, Attempted, Unrecorded, Arrivals, FilesOf, AttemptsAt;
    var init, run := runs[..|runs| - 1], runs[|runs| - 1];
    ArrivalsLast(arrivals, runs);
    var before, log := AfterRuns(st0, init, apply), Log(st0, init, apply);
    var m := |log|;
    ListsWithin(run, arrivals);
    var k := Finished(run.arrived - m, run.stop);
    TakesUpTheRest(before, arrivals, m, run);
    var tries := AttemptedBy(before, run);
    forall i | 0 <= i < |tries|
      ensures SettlesAt(before, tries, i, apply)
    {
      assert tries[i].file == arrivals[m..m + k][i];
      assert arrivals[m + i] in arrivals;
    }
    AllSettle(before, tries, apply);
    AttemptsConcat(arrivals[..m], arrivals[m..m + k], mishaps);
    assert arrivals[..m] + arrivals[m..m + k] == arrivals[..m + k];
    assert Log(st0, runs, apply) == AttemptsAt(arrivals[..m + k], mishaps);
    FilesOfAttempts(arrivals[..m + k], mishaps);
    RecordedBy(st0, arrivals, runs, apply, m + k);
  }

  /**
   Crash safety: for files with distinct dates and sequences arriving in order, any series
   of runs, each stopped anywhere, ends (once one run goes to its end) in the same table
   and the same file records as applying every file once, oldest first. What goes wrong
   with a file may be anything that is the same in every run and is recorded.
   */
  lemma CrashesChangeNothing<T(!new)>(st0: Store<T>, arrivals: seq<File>, runs: seq<Run>, apply: Applier<T>, mishaps: Mishaps)
    requires Arrivals(arrivals, runs) && runs != [] && Unrecorded(st0, arrivals) && AlwaysRecorded(arrivals, mishaps)
    requires forall run :: run in runs ==> run.mishaps == mishaps
    requires runs[|runs| - 1].stop == None && runs[|runs| - 1].arrived == |arrivals|
    ensures AfterRuns(st0, runs, apply) == ApplyAll(st0, AttemptsAt(arrivals, mishaps), apply)
  {
    hide Arrivals, Unrecorded, AfterRuns, Log, UpTo;
    RecordedInTurn(st0, arrivals, runs, apply, mishaps);
    RunsAreTheirLog(st0, runs, apply);
    assert arrivals[..|arrivals|] == arrivals;
  }

  const OLDER := File(FileMeta("f.1.csv", 1, 2), Lines(["1"]))
  const NEWER := File(FileMeta("f.2.csv", 2, 1), Lines(["2"]))

  /** A run that neither applies nor records the older file, and the next one, untroubled. */
  const OUTAGE := Run([OLDER, NEWER], 2, None, name => Mishap(name == OLDER.meta.name, false, name == OLDER.meta.name))
  const AFTERWARDS := Run([OLDER, NEWER], 2, None, name => SMOOTH)

  function LastFile(data: int, f: File): Option<Outcome<int>> {
    Some(Outcome(f.meta.date, 0, 0, 0, 0))
  }

  lemma LastFileData(st: Store<int>, a: Attempt)
    requires a.file.content.Lines?
    ensures var after := ApplyFile(st, a, LastFile);
            if !a.mishap.unread && !a.mishap.unsaved then
              after == Store(a.file.meta.date, Record(st.files, a.file.meta.name, Applied))
            else a.mishap.lost ==> after == st
  {
  }

  lemma ApplyTwo<T>(st: Store<T>, a: Attempt, b: Attempt, apply: Applier<T>)
    ensures ApplyAll(st, [a, b], apply) == ApplyFile(ApplyFile(st, a, apply), b, apply)
  {
    hide ApplyFile;
    ApplyOnly(st, a, apply);
    assert [a, b][..1] == [a];
  }

  lemma ApplyOnly<T>(st: Store<T>, a: Attempt, apply: Applier<T>)
    ensures ApplyAll(st, [a], apply) == ApplyFile(st, a, apply)
  {
    assert [a][..0] == [];
  }

  lemma OutageLeavesNewer()
    ensures AfterRuns(Store(0, map[]), [OUTAGE], LastFile) == Store(2, map[NEWER.meta.name := Applied])
  {
    hide ApplyFile;
    var st := Store(0, map[]);
    JobsBoth();
    var tries := AttemptedBy(st, OUTAGE);
    assert [OLDER, NEWER][..2] == [OLDER, NEWER];
    assert tries == [tries[0], tries[1]];
    hide Jobs, Pending, Sort;
    assert [OUTAGE][..0] == [];
    assert AfterRuns(st, [], LastFile) == st;
    assert AfterRuns(st, [OUTAGE], LastFile) == ApplyAll(st, tries, LastFile);
    ApplyTwo(st, tries[0], tries[1], LastFile);
    assert OLDER.meta.name[2] != NEWER.meta.name[2];
    assert tries[0] == Attempt(OLDER, Mishap(true, false, true)) && tries[1] == Attempt(NEWER, SMOOTH);
    LastFileData(st, tries[0]);
    LastFileData(st, tries[1]);
  }

  /** After that outage the older file is applied last, and its values win. */
  lemma OlderFileWins()
    ensures AfterRuns(Store(0, map[]), [OUTAGE, AFTERWARDS], LastFile).data == 1
    ensures ApplyAll(Store(0, map[]), [Attempt(OLDER, SMOOTH), Attempt(NEWER, SMOOTH)], LastFile).data == 2
  {
    hide ApplyFile, ApplyAll;
    var st := Store(0, map[]);
    OutageLeavesNewer();
    assert [OUTAGE, AFTERWARDS][..1] == [OUTAGE];
    var before := AfterRuns(st, [OUTAGE], LastFile);
    hide AfterRuns;
    JobsLeft(before.files);
    var tries := AttemptedBy(before, AFTERWARDS);
    assert tries == [Attempt(OLDER, SMOOTH)];
    ApplyOnly(before, Attempt(OLDER, SMOOTH), LastFile);
    LastFileData(before, Attempt(OLDER, SMOOTH));
    AfterBoth(st);
    ApplyTwo(st, Attempt(OLDER, SMOOTH), Attempt(NEWER, SMOOTH), LastFile);
    LastFileData(ApplyFile(st, Attempt(OLDER, SMOOTH), LastFile), Attempt(NEWER, SMOOTH));
  }

  lemma JobsBoth()
    ensures Jobs([OLDER, NEWER], map[]) == [OLDER, NEWER]
  {
    assert [OLDER, NEWER][1..] == [NEWER] && [NEWER][1..] == [];
    assert Pending([NEWER], map[]) == [NEWER];
    assert Pending([OLDER, NEWER], map[]) == [OLDER, NEWER];
    assert Sort([NEWER]) == [NEWER];
  }

  lemma JobsLeft(files: map<string, Status>)
    requires files == map[NEWER.meta.name := Applied]
    ensures Jobs([OLDER, NEWER], files) == [OLDER]
  {
    assert OLDER.meta.name !in files;
    assert [OLDER, NEWER][1..] == [NEWER] && [NEWER][1..] == [];
    assert Pending([NEWER], files) == [];
    assert Pending([OLDER, NEWER], files) == [OLDER];
    assert [OLDER][1..] == [];
    assert Sort([OLDER]) == [OLDER];
  }

  lemma AfterBoth(st: Store<int>)
    ensures var before := AfterRuns(st, [OUTAGE], LastFile);
            AfterRuns(st, [OUTAGE, AFTERWARDS], LastFile) == ApplyAll(before, AttemptedBy(before, AFTERWARDS), LastFile)
  {
    hide ApplyAll, Attempted;
    assert [OUTAGE, AFTERWARDS][..1] == [OUTAGE];
  }
}
