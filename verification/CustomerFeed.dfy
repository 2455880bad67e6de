/** The cust_file stream: rows read from both ends, so that commas in an address do no harm. */
module CustomerFeed {
  import opened Wrappers
  import opened Text
  import opened Sequences
  import opened FeedCore
  import opened MergeTable
  import Kobo

  const FIELD_COUNT: nat := 12

  datatype Customer = Customer(
    firstName: string,
    lastName: string,
    address1: string,
    address2: string,
    address3: string,
    country: string,
    phone: string,
    email: string,
    state: string,
    city: string,
    cell: string,
    cif: string)

  datatype ParseError = TooFewFields | NotACif

  predicate IsCif(s: string) {
    4 <= |s| <= 12 && Kobo.AllDigits(s)
  }

  /** The customer the trimmed fields spell: name at the head, contact and CIF at the tail, address between. */
  function FromFields(f: seq<string>): Result<Customer, ParseError>
    requires |f| >= FIELD_COUNT
  {
    var n := |f|;
    var addr := f[2..n - 7];
    var c := Customer(f[0], f[1], addr[0], addr[1], Join(addr[2..], ", "),
                      f[n - 7], f[n - 6], f[n - 5], f[n - 4], f[n - 3], f[n - 2], f[n - 1]);
    if IsCif(c.cif) then Success(c) else Failure(NotACif)
  }

  function Parsed(line: string): Result<Customer, ParseError> {
    var f := Split(line, ',');
    if |f| < FIELD_COUNT then Failure(TooFewFields) else FromFields(TrimAll(f))
  }

  method TrimInPlace(f: array<string>)
    modifies f
    ensures f[..] == TrimAll(old(f[..]))
  {
    hide TrimSpace, TrimAll;
    ghost var was := f[..];
    for i := 0 to f.Length
      invariant forall j :: 0 <= j < i ==> f[j] == TrimSpace(was[j])
      invariant forall j :: i <= j < f.Length ==> f[j] == was[j]
    {
      f[i] := TrimSpace(f[i]);
    }
  }

  /** ParseLine: the fields are trimmed in place, then assigned from both ends. */
  method ParseLine(line: string) returns (r: Result<Customer, ParseError>)
    ensures r == Parsed(line)
  {
    hide TrimSpace, Split, Join, IsCif, TrimAll;
    var parts := Split(line, ',');
    var n := |parts|;
    if n < FIELD_COUNT {
      return Failure(TooFewFields);
    }
    var f := new string[n](i requires 0 <= i < n => parts[i]);
    assert f[..] == parts;
    TrimInPlace(f);
    r := Assign(f[..]);
  }

  method Assign(f: seq<string>) returns (r: Result<Customer, ParseError>)
    requires |f| >= FIELD_COUNT
    ensures r == FromFields(f)
  {
    hide Join, IsCif;
    var n := |f|;
    var addr := f[2..n - 7];
    var a1, a2, a3 := "", "", "";
    if |addr| > 0 {
      a1 := addr[0];
    }
    if |addr| > 1 {
      a2 := addr[1];
    }
    if |addr| > 2 {
      a3 := Join(addr[2..], ", ");
    }
    if !IsCif(f[n - 1]) {
      return Failure(NotACif);
    }
    return Success(Customer(f[0], f[1], a1, a2, a3, f[n - 7], f[n - 6], f[n - 5], f[n - 4], f[n - 3], f[n - 2], f[n - 1]));
  }

  // ── the parser inverts its printer ─────────────────────────────────────────

  /** The nine fields outside the address, in line order around it. */
  function Line(first: string, last: string, addr: seq<string>, tail: seq<string>): string {
    Join([first, last] + addr + tail, ",")
  }

  predicate CommaFree(parts: seq<string>) {
    forall i :: 0 <= i < |parts| ==> ',' !in parts[i]
  }

  predicate AllTrimmed(parts: seq<string>) {
    forall i :: 0 <= i < |parts| ==> Trimmed(parts[i])
  }

  /**
   A line with any address of three or more pieces parses to its nine other fields,
   trimmed, and to its address with the overflow folded into line 3: extra commas in the
   address never shift another field.
   */
  lemma ParsesFromBothEnds(first: string, last: string, addr: seq<string>, tail: seq<string>)
    requires |addr| >= 3 && |tail| == 7
    requires CommaFree([first, last] + addr + tail)
    requires IsCif(TrimSpace(tail[6]))
    ensures var a, t := TrimAll(addr), TrimAll(tail);
            Parsed(Line(first, last, addr, tail)) ==
            Success(Customer(TrimSpace(first), TrimSpace(last), a[0], a[1], Join(a[2..], ", "),
                             t[0], t[1], t[2], t[3], t[4], t[5], t[6]))
  {
    hide TrimSpace, Split, Join, IsCif, TrimAll;
    var parts := [first, last] + addr + tail;
    SplitJoin(parts, ',');
    SplitEachWhole(parts, ',');
    TrimAllConcat([first, last] + addr, tail);
    TrimAllConcat([first, last], addr);
    assert TrimAll([first, last]) == [TrimSpace(first), TrimSpace(last)];
    FieldsFromEnds(TrimSpace(first), TrimSpace(last), TrimAll(addr), TrimAll(tail));
  }

  lemma FieldsFromEnds(first: string, last: string, a: seq<string>, t: seq<string>)
    requires |a| >= 3 && |t| == 7 && IsCif(t[6])
    ensures FromFields([first, last] + a + t) ==
            Success(Customer(first, last, a[0], a[1], Join(a[2..], ", "), t[0], t[1], t[2], t[3], t[4], t[5], t[6]))
  {
    hide Join, IsCif;
    var f, n := [first, last] + a + t, 9 + |a|;
    assert f[2..n - 7] == a;
  }

  /** For trimmed fields the parser gives back exactly what was joined. */
  lemma ParseInvertsPrint(c: Customer, addr: seq<string>)
    requires |addr| >= 3 && IsCif(c.cif)
    requires var tail := [c.country, c.phone, c.email, c.state, c.city, c.cell, c.cif];
             CommaFree([c.firstName, c.lastName] + addr + tail) && AllTrimmed([c.firstName, c.lastName] + addr + tail)
    ensures var tail := [c.country, c.phone, c.email, c.state, c.city, c.cell, c.cif];
            Parsed(Line(c.firstName, c.lastName, addr, tail)) ==
            Success(c.(address1 := addr[0], address2 := addr[1], address3 := Join(addr[2..], ", ")))
  {
    hide TrimSpace, Split, Join, IsCif, Parsed, Line;
    var tail := [c.country, c.phone, c.email, c.state, c.city, c.cell, c.cif];
    var parts := [c.firstName, c.lastName] + addr + tail;
    TrimAllTrimmed(parts);
    assert TrimAll(parts) == [TrimSpace(c.firstName), TrimSpace(c.lastName)] + TrimAll(addr) + TrimAll(tail);
    assert parts[..2] == [c.firstName, c.lastName] && parts[2..|parts| - 7] == addr && parts[|parts| - 7..] == tail;
    assert TrimSpace(c.cif) == c.cif by {
      assert TrimAll(parts)[|parts| - 1] == TrimSpace(c.cif) && parts[|parts| - 1] == c.cif;
    }
    ParsesFromBothEnds(c.firstName, c.lastName, addr, tail);
    assert TrimAll(addr) == TrimAll(parts)[2..|parts| - 7];
    assert TrimAll(tail) == TrimAll(parts)[|parts| - 7..];
  }

  lemma TrimAllTrimmed(parts: seq<string>)
    requires AllTrimmed(parts)
    ensures TrimAll(parts) == parts
  {
    forall i | 0 <= i < |parts|
      ensures TrimSpace(parts[i]) == parts[i]
    {
      TrimTrimmed(parts[i]);
    }
  }

  /** A line is a customer exactly when it has at least twelve pieces and the last is 4 to 12 digits. */
  lemma AcceptsExactly(parts: seq<string>)
    requires parts != [] && CommaFree(parts)
    ensures var cif := TrimSpace(parts[|parts| - 1]);
            var r := Parsed(Join(parts, ","));
            && (r.Success? <==>
                |parts| >= 12 && 4 <= |cif| <= 12 && forall i :: 0 <= i < |cif| ==> '0' <= cif[i] <= '9')
            && (r.Failure? ==> r.error == if |parts| < 12 then TooFewFields else NotACif)
            && (r.Success? ==> r.value.cif == cif)
  {
    hide TrimSpace, Split, Join;
    SplitJoin(parts, ',');
    SplitEachWhole(parts, ',');
  }

  /** The twelve-field line of a customer. */
  function Print(c: Customer): string {
    Join([c.firstName, c.lastName, c.address1, c.address2, c.address3,
          c.country, c.phone, c.email, c.state, c.city, c.cell, c.cif], ",")
  }

  /** Pieces folded with ", " come apart again at the commas, each with one space in front. */
  lemma {:induction false} SplitFolded(xs: seq<string>)
    requires xs != [] && CommaFree(xs) && AllTrimmed(xs)
    ensures TrimAll(Split(Join(xs, ", "), ',')) == xs
  {
    hide TrimSpace, Split;
    TrimTrimmed(xs[0]);
    SplitWhole(xs[0], ',');
    assert TrimAll([xs[0]]) == [xs[0]];
    if |xs| > 1 {
      var rest := Join(xs[1..], ", ");
      assert xs[0] + ", " + rest == xs[0] + [','] + ([' '] + rest);
      SplitConcat(xs[0], ',', [' '] + rest);
      SplitFolded(xs[1..]);
      SplitSpaced(rest);
      var s := Split([' '] + rest, ',');
      hide Join;
      TrimAllConcat([xs[0]], s);
      assert xs == [xs[0]] + xs[1..];
    }
  }

  lemma SplitSpaced(s: string)
    ensures TrimAll(Split([' '] + s, ',')) == TrimAll(Split(s, ','))
  {
    hide TrimSpace;
    var f := Split(s, ',');
    assert ([' '] + s)[1..] == s;
    assert Split([' '] + s, ',') == [[' '] + f[0]] + f[1..];
    assert AllSpace([' ']);
    TrimPad([' '], f[0], []);
    assert [' '] + f[0] + [] == [' '] + f[0];
  }

  lemma TrimAllConcat(a: seq<string>, b: seq<string>)
    ensures TrimAll(a + b) == TrimAll(a) + TrimAll(b)
  {
  }

  /** What a trimmed field of a line is: trimmed, and free of commas. */
  lemma FieldsClean(line: string)
    ensures CommaFree(TrimAll(Split(line, ','))) && AllTrimmed(TrimAll(Split(line, ',')))
  {
    hide TrimSpace, IsSpace;
    var f := Split(line, ',');
    forall i | 0 <= i < |f|
      ensures ',' !in TrimSpace(f[i]) && Trimmed(TrimSpace(f[i]))
    {
      var a, b := TrimParts(f[i]);
    }
  }

  /** Clean fields on either side of a text survive a line: only the text is cut at its commas. */
  lemma MiddleApart(head: seq<string>, middle: string, tail: seq<string>)
    requires CommaFree(head) && CommaFree(tail) && AllTrimmed(head) && AllTrimmed(tail)
    ensures TrimAll(Split(Join(head + [middle] + tail, ","), ',')) == head + TrimAll(Split(middle, ',')) + tail
  {
    hide TrimSpace, Split, Join, TrimAll, SplitEach;
    SplitJoin(head + [middle] + tail, ',');
    SplitEachConcat(head + [middle], tail, ',');
    SplitEachConcat(head, [middle], ',');
    SplitEachWhole(head, ',');
    SplitEachWhole(tail, ',');
    SplitEachOne(middle);
    TrimAllConcat(head + Split(middle, ','), tail);
    TrimAllConcat(head, Split(middle, ','));
    TrimAllTrimmed(head);
    TrimAllTrimmed(tail);
  }

  /** The printed line of a parsed customer has the fields it was parsed from. */
  lemma PrintedFields(f: seq<string>)
    requires |f| >= FIELD_COUNT && CommaFree(f) && AllTrimmed(f) && FromFields(f).Success?
    ensures TrimAll(Split(Print(FromFields(f).value), ',')) == f
  {
    hide TrimSpace, Split, Join, IsCif, TrimAll, Print;
    var n := |f|;
    var folded := f[4..n - 7];
    assert f[2..n - 7][2..] == folded;
    PrintedParts(f);
    MiddleApart(f[..4], Join(folded, ", "), f[n - 7..]);
    SplitFolded(folded);
    assert f[..4] + folded + f[n - 7..] == f;
  }

  lemma PrintedParts(f: seq<string>)
    requires |f| >= FIELD_COUNT && FromFields(f).Success?
    ensures var c := FromFields(f).value;
            Print(c) == Join(f[..4] + [c.address3] + f[|f| - 7..], ",")
  {
    hide Join, IsCif;
    var c := FromFields(f).value;
    assert f[2..|f| - 7][0] == f[2] && f[2..|f| - 7][1] == f[3];
    assert f[..4] + [c.address3] + f[|f| - 7..] ==
           [c.firstName, c.lastName, c.address1, c.address2, c.address3,
            c.country, c.phone, c.email, c.state, c.city, c.cell, c.cif];
  }

  lemma SplitEachOne(s: string)
    ensures SplitEach([s], ',') == Split(s, ',')
  {
    assert [s][1..] == [];
    assert Split(s, ',') + [] == Split(s, ',');
  }

  /** Printing and parsing again is stable: every line that parses gives a customer whose line parses to it. */
  lemma PrintParseStable(line: string)
    requires Parsed(line).Success?
    ensures Parsed(Print(Parsed(line).value)) == Parsed(line)
  {
    hide TrimSpace, Split, TrimAll, FromFields, Print, CommaFree, AllTrimmed;
    var f := TrimAll(Split(line, ','));
    FieldsClean(line);
    PrintedFields(f);
  }

  // ── the stream ─────────────────────────────────────────────────────────────

  datatype Column =
    | FirstName | LastName | FullName | Email | Phone | Address1 | Address2 | FullAddress
    | City | State | Country | Address3 | Phone2
    | EmailWasMalformed | SourceFile

  /** FullName, by which a blank half leaves no stray space. */
  function FullNameOf(c: Customer): string {
    TrimSpace(c.firstName + " " + c.lastName)
  }

  function Populated(parts: seq<string>): seq<string> {
    Collect(parts, (p: string) => if TrimSpace(p) == "" then None else Some(TrimSpace(p)))
  }

  /** FullAddress: the populated address lines. */
  method FullAddressOf(c: Customer) returns (s: string)
    ensures s == Join(Populated([c.address1, c.address2, c.address3]), ", ")
  {
    hide TrimSpace, Join;
    var lines := [c.address1, c.address2, c.address3];
    var parts := [];
    for i := 0 to 3
      invariant parts == Populated(lines[..i])
    {
      CollectNext(lines, i, (p: string) => if TrimSpace(p) == "" then None else Some(TrimSpace(p)));
      var p := TrimSpace(lines[i]);
      if p != "" {
        parts := parts + [p];
      }
    }
    assert lines[..3] == lines;
    s := Join(parts, ", ");
  }

  /** EmailLooksMalformed */
  predicate EmailLooksMalformed(email: string) {
    var e := TrimSpace(email);
    var at := IndexOf(e, "@");
    e != "" && (at <= 0 || at == |e| - 1 || !Contains(e[at..], "."))
  }

  /** A usable address is text, an at sign, and text with a point in it. */
  ghost predicate LooksRight(email: string) {
    exists user: string, host: string :: Addresses(email, user, host)
  }

  ghost predicate Addresses(email: string, user: string, host: string) {
    email == user + "@" + host && user != "" && '@' !in user && host != "" && '.' in host
  }

  /** The flag is set exactly on an email that is neither blank nor looks right. */
  lemma EmailExact(email: string)
    ensures EmailLooksMalformed(email) <==> TrimSpace(email) != "" && !LooksRight(TrimSpace(email))
  {
    hide TrimSpace, LooksRight;
    LooksExact(TrimSpace(email));
  }

  lemma LooksExact(e: string)
    ensures LooksRight(e) <==>
            var at := IndexOf(e, "@");
            0 < at < |e| - 1 && Contains(e[at..], ".")
  {
    hide Contains, IndexOf;
    var at := IndexOf(e, "@");
    if LooksRight(e) {
      var user, host :| Addresses(e, user, host);
      FirstAt(e, user, host);
      PointAfter(e, at);
    }
    if 0 < at < |e| - 1 {
      Divided(e, at);
      PointAfter(e, at);
    }
  }

  /** Cut at its first at sign, a text looks right if a point follows. */
  lemma Divided(e: string, at: nat)
    requires IndexOf(e, "@") == at && 0 < at < |e| - 1
    ensures e[at] == '@' && ('.' in e[at + 1..] ==> LooksRight(e))
  {
    hide IndexOf;
    NoneBefore(e, at);
    if '.' in e[at + 1..] {
      CutRight(e, at);
    }
  }

  lemma NoneBefore(e: string, at: nat)
    requires IndexOf(e, "@") == at && at < |e|
    ensures e[at] == '@' && '@' !in e[..at]
  {
    AtSign(e, at);
    forall k | 0 <= k < at
      ensures e[..at][k] != '@'
    {
      AtSign(e, k);
    }
  }

  lemma CutRight(e: string, at: nat)
    requires 0 < at < |e| && e[at] == '@' && '@' !in e[..at] && '.' in e[at + 1..]
    ensures LooksRight(e)
  {
    assert e == e[..at] + "@" + e[at + 1..];
    assert Addresses(e, e[..at], e[at + 1..]);
  }

  lemma AtSign(e: string, k: nat)
    requires k <= |e|
    ensures "@" <= e[k..] <==> k < |e| && e[k] == '@'
  {
  }

  /** The first at sign of an address ends its user. */
  lemma FirstAt(e: string, user: string, host: string)
    requires Addresses(e, user, host)
    ensures IndexOf(e, "@") == |user| && e[|user|] == '@' && e[|user| + 1..] == host
  {
    assert e[|user|..] == "@" + host;
    AtSign(e, |user|);
    forall k | 0 <= k < |user|
      ensures !("@" <= e[k..])
    {
      AtSign(e, k);
      assert e[k] == user[k];
    }
  }

  lemma PointAfter(e: string, at: nat)
    requires at < |e| && e[at] == '@'
    ensures Contains(e[at..], ".") <==> '.' in e[at + 1..]
  {
    var t := e[at..];
    assert t == "@" + e[at + 1..];
    if '.' in e[at + 1..] {
      var k :| 0 <= k < |e[at + 1..]| && e[at + 1..][k] == '.';
      assert t[k + 1..] == "." + t[k + 2..];
      assert "." <= t[k + 1..];
    }
    if Contains(t, ".") {
      var i := IndexOf(t, ".");
      assert t[i..][0] == '.' && t[i] == '.';
    }
  }

  /** What each column takes from a customer; None when that is blank. */
  function Takes(c: Customer, meta: FileMeta, column: Column): Option<Value> {
    match column
    case FirstName => AsText(c.firstName)
    case LastName => AsText(c.lastName)
    case FullName => AsText(FullNameOf(c))
    case Email => AsText(c.email)
    case Phone => AsText(c.phone)
    case Address1 => AsText(c.address1)
    case Address2 => AsText(c.address2)
    case FullAddress => AsText(Join(Populated([c.address1, c.address2, c.address3]), ", "))
    case City => AsText(c.city)
    case State => AsText(c.state)
    case Country => AsText(c.country)
    case Address3 => AsText(c.address3)
    case Phone2 => AsText(c.cell)
    case EmailWasMalformed => Some(Flag(EmailLooksMalformed(c.email)))
    case SourceFile => Some(Text(meta.name))
  }

  /** The columns upsertSQL writes; the malformed flag and the file name are never blank. */
  function ColumnsOf(c: Customer, meta: FileMeta): map<Column, Value> {
    map column: Column | Takes(c, meta, column).Some? :: Takes(c, meta, column).value
  }

  ghost predicate IsText(v: Option<Value>, s: string) {
    v == if s == "" then None else Some(Text(s))
  }

  lemma TakesAt(c: Customer, meta: FileMeta, column: Column)
    ensures At(ColumnsOf(c, meta), column) == Takes(c, meta, column)
  {
    hide Takes;
  }

  /** Each field of a customer goes to the column of its name. */
  lemma FieldColumns(c: Customer, meta: FileMeta)
    ensures var cols := ColumnsOf(c, meta);
            && IsText(At(cols, FirstName), c.firstName) && IsText(At(cols, LastName), c.lastName)
            && IsText(At(cols, Email), c.email) && IsText(At(cols, Phone), c.phone) && IsText(At(cols, Phone2), c.cell)
            && IsText(At(cols, Address1), c.address1) && IsText(At(cols, Address2), c.address2)
            && IsText(At(cols, Address3), c.address3) && IsText(At(cols, City), c.city)
            && IsText(At(cols, State), c.state) && IsText(At(cols, Country), c.country)
  {
    hide TrimSpace, EmailLooksMalformed, Populated, Join, ColumnsOf, At, FullNameOf;
    forall column: Column
      ensures At(ColumnsOf(c, meta), column) == Takes(c, meta, column)
    {
      TakesAt(c, meta, column);
    }
  }

  /** Three columns are derived: the whole name, the whole address, and whether the email is of no use. */
  lemma DerivedColumns(c: Customer, meta: FileMeta)
    ensures var cols := ColumnsOf(c, meta);
            && IsText(At(cols, FullName), TrimSpace(c.firstName + " " + c.lastName))
            && IsText(At(cols, FullAddress), Join(Populated([c.address1, c.address2, c.address3]), ", "))
            && At(cols, EmailWasMalformed) == Some(Flag(TrimSpace(c.email) != "" && !LooksRight(TrimSpace(c.email))))
            && At(cols, SourceFile) == Some(Text(meta.name))
  {
    hide TrimSpace, EmailLooksMalformed, LooksRight, Populated, Join, ColumnsOf, At;
    EmailExact(c.email);
    TakesAt(c, meta, FullName);
    TakesAt(c, meta, FullAddress);
    TakesAt(c, meta, EmailWasMalformed);
    TakesAt(c, meta, SourceFile);
  }

  /** The text the test-record screen looks at. */
  function ScreenedName(c: Customer): string {
    c.firstName + " " + c.lastName + " " + FullNameOf(c)
  }

  function Screened(c: Customer, meta: FileMeta, isTest: string -> bool): Option<Row<Column>> {
    if isTest(ScreenedName(c)) then None else Some(Row(c.cif, ColumnsOf(c, meta)))
  }

  function ParseRow(isTest: string -> bool, meta: FileMeta, line: string): Option<Row<Column>> {
    match Parsed(line)
    case Failure(_) => None
    case Success(c) => Screened(c, meta, isTest)
  }

  function Customers(isTest: string -> bool, refuses: Row<Column> -> bool): MergeTable.Feed<Column> {
    MergeTable.Feed((meta: FileMeta, line: string) => ParseRow(isTest, meta, line), Parses, refuses)
  }

  /** The rows this feed counts as read are the customers parsed. */
  predicate Parses(line: string) {
    Parsed(line).Success?
  }

  function ParsedCustomer(line: string): Option<Customer> {
    match Parsed(line)
    case Failure(_) => None
    case Success(c) => Some(c)
  }

  /** The upserts of one file's customers, in its transaction; None when the database refuses a row. */
  method UpsertCustomers(t: Table<Column>, custs: seq<Customer>, meta: FileMeta, isTest: string -> bool,
                         refuses: Row<Column> -> bool)
    returns (tx: Option<Table<Column>>, inserted: nat, updated: nat, skippedTest: nat)
    ensures var rows := Collect(custs, (c: Customer) => Screened(c, meta, isTest));
            && (tx.Some? <==> Accepted(rows, Customers(isTest, refuses)))
            && (tx.Some? ==>
                  && tx.value == UpsertAll(t, rows) && inserted == |tx.value| - |t|
                  && inserted + updated == |rows| && skippedTest == |custs| - |rows|)
  {
    hide Merge, Collect, UpsertAll, Accepted, ColumnsOf, ScreenedName;
    ghost var feed := Customers(isTest, refuses);
    ghost var screen := (c: Customer) => Screened(c, meta, isTest);
    var table := t;
    inserted, updated, skippedTest := 0, 0, 0;
    NoItems(t, screen, feed);
    for i := 0 to |custs|
      invariant table == UpsertAll(t, Collect(custs[..i], screen))
      invariant Accepted(Collect(custs[..i], screen), feed)
      invariant inserted == |table| - |t| && inserted + updated == |Collect(custs[..i], screen)|
      invariant inserted + updated + skippedTest == i
    {
      ItemStep(t, custs, i, screen, feed);
      var c := custs[i];
      if isTest(ScreenedName(c)) {
        skippedTest := skippedTest + 1;
        continue;
      }
      var row := Row(c.cif, ColumnsOf(c, meta));
      if refuses(row) {
        return None, inserted, updated, skippedTest;
      }
      if row.key in table {
        updated := updated + 1;
      } else {
        inserted := inserted + 1;
      }
      table := Upsert(table, row);
    }
    assert custs[..|custs|] == custs;
    tx := Some(table);
  }

  lemma ScreenedRows(f: File, isTest: string -> bool, refuses: Row<Column> -> bool)
    requires f.content.Lines?
    ensures RowsOf(f, Customers(isTest, refuses)) ==
            Collect(Collect(f.content.lines, ParsedCustomer), (c: Customer) => Screened(c, f.meta, isTest))
  {
    hide Parsed, ColumnsOf, ScreenedName, Collect;
    var feed := Customers(isTest, refuses);
    var parse := (line: string) => feed.parse(f.meta, line);
    CollectTwice(f.content.lines, ParsedCustomer, (c: Customer) => Screened(c, f.meta, isTest), parse);
    assert RowsOf(f, feed) == Collect(f.content.lines, parse);
  }

  lemma CustomersCount(isTest: string -> bool, refuses: Row<Column> -> bool)
    ensures Customers(isTest, refuses).counts == Parses
  {
  }

  /** custfeed.applyFile: every line is parsed first, then the survivors are upserted in one transaction. */
  method Apply(t: Table<Column>, f: File, isTest: string -> bool, refuses: Row<Column> -> bool)
    returns (tx: Option<Outcome<Table<Column>>>)
    requires f.content.Lines?
    ensures tx == ApplyRows(Customers(isTest, refuses))(t, f)
  {
    hide Collect, UpsertAll, Accepted, Screened, Customers, RowsOf, Parsed, Count, Parses;
    var lines := f.content.lines;
    var custs := ParseLines(lines);
    var rejected := |lines| - |custs|;
    var table, inserted, updated, skippedTest := UpsertCustomers(t, custs, f.meta, isTest, refuses);
    ScreenedRows(f, isTest, refuses);
    CustomersCount(isTest, refuses);
    if table.None? {
      return None;
    }
    tx := Some(Outcome(table.value, |custs|, inserted, updated, rejected + skippedTest));
  }

  method ParseLines(lines: seq<string>) returns (custs: seq<Customer>)
    ensures custs == Collect(lines, ParsedCustomer) && |custs| == Count(lines, Parses)
  {
    hide Parsed;
    custs := [];
    for i := 0 to |lines|
      invariant custs == Collect(lines[..i], ParsedCustomer) && |custs| == Count(lines[..i], Parses)
    {
      CollectNext(lines, i, ParsedCustomer);
      CountNext(lines, i, Parses);
      var c := ParseLine(lines[i]);
      if c.Success? {
        custs := custs + [c.value];
      }
    }
    assert lines[..|lines|] == lines;
  }

  const ONE_LINE := File(FileMeta("cust_file.1.csv", 0, 1), Lines(["x"]))

  /** Of a file of one line that is no customer this feed reports no row read and one rejected. */
  lemma RejectedUnread(t: Table<Column>, isTest: string -> bool, refuses: Row<Column> -> bool)
    ensures ApplyRows(Customers(isTest, refuses))(t, ONE_LINE) == Some(Outcome(t, 0, 0, 0, 1))
  {
    hide IsCif, FromFields;
    SplitWhole("x", ',');
    assert Parsed("x").Failure?;
    hide Parsed, ApplyRows;
    RejectsOneLine(t, ONE_LINE, Customers(isTest, refuses), "x");
  }
}
