/** The acct_file stream: one positional 20-field row per account. */
module AccountFeed {
  import opened Wrappers
  import opened Text
  import opened Sequences
  import opened FeedCore
  import opened MergeTable
  import Kobo

  const FIELD_COUNT: nat := 20
  const MIN_ACCOUNT_LENGTH: nat := 6

  datatype Column =
    | Cif | ProductName | ProductLine | Indicator | CardPan | NameOnCard
    | CurrentDrBalance | CycleBalance | CardWdAvailable | MinPaymentDue | CardLimit | CardUtilisation
    | OpenedDate | LastPaymentDate | CardExpiryDate | PaymentDueDate
    | CurrencyCode | StatusCode | InterestRate | CardIssueDate
    | SourceFile

  /** The number and date parsers, and the test-card screen, all of them total. */
  datatype Readers = Readers(num: string -> Option<real>, date: string -> Option<int>, isTest: string -> bool)

  function AsNumber(v: Option<real>): Option<Value> {
    if v.Some? then Some(Number(v.value)) else None
  }

  function AsDate(v: Option<int>): Option<Value> {
    if v.Some? then Some(Day(v.value)) else None
  }

  function ProductLineOf(product: string): string {
    var p := ToUpper(product);
    if Contains(p, "PREP") then "prepaid"
    else if Contains(p, "COOP") || Contains(p, "MEMCOS") then "deposit"
    else "card"
  }

  function Utilisation(limit: Option<real>, balance: Option<real>): Option<real> {
    if limit.Some? && limit.value != 0.0 && balance.Some? then Some(balance.value / limit.value * 100.0) else None
  }

  /** ParseLine, the screen, and the columns upsertSQL writes; None is a rejected row. */
  function ParseRow(readers: Readers, meta: FileMeta, line: string): Option<Row<Column>> {
    if |Split(line, ',')| != FIELD_COUNT then None
    else
      var f := TrimAll(Split(line, ','));
      if |f[0]| < MIN_ACCOUNT_LENGTH || readers.isTest(f[18]) then None
      else
        Some(Row(f[0], ColumnsOf(readers, meta, f)))
  }

  /** A three-digit code, or blank. */
  function CurrencyOf(s: string): string {
    if |s| == 3 && Kobo.AllDigits(s) then s else ""
  }

  /** A one- or two-digit code, or blank. */
  function StatusOf(s: string): string {
    if 1 <= |s| <= 2 && Kobo.AllDigits(s) then s else ""
  }

  /** What each column takes from the trimmed fields, counted from 0; None when that is blank or unreadable. */
  function Takes(readers: Readers, meta: FileMeta, f: seq<string>, c: Column): Option<Value>
    requires |f| == FIELD_COUNT
  {
    match c
    case ProductName => AsText(f[1])
    case CurrentDrBalance => AsNumber(readers.num(f[2]))
    case StatusCode => AsText(StatusOf(f[3]))
    case CycleBalance => AsNumber(readers.num(f[4]))
    case InterestRate => AsNumber(readers.num(f[5]))
    case CurrencyCode => AsText(CurrencyOf(f[6]))
    case OpenedDate => AsDate(readers.date(f[7]))
    case CardWdAvailable => AsNumber(readers.num(f[8]))
    case MinPaymentDue => AsNumber(readers.num(f[9]))
    case CardExpiryDate => AsDate(readers.date(f[10]))
    case CardLimit => AsNumber(readers.num(f[11]))
    case LastPaymentDate => AsDate(readers.date(f[12]))
    case Indicator => AsText(f[14])
    case Cif => AsText(f[15])
    case PaymentDueDate => AsDate(readers.date(f[16]))
    case CardPan => AsText(f[17])
    case NameOnCard => AsText(f[18])
    case CardIssueDate => AsDate(readers.date(f[19]))
    case ProductLine => AsText(ProductLineOf(f[1]))
    case CardUtilisation => AsNumber(Utilisation(readers.num(f[11]), readers.num(f[2])))
    case SourceFile => Some(Text(meta.name))
  }

  /** The columns upsertSQL writes: those that take a value. */
  function ColumnsOf(readers: Readers, meta: FileMeta, f: seq<string>): map<Column, Value>
    requires |f| == FIELD_COUNT
  {
    map c: Column | Takes(readers, meta, f, c).Some? :: Takes(readers, meta, f, c).value
  }

  // ── the layout ─────────────────────────────────────────────────────────────

  /** A line by the names of its fields. */
  datatype AccountLine = AccountLine(
    accountNo: string, productName: string, currentDrBalance: string, statusCode: string, cycleBalance: string,
    interestRate: string, currencyCode: string, openedDate: string, cardWdAvailable: string, minPaymentDue: string,
    cardExpiryDate: string, cardLimit: string, lastPaymentDate: string, unused: string, indicator: string,
    cif: string, paymentDueDate: string, cardPan: string, nameOnCard: string, cardIssueDate: string)

  function Fields(l: AccountLine): seq<string> {
    [l.accountNo, l.productName, l.currentDrBalance, l.statusCode, l.cycleBalance,
     l.interestRate, l.currencyCode, l.openedDate, l.cardWdAvailable, l.minPaymentDue,
     l.cardExpiryDate, l.cardLimit, l.lastPaymentDate, l.unused, l.indicator,
     l.cif, l.paymentDueDate, l.cardPan, l.nameOnCard, l.cardIssueDate]
  }

  ghost predicate IsText(v: Option<Value>, s: string) {
    v == if s == "" then None else Some(Text(s))
  }

  ghost predicate IsNumber(v: Option<Value>, n: Option<real>) {
    v == if n.Some? then Some(Number(n.value)) else None
  }

  ghost predicate IsDay(v: Option<Value>, d: Option<int>) {
    v == if d.Some? then Some(Day(d.value)) else None
  }

  ghost predicate ShortDigits(s: string, least: nat, most: nat) {
    least <= |s| <= most && forall i :: 0 <= i < |s| ==> '0' <= s[i] <= '9'
  }

  /** Each column holds what its own field says: texts, numbers, dates, and two codes if they are digits. */
  ghost predicate Holds(cols: map<Column, Value>, readers: Readers, meta: FileMeta, l: AccountLine) {
    HoldsTexts(cols, meta, l) && HoldsNumbers(cols, readers, l) && HoldsDays(cols, readers, l) && HoldsCodes(cols, l)
  }

  ghost predicate HoldsTexts(cols: map<Column, Value>, meta: FileMeta, l: AccountLine) {
    && IsText(At(cols, ProductName), TrimSpace(l.productName)) && IsText(At(cols, Indicator), TrimSpace(l.indicator))
    && IsText(At(cols, Cif), TrimSpace(l.cif)) && IsText(At(cols, CardPan), TrimSpace(l.cardPan))
    && IsText(At(cols, NameOnCard), TrimSpace(l.nameOnCard))
    && At(cols, SourceFile) == Some(Text(meta.name))
  }

  ghost predicate HoldsNumbers(cols: map<Column, Value>, readers: Readers, l: AccountLine) {
    && IsNumber(At(cols, CurrentDrBalance), readers.num(TrimSpace(l.currentDrBalance)))
    && IsNumber(At(cols, CycleBalance), readers.num(TrimSpace(l.cycleBalance)))
    && IsNumber(At(cols, InterestRate), readers.num(TrimSpace(l.interestRate)))
    && IsNumber(At(cols, CardWdAvailable), readers.num(TrimSpace(l.cardWdAvailable)))
    && IsNumber(At(cols, MinPaymentDue), readers.num(TrimSpace(l.minPaymentDue)))
    && IsNumber(At(cols, CardLimit), readers.num(TrimSpace(l.cardLimit)))
  }

  ghost predicate HoldsDays(cols: map<Column, Value>, readers: Readers, l: AccountLine) {
    && IsDay(At(cols, OpenedDate), readers.date(TrimSpace(l.openedDate)))
    && IsDay(At(cols, CardExpiryDate), readers.date(TrimSpace(l.cardExpiryDate)))
    && IsDay(At(cols, LastPaymentDate), readers.date(TrimSpace(l.lastPaymentDate)))
    && IsDay(At(cols, PaymentDueDate), readers.date(TrimSpace(l.paymentDueDate)))
    && IsDay(At(cols, CardIssueDate), readers.date(TrimSpace(l.cardIssueDate)))
  }

  ghost predicate HoldsCodes(cols: map<Column, Value>, l: AccountLine) {
    var currency, status := TrimSpace(l.currencyCode), TrimSpace(l.statusCode);
    && IsText(At(cols, CurrencyCode), if ShortDigits(currency, 3, 3) then currency else "")
    && IsText(At(cols, StatusCode), if ShortDigits(status, 1, 2) then status else "")
  }

  /** The two derived columns: the product's line, and the balance as a percentage of a limit that is not zero. */
  ghost predicate Derives(cols: map<Column, Value>, readers: Readers, l: AccountLine) {
    var product := TrimSpace(l.productName);
    var balance, limit := readers.num(TrimSpace(l.currentDrBalance)), readers.num(TrimSpace(l.cardLimit));
    && (Ascii(product) ==>
          At(cols, ProductLine) == Some(Text(if Mentions(product, "prep") then "prepaid"
                                             else if Mentions(product, "coop") || Mentions(product, "memcos") then "deposit"
                                             else "card")))
    && (balance.Some? && limit.Some? && limit.value != 0.0 ==>
          At(cols, CardUtilisation) == Some(Number(balance.value / limit.value * 100.0)))
    && (balance.None? || limit.None? || limit.value == 0.0 ==> At(cols, CardUtilisation) == None)
  }

  lemma ProductLineExact(product: string)
    requires Ascii(product)
    ensures ProductLineOf(product) ==
            if Mentions(product, "prep") then "prepaid"
            else if Mentions(product, "coop") || Mentions(product, "memcos") then "deposit"
            else "card"
  {
    hide Mentions, Contains, ToUpper;
    assert Capitals("prep") == "PREP" && Capitals("coop") == "COOP" && Capitals("memcos") == "MEMCOS";
    UpperMentionExact(product, "prep");
    UpperMentionExact(product, "coop");
    UpperMentionExact(product, "memcos");
  }

  lemma TakesAt(readers: Readers, meta: FileMeta, f: seq<string>, c: Column)
    requires |f| == FIELD_COUNT
    ensures At(ColumnsOf(readers, meta, f), c) == Takes(readers, meta, f, c)
  {
    hide Takes;
  }

  lemma Trims(l: AccountLine)
    ensures TrimAll(Fields(l)) ==
            [TrimSpace(l.accountNo), TrimSpace(l.productName), TrimSpace(l.currentDrBalance), TrimSpace(l.statusCode),
             TrimSpace(l.cycleBalance), TrimSpace(l.interestRate), TrimSpace(l.currencyCode), TrimSpace(l.openedDate),
             TrimSpace(l.cardWdAvailable), TrimSpace(l.minPaymentDue), TrimSpace(l.cardExpiryDate), TrimSpace(l.cardLimit),
             TrimSpace(l.lastPaymentDate), TrimSpace(l.unused), TrimSpace(l.indicator), TrimSpace(l.cif),
             TrimSpace(l.paymentDueDate), TrimSpace(l.cardPan), TrimSpace(l.nameOnCard), TrimSpace(l.cardIssueDate)]
  {
    hide TrimSpace;
  }

  lemma TextsHold(readers: Readers, meta: FileMeta, l: AccountLine)
    ensures HoldsTexts(ColumnsOf(readers, meta, TrimAll(Fields(l))), meta, l)
  {
    hide TrimSpace, ProductLineOf, Utilisation, ColumnsOf, TrimAll, Fields, StatusOf, CurrencyOf;
    Trims(l);
    var f := TrimAll(Fields(l));
    TakesAt(readers, meta, f, ProductName);
    TakesAt(readers, meta, f, Indicator);
    TakesAt(readers, meta, f, Cif);
    TakesAt(readers, meta, f, CardPan);
    TakesAt(readers, meta, f, NameOnCard);
    TakesAt(readers, meta, f, SourceFile);
  }

  lemma NumbersHold(readers: Readers, meta: FileMeta, l: AccountLine)
    ensures HoldsNumbers(ColumnsOf(readers, meta, TrimAll(Fields(l))), readers, l)
  {
    hide TrimSpace, ColumnsOf, TrimAll, Fields, At, Takes, IsNumber;
    NumberHolds(readers, meta, l, CurrentDrBalance, l.currentDrBalance);
    NumberHolds(readers, meta, l, CycleBalance, l.cycleBalance);
    NumberHolds(readers, meta, l, InterestRate, l.interestRate);
    NumberHolds(readers, meta, l, CardWdAvailable, l.cardWdAvailable);
    NumberHolds(readers, meta, l, MinPaymentDue, l.minPaymentDue);
    NumberHolds(readers, meta, l, CardLimit, l.cardLimit);
  }

  lemma NumberHolds(readers: Readers, meta: FileMeta, l: AccountLine, c: Column, field: string)
    requires match c
             case CurrentDrBalance => field == l.currentDrBalance
             case CycleBalance => field == l.cycleBalance
             case InterestRate => field == l.interestRate
             case CardWdAvailable => field == l.cardWdAvailable
             case MinPaymentDue => field == l.minPaymentDue
             case CardLimit => field == l.cardLimit
             case _ => false
    ensures IsNumber(At(ColumnsOf(readers, meta, TrimAll(Fields(l))), c), readers.num(TrimSpace(field)))
  {
    hide TrimSpace, ColumnsOf, TrimAll, Fields, At, AsText, AsDate, StatusOf, CurrencyOf, ProductLineOf, Utilisation;
    Trims(l);
    TakesAt(readers, meta, TrimAll(Fields(l)), c);
  }

  lemma DaysHold(readers: Readers, meta: FileMeta, l: AccountLine)
    ensures HoldsDays(ColumnsOf(readers, meta, TrimAll(Fields(l))), readers, l)
  {
    hide TrimSpace, ProductLineOf, Utilisation, ColumnsOf, TrimAll, Fields, StatusOf, CurrencyOf, At, AsText, AsNumber;
    Trims(l);
    var f := TrimAll(Fields(l));
    TakesAt(readers, meta, f, OpenedDate);
    TakesAt(readers, meta, f, CardExpiryDate);
    TakesAt(readers, meta, f, LastPaymentDate);
    TakesAt(readers, meta, f, PaymentDueDate);
    TakesAt(readers, meta, f, CardIssueDate);
  }

  lemma CodesHold(readers: Readers, meta: FileMeta, l: AccountLine)
    ensures HoldsCodes(ColumnsOf(readers, meta, TrimAll(Fields(l))), l)
  {
    hide TrimSpace, ProductLineOf, Utilisation, ColumnsOf, TrimAll, Fields;
    Trims(l);
    var f := TrimAll(Fields(l));
    TakesAt(readers, meta, f, CurrencyCode);
    TakesAt(readers, meta, f, StatusCode);
  }

  lemma FieldsDerive(readers: Readers, meta: FileMeta, l: AccountLine)
    ensures Derives(ColumnsOf(readers, meta, TrimAll(Fields(l))), readers, l)
  {
    hide TrimSpace, ProductLineOf, Mentions, Ascii, StatusOf, CurrencyOf, ColumnsOf, TrimAll, Fields;
    Trims(l);
    TakesAt(readers, meta, TrimAll(Fields(l)), ProductLine);
    TakesAt(readers, meta, TrimAll(Fields(l)), CardUtilisation);
    var product := TrimSpace(l.productName);
    if Ascii(product) {
      ProductLineExact(product);
    }
  }

  /**
   A line of twenty comma-free fields is accepted exactly when its first has at least six
   characters and the card name is no test name; then the row is keyed by the first, and
   every column holds what its own field says, or is derived from what its fields say.
   */
  lemma FollowsLayout(readers: Readers, meta: FileMeta, l: AccountLine)
    requires forall field :: field in Fields(l) ==> ',' !in field
    ensures var row := ParseRow(readers, meta, Join(Fields(l), ","));
            && (row.Some? <==> |TrimSpace(l.accountNo)| >= 6 && !readers.isTest(TrimSpace(l.nameOnCard)))
            && (row.Some? ==>
                  && row.value.key == TrimSpace(l.accountNo)
                  && Holds(row.value.columns, readers, meta, l) && Derives(row.value.columns, readers, l))
  {
    hide TrimSpace, Split, Join, Takes, HoldsTexts, HoldsNumbers, HoldsDays, HoldsCodes, Derives, ColumnsOf;
    SplitJoin(Fields(l), ',');
    SplitEachWhole(Fields(l), ',');
    TextsHold(readers, meta, l);
    NumbersHold(readers, meta, l);
    DaysHold(readers, meta, l);
    CodesHold(readers, meta, l);
    FieldsDerive(readers, meta, l);
  }

  /** And a line of any other number of fields is rejected. */
  lemma WidthExact(readers: Readers, meta: FileMeta, fields: seq<string>)
    requires fields != [] && |fields| != 20 && forall i :: 0 <= i < |fields| ==> ',' !in fields[i]
    ensures ParseRow(readers, meta, Join(fields, ",")) == None
  {
    hide Split, Join;
    SplitJoin(fields, ',');
    SplitEachWhole(fields, ',');
  }

  // ── the stream ─────────────────────────────────────────────────────────────

  function Accounts(readers: Readers, refuses: Row<Column> -> bool): MergeTable.Feed<Column> {
    MergeTable.Feed((meta: FileMeta, line: string) => ParseRow(readers, meta, line), line => true, refuses)
  }

  /** acctfeed.apply: one upsert per parsed line inside the file's transaction. */
  method Apply(t: Table<Column>, f: File, readers: Readers, refuses: Row<Column> -> bool)
    returns (tx: Option<Outcome<Table<Column>>>)
    requires f.content.Lines?
    ensures tx == ApplyRows(Accounts(readers, refuses))(t, f)
  {
    hide ParseRow, Merge, Collect, UpsertAll, Accepted, Count;
    var lines := f.content.lines;
    ghost var feed := Accounts(readers, refuses);
    ghost var parse := (line: string) => feed.parse(f.meta, line);
    var table := t;
    var inserted, updated, rejected := 0, 0, 0;
    NoItems(t, parse, feed);
    for i := 0 to |lines|
      invariant table == UpsertAll(t, Collect(lines[..i], parse))
      invariant Accepted(Collect(lines[..i], parse), feed)
      invariant inserted == |table| - |t| && inserted + updated == |Collect(lines[..i], parse)|
      invariant inserted + updated + rejected == i
    {
      ItemStep(t, lines, i, parse, feed);
      var row := ParseRow(readers, f.meta, lines[i]);
      if row.None? {
        rejected := rejected + 1;
        continue;
      }
      if refuses(row.value) {
        assert RowsOf(f, feed) == Collect(lines, parse);
        return None;
      }
      if row.value.key in table {
        updated := updated + 1;
      } else {
        inserted := inserted + 1;
      }
      table := Upsert(table, row.value);
    }
    assert lines[..|lines|] == lines;
    assert RowsOf(f, feed) == Collect(lines, parse);
    AllCount(lines, feed.counts);
    tx := Some(Outcome(table, |lines|, inserted, updated, rejected));
    assert tx == ApplyRows(feed)(t, f);
  }
}
