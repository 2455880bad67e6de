/** Dates as the report writes them: why a window can be cut by comparing text. */
module LedgerDates {
  import opened Wrappers
  import opened Text
  import opened CallOver

  datatype Date = Date(year: nat, month: nat, day: nat)

  predicate Writable(d: Date) {
    d.year < 10_000 && d.month < 100 && d.day < 100
  }

  predicate Earlier(a: Date, b: Date) {
    || a.year < b.year
    || (a.year == b.year && (a.month < b.month || (a.month == b.month && a.day < b.day)))
  }

  /** The last k decimal digits of n. */
  function Padded(n: nat, k: nat): (r: string)
    ensures |r| == k
  {
    if k == 0 then "" else Padded(n / 10, k - 1) + [(n % 10 + '0' as int) as char]
  }

  /** YYYY-MM-DD */
  function Iso(d: Date): string {
    Padded(d.year, 4) + "-" + Padded(d.month, 2) + "-" + Padded(d.day, 2)
  }

  /** Texts of one length are told apart before what follows them. */
  lemma {:induction false} BelowConcat(a: string, b: string, x: string, y: string)
    requires |a| == |b|
    ensures Below(a + x, b + y) <==> Below(a, b) || (a == b && Below(x, y))
  {
    if a == "" {
      assert a + x == x && b + y == y;
    } else {
      assert (a + x)[1..] == a[1..] + x && (b + y)[1..] == b[1..] + y;
      BelowConcat(a[1..], b[1..], x, y);
      assert a == [a[0]] + a[1..] && b == [b[0]] + b[1..];
    }
  }

  function PowerOfTen(k: nat): nat {
    if k == 0 then 1 else 10 * PowerOfTen(k - 1)
  }

  /** Digits of one length order as their numbers do. */
  lemma {:induction false} PaddedOrder(m: nat, n: nat, k: nat)
    requires m < PowerOfTen(k) && n < PowerOfTen(k)
    ensures Below(Padded(m, k), Padded(n, k)) <==> m < n
    ensures Padded(m, k) == Padded(n, k) <==> m == n
  {
    if k > 0 {
      PaddedOrder(m / 10, n / 10, k - 1);
      var a, b := Padded(m / 10, k - 1), Padded(n / 10, k - 1);
      var x, y := [(m % 10 + '0' as int) as char], [(n % 10 + '0' as int) as char];
      BelowConcat(a, b, x, y);
      assert Below(x, y) <==> m % 10 < n % 10;
      assert Padded(m, k)[..k - 1] == a && Padded(n, k)[..k - 1] == b;
      assert Padded(m, k)[k - 1] == x[0] && Padded(n, k)[k - 1] == y[0];
    }
  }

  lemma Hyphened(a: string, b: string, x: string, y: string)
    requires |a| == |b|
    ensures Below(a + "-" + x, b + "-" + y) <==> Below(a, b) || (a == b && Below(x, y))
  {
    hide Below;
    assert a + "-" + x == a + ("-" + x) && b + "-" + y == b + ("-" + y);
    BelowConcat(a, b, "-" + x, "-" + y);
    BelowConcat("-", "-", x, y);
    BelowAsymmetric("-", "-");
  }

  /** Whatever follows the dates, text order is the calendar's. */
  lemma TextOrderIsCalendarOrder(a: Date, b: Date, x: string, y: string)
    requires Writable(a) && Writable(b)
    ensures Below(Iso(a) + x, Iso(b) + y) <==> Earlier(a, b) || (a == b && Below(x, y))
  {
    hide Below, Padded;
    PaddedBelow(a, b);
    var ta, tb := Padded(a.month, 2) + "-" + (Padded(a.day, 2) + x), Padded(b.month, 2) + "-" + (Padded(b.day, 2) + y);
    assert Iso(a) + x == Padded(a.year, 4) + "-" + ta;
    assert Iso(b) + y == Padded(b.year, 4) + "-" + tb;
    Hyphened(Padded(a.year, 4), Padded(b.year, 4), ta, tb);
    Hyphened(Padded(a.month, 2), Padded(b.month, 2), Padded(a.day, 2) + x, Padded(b.day, 2) + y);
    BelowConcat(Padded(a.day, 2), Padded(b.day, 2), x, y);
  }

  lemma PaddedBelow(a: Date, b: Date)
    requires Writable(a) && Writable(b)
    ensures Below(Padded(a.year, 4), Padded(b.year, 4)) <==> a.year < b.year
    ensures Below(Padded(a.month, 2), Padded(b.month, 2)) <==> a.month < b.month
    ensures Below(Padded(a.day, 2), Padded(b.day, 2)) <==> a.day < b.day
    ensures Padded(a.year, 4) == Padded(b.year, 4) <==> a.year == b.year
    ensures Padded(a.month, 2) == Padded(b.month, 2) <==> a.month == b.month
    ensures Padded(a.day, 2) == Padded(b.day, 2) <==> a.day == b.day
  {
    hide Below, Padded;
    assert PowerOfTen(2) == 100 && PowerOfTen(4) == 10_000;
    PaddedOrder(a.year, b.year, 4);
    PaddedOrder(a.month, b.month, 2);
    PaddedOrder(a.day, b.day, 2);
  }

  lemma NothingBelowBlank(x: string)
    ensures !Below(x, "")
  {
  }

  /** So the window of a cutoff day holds exactly the rows of that day and later ones. */
  lemma WindowIsByDate(rows: seq<Row>, m: Row, d: Date, time: string, cutoff: Date)
    requires Writable(d) && Writable(cutoff) && m.financialDate == Iso(d) + time
    ensures m in InWindow(rows, Iso(cutoff)) <==> m in rows && !Earlier(d, cutoff)
  {
    hide Below, Iso, Padded;
    TextOrderIsCalendarOrder(d, cutoff, time, "");
    NothingBelowBlank(time);
    assert Iso(cutoff) + "" == Iso(cutoff);
  }
}
