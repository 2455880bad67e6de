/**
 Tables written by INSERT … ON CONFLICT (key) DO NOTHING: the first row under a key
 stays, every later one is dropped. The three capture tables are instances.
 */
module InsertOnly {
  import opened Wrappers
  import opened Sequences

  function Insert<K, V>(table: map<K, V>, key: K, row: V): map<K, V> {
    if key in table then table else table[key := row]
  }

  /** The table after inserting the rows in order. */
  function InsertAll<K, V>(table: map<K, V>, rows: seq<V>, key: V -> K): map<K, V> {
    if rows == [] then table
    else
      var row := rows[|rows| - 1];
      Insert(InsertAll(table, rows[..|rows| - 1], key), key(row), row)
  }

  /** The rows that are actually inserted, in order. */
  function Fresh<K, V>(table: map<K, V>, rows: seq<V>, key: V -> K): seq<V> {
    if rows == [] then []
    else
      var before, row := rows[..|rows| - 1], rows[|rows| - 1];
      Fresh(table, before, key) + if key(row) in InsertAll(table, before, key) then [] else [row]
  }

  ghost function KeysOf<K, V>(rows: seq<V>, key: V -> K): set<K> {
    set row | row in rows :: key(row)
  }

  lemma InsertNone<K, V>(table: map<K, V>, key: V -> K)
    ensures InsertAll(table, [], key) == table
  {
  }

  lemma InsertNext<K, V>(table: map<K, V>, rows: seq<V>, i: nat, key: V -> K)
    requires i < |rows|
    ensures InsertAll(table, rows[..i + 1], key) == Insert(InsertAll(table, rows[..i], key), key(rows[i]), rows[i])
    ensures Fresh(table, rows[..i + 1], key) ==
            Fresh(table, rows[..i], key) + if key(rows[i]) in InsertAll(table, rows[..i], key) then [] else [rows[i]]
  {
    assert rows[..i + 1][..i] == rows[..i];
  }

  /** Inserting rows after rows is inserting them all. */
  lemma {:induction false} InsertConcat<K, V>(table: map<K, V>, a: seq<V>, b: seq<V>, key: V -> K)
    ensures InsertAll(table, a + b, key) == InsertAll(InsertAll(table, a, key), b, key)
  {
    if b == [] {
      assert a + b == a;
    } else {
      assert (a + b)[..|a + b| - 1] == a + b[..|b| - 1];
      InsertConcat(table, a, b[..|b| - 1], key);
    }
  }

  /** No held row ever changes, and the keys are the union. */
  lemma {:induction false} InsertAllHolds<K, V>(table: map<K, V>, rows: seq<V>, key: V -> K)
    ensures var after := InsertAll(table, rows, key);
            && table.Keys <= after.Keys
            && (forall k :: k in table ==> after[k] == table[k])
            && after.Keys == table.Keys + KeysOf(rows, key)
            && (forall k :: k in after && k !in table ==> after[k] in rows && key(after[k]) == k)
  {
    if rows != [] {
      InsertAllHolds(table, rows[..|rows| - 1], key);
      assert rows == rows[..|rows| - 1] + [rows[|rows| - 1]];
    }
  }

  lemma {:induction false} FreshCount<K, V>(table: map<K, V>, rows: seq<V>, key: V -> K)
    ensures |InsertAll(table, rows, key)| == |table| + |Fresh(table, rows, key)|
    ensures |Fresh(table, rows, key)| <= |rows|
  {
    if rows != [] {
      FreshCount(table, rows[..|rows| - 1], key);
    }
  }

  /** Offering rows whose keys are all held changes nothing. */
  lemma {:induction false} CoveredInsertsNothing<K, V>(table: map<K, V>, rows: seq<V>, key: V -> K)
    requires KeysOf(rows, key) <= table.Keys
    ensures InsertAll(table, rows, key) == table && Fresh(table, rows, key) == []
  {
    if rows != [] {
      var before := rows[..|rows| - 1];
      assert rows == before + [rows[|rows| - 1]];
      assert key(rows[|rows| - 1]) in KeysOf(rows, key);
      assert KeysOf(before, key) <= KeysOf(rows, key);
      CoveredInsertsNothing(table, before, key);
    }
  }

  /** There are at least as many rows as keys. */
  lemma {:induction false} KeysBounded<K, V>(rows: seq<V>, key: V -> K)
    ensures |KeysOf(rows, key)| <= |rows|
  {
    if rows == [] {
      assert KeysOf(rows, key) == {};
    } else {
      var before, last := rows[..|rows| - 1], rows[|rows| - 1];
      assert rows == before + [last];
      KeysBounded(before, key);
      assert KeysOf(rows, key) == KeysOf(before, key) + {key(last)};
    }
  }

  function SumSeq<V>(rows: seq<V>, weight: V -> int): int {
    if rows == [] then 0 else SumSeq(rows[..|rows| - 1], weight) + weight(rows[|rows| - 1])
  }

  lemma {:induction false} SumConcat<V>(a: seq<V>, b: seq<V>, weight: V -> int)
    ensures SumSeq(a + b, weight) == SumSeq(a, weight) + SumSeq(b, weight)
  {
    if b == [] {
      assert a + b == a;
    } else {
      assert (a + b)[..|a + b| - 1] == a + b[..|b| - 1];
      SumConcat(a, b[..|b| - 1], weight);
    }
  }

  lemma SumOne<V>(v: V, weight: V -> int)
    ensures SumSeq([v], weight) == weight(v)
  {
    assert [v][..0] == [];
  }

  /** A sum does not depend on the order. */
  lemma {:induction false} SumPermuted<V>(a: seq<V>, b: seq<V>, weight: V -> int)
    requires multiset(a) == multiset(b)
    ensures SumSeq(a, weight) == SumSeq(b, weight)
  {
    if a == [] {
      assert |multiset(b)| == 0;
      assert b == [];
    } else {
      var v := a[|a| - 1];
      assert v in multiset(b);
      var i :| 0 <= i < |b| && b[i] == v;
      var rest := b[..i] + b[i + 1..];
      assert a == a[..|a| - 1] + [v];
      assert b == b[..i] + [v] + b[i + 1..];
      assert multiset(rest) == multiset(b) - multiset{v};
      SumPermuted(a[..|a| - 1], rest, weight);
      hide SumSeq;
      SumConcat(a[..|a| - 1], [v], weight);
      SumConcat(b[..i] + [v], b[i + 1..], weight);
      SumConcat(b[..i], [v], weight);
      SumConcat(b[..i], b[i + 1..], weight);
    }
  }

  /** Weighing the results of a filtering map is weighing the rows by what they give. */
  lemma {:induction false} CollectSums<A, B>(rows: seq<A>, f: A -> Option<B>, weight: B -> int, byRow: A -> int)
    requires forall a :: a in rows ==> byRow(a) == if f(a).Some? then weight(f(a).value) else 0
    ensures SumSeq(Collect(rows, f), weight) == SumSeq(rows, byRow)
  {
    if rows != [] {
      var before, last := rows[..|rows| - 1], rows[|rows| - 1];
      assert last in rows;
      CollectSums(before, f, weight, byRow);
      if f(last).Some? {
        SumConcat(Collect(before, f), [f(last).value], weight);
        SumOne(f(last).value, weight);
      } else {
        assert Collect(rows, f) == Collect(before, f);
      }
    }
  }

  /** The total weight held by a table. */
  ghost function Total<K, V>(table: map<K, V>, weight: V -> int): int {
    if table == map[] then 0
    else
      var k :| k in table;
      weight(table[k]) + Total(table - {k}, weight)
  }

  lemma {:induction false} TotalRemove<K, V>(table: map<K, V>, k: K, weight: V -> int)
    requires k in table
    ensures Total(table, weight) == weight(table[k]) + Total(table - {k}, weight)
    decreases |table|
  {
    var p :| p in table && Total(table, weight) == weight(table[p]) + Total(table - {p}, weight);
    if p != k {
      TotalRemove(table - {p}, k, weight);
      TotalRemove(table - {k}, p, weight);
      assert table - {p} - {k} == table - {k} - {p};
    }
  }

  lemma TotalInsert<K, V>(table: map<K, V>, k: K, row: V, weight: V -> int)
    requires k !in table
    ensures Total(table[k := row], weight) == Total(table, weight) + weight(row)
  {
    TotalRemove(table[k := row], k, weight);
    assert table[k := row] - {k} == table;
  }

  /** Conservation: what the table gains is the weight of exactly the fresh rows. */
  lemma {:induction false} TotalConserved<K, V>(table: map<K, V>, rows: seq<V>, key: V -> K, weight: V -> int)
    ensures Total(InsertAll(table, rows, key), weight) ==
            Total(table, weight) + SumSeq(Fresh(table, rows, key), weight)
  {
    if rows != [] {
      var before, row := rows[..|rows| - 1], rows[|rows| - 1];
      TotalConserved(table, before, key, weight);
      var gained := Fresh(table, rows, key);
      if key(row) in InsertAll(table, before, key) {
        assert gained == Fresh(table, before, key);
      } else {
        TotalInsert(InsertAll(table, before, key), key(row), row, weight);
        assert gained == Fresh(table, before, key) + [row];
        assert gained[..|gained| - 1] == Fresh(table, before, key);
      }
    }
  }
}
