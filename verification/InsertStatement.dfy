/**
 The parameterised multi-row insert the seeder sends for a table.

 The columns are the keys of the first row; later rows may list the same keys in another
 order. The statement is judged by what it means: which value each placeholder selects.
 */
module InsertStatement {
  import opened Prelude

  /** An object: its keys in order, and a value for each. */
  datatype Row<V> = Row(keys: seq<string>, values: map<string, V>)

  /** One tuple of placeholder numbers for each row, and the values they number from 1. */
  datatype Statement<V> = Statement(table: string, columns: seq<string>, tuples: seq<seq<nat>>, values: seq<V>)

  datatype Outcome<V> = Nothing | InconsistentColumns | UnsafeIdentifier | Insert(statement: Statement<V>)

  ghost predicate WellFormed<V>(row: Row<V>) {
    && (forall i, j :: 0 <= i < j < |row.keys| ==> row.keys[i] != row.keys[j])
    && (forall k :: k in row.keys <==> k in row.values)
  }

  predicate Letter(c: char) { 'A' <= c <= 'Z' || 'a' <= c <= 'z' || c == '_' }

  predicate Safe(name: string) {
    name != "" && Letter(name[0]) && forall i :: 0 <= i < |name| ==> Letter(name[i]) || '0' <= name[i] <= '9'
  }

  /** The same keys as the first row, in any order. */
  predicate SameColumns<V>(row: Row<V>, columns: seq<string>) {
    multiset(row.keys) == multiset(columns)
  }

  /** The row that tuple `r` inserts. */
  function Meaning<V>(s: Statement<V>, r: nat): map<string, V>
    requires r < |s.tuples| && |s.tuples[r]| == |s.columns|
    requires forall c :: 0 <= c < |s.columns| ==> 1 <= s.tuples[r][c] <= |s.values|
    requires forall i, j :: 0 <= i < j < |s.columns| ==> s.columns[i] != s.columns[j]
  {
    map k | k in s.columns :: s.values[s.tuples[r][ColumnOf(s.columns, k)] - 1]
  }

  function ColumnOf(columns: seq<string>, k: string): (c: nat)
    requires k in columns
    ensures c < |columns| && columns[c] == k
  {
    if columns[0] == k then 0 else 1 + ColumnOf(columns[1..], k)
  }

  /** Placeholder of row r, column c, among `width` columns. */
  function Placeholder(r: nat, c: nat, width: nat): nat {
    r * width + c + 1
  }

  ghost predicate Represents<V>(s: Statement<V>, rows: seq<Row<V>>, db: V -> V) {
    && |s.tuples| == |rows| && |s.values| == |rows| * |s.columns|
    && (forall r :: 0 <= r < |rows| ==> TupleOk(s, rows[r], r, db))
  }

  /** The tuple's numbers are in sequence, and each selects the row's own value. */
  ghost predicate TupleOk<V>(s: Statement<V>, row: Row<V>, r: nat, db: V -> V)
    requires r < |s.tuples|
  {
    && |s.tuples[r]| == |s.columns|
    && (forall c :: 0 <= c < |s.columns| ==>
          s.tuples[r][c] == Placeholder(r, c, |s.columns|) <= |s.values|
          && s.columns[c] in row.values && s.values[s.tuples[r][c] - 1] == db(row.values[s.columns[c]]))
  }

  lemma SameColumnsAreKeys<V>(row: Row<V>, columns: seq<string>)
    requires WellFormed(row) && SameColumns(row, columns)
    ensures forall k :: k in columns <==> k in row.values
  {
    forall k ensures k in columns <==> k in row.values {
      assert k in columns <==> k in multiset(columns);
      assert k in row.keys <==> k in multiset(row.keys);
    }
  }

  /** What a representing statement inserts is exactly the input rows, in order. */
  lemma InsertsTheRows<V>(s: Statement<V>, rows: seq<Row<V>>, db: V -> V, r: nat)
    requires Represents(s, rows, db) && r < |rows|
    requires forall i, j :: 0 <= i < j < |s.columns| ==> s.columns[i] != s.columns[j]
    requires WellFormed(rows[r]) && SameColumns(rows[r], s.columns)
    ensures TupleOk(s, rows[r], r, db)
    ensures Meaning(s, r) == map k | k in rows[r].values :: db(rows[r].values[k])
  {
    assert TupleOk(s, rows[r], r, db);
    SameColumnsAreKeys(rows[r], s.columns);
    forall k | k in s.columns ensures Meaning(s, r)[k] == db(rows[r].values[k]) {
      var c := ColumnOf(s.columns, k);
    }
  }

  /** Every value is selected by one placeholder of one tuple, and by no other. */
  lemma EveryValueIsUsedOnce<V>(s: Statement<V>, rows: seq<Row<V>>, db: V -> V, v: nat)
    requires Represents(s, rows, db) && v < |s.values| && s.columns != []
    ensures exists r: nat, c: nat :: Selects(s, r, c, v)
    ensures forall r: nat, c: nat, r': nat, c': nat ::
      Selects(s, r, c, v) && Selects(s, r', c', v) ==> r == r' && c == c'
  {
    var width := |s.columns|;
    RowOfValue(v, |rows|, width);
    var r, c := v / width, v % width;
    assert TupleOk(s, rows[r], r, db);
    assert Selects(s, r, c, v);
    forall r1: nat, c1: nat, r2: nat, c2: nat | Selects(s, r1, c1, v) && Selects(s, r2, c2, v)
      ensures r1 == r2 && c1 == c2
    {
      assert TupleOk(s, rows[r1], r1, db) && TupleOk(s, rows[r2], r2, db);
      QuotientGap(r1, c1, r2, width);
      QuotientGap(r2, c2, r1, width);
    }
  }

  lemma Wider(x: nat, y: nat, width: nat)
    ensures x <= y ==> x * width <= y * width
  {
  }

  lemma RowOfValue(v: nat, rows: nat, width: nat)
    requires width > 0 && v < rows * width
    ensures v / width < rows && v % width < width && v == (v / width) * width + v % width
  {
    var r := v / width;
    assert v == r * width + v % width;
    Wider(rows, r, width);
  }

  predicate Selects<V>(s: Statement<V>, r: nat, c: nat, v: nat) {
    r < |s.tuples| && c < |s.tuples[r]| && s.tuples[r][c] == v + 1
  }

  /** Builds the statement, pushing each row's values in the order of the first row's keys. */
  method InsertRows<V>(table: string, rows: seq<Row<V>>, db: V -> V) returns (outcome: Outcome<V>)
    requires forall r :: 0 <= r < |rows| ==> WellFormed(rows[r])
    ensures outcome.Nothing? <==> rows == []
    ensures outcome.InconsistentColumns? <==> exists r :: 0 <= r < |rows| && !SameColumns(rows[r], rows[0].keys)
    ensures outcome.Insert? ==>
      var s := outcome.statement;
      s.table == table && s.columns == rows[0].keys && Represents(s, rows, db)
    ensures outcome.Insert? ==> Safe(table) && forall c :: 0 <= c < |rows[0].keys| ==> Safe(rows[0].keys[c])
    ensures outcome.UnsafeIdentifier? ==>
      rows != [] && (!Safe(table) || exists c :: 0 <= c < |rows[0].keys| && !Safe(rows[0].keys[c]))
  {
    if rows == [] { return Nothing; }
    var columns := rows[0].keys;
    for r := 0 to |rows|
      invariant forall k :: 0 <= k < r ==> SameColumns(rows[k], columns)
    {
      if !SameColumns(rows[r], columns) { return InconsistentColumns; }
    }
    var statement := Number(table, columns, rows, db);
    if !Safe(table) { return UnsafeIdentifier; }
    for c := 0 to |columns|
      invariant forall k :: 0 <= k < c ==> Safe(columns[k])
    {
      if !Safe(columns[c]) { return UnsafeIdentifier; }
    }
    outcome := Insert(statement);
  }

  method Number<V>(table: string, columns: seq<string>, rows: seq<Row<V>>, db: V -> V) returns (s: Statement<V>)
    requires forall r :: 0 <= r < |rows| ==> WellFormed(rows[r]) && SameColumns(rows[r], columns)
    ensures s.table == table && s.columns == columns && Represents(s, rows, db)
  {
    var values: seq<V> := [];
    var tuples: seq<seq<nat>> := [];
    for r := 0 to |rows|
      invariant Represents(Statement(table, columns, tuples, values), rows[..r], db)
    {
      SameColumnsAreKeys(rows[r], columns);
      var placeholders, more := RowTuple(columns, rows[r], r, values, db);
      ghost var before := values;
      values := more;
      TupleAppended(Statement(table, columns, tuples, before), rows[..r], db, rows[r], placeholders, values);
      assert rows[..r + 1] == rows[..r] + [rows[r]];
      tuples := tuples + [placeholders];
    }
    assert rows[..|rows|] == rows;
    s := Statement(table, columns, tuples, values);
  }

  /** One row's placeholders, and the values with the row's own pushed behind them. */
  method RowTuple<V>(columns: seq<string>, row: Row<V>, r: nat, values: seq<V>, db: V -> V)
    returns (placeholders: seq<nat>, more: seq<V>)
    requires |values| == r * |columns| && forall c :: 0 <= c < |columns| ==> columns[c] in row.values
    ensures |more| == |values| + |columns| && values <= more && |placeholders| == |columns|
    ensures forall c :: 0 <= c < |columns| ==>
      placeholders[c] == Placeholder(r, c, |columns|) <= |more| && more[placeholders[c] - 1] == db(row.values[columns[c]])
  {
    more := values;
    placeholders := [];
    for c := 0 to |columns|
      invariant |more| == |values| + c && values <= more && |placeholders| == c
      invariant forall k :: 0 <= k < c ==>
        placeholders[k] == Placeholder(r, k, |columns|) <= |more| && more[placeholders[k] - 1] == db(row.values[columns[k]])
    {
      more := more + [db(row.values[columns[c]])];
      placeholders := placeholders + [|more|];
    }
  }

  lemma TupleAppended<V>(s: Statement<V>, rows: seq<Row<V>>, db: V -> V, row: Row<V>, tuple: seq<nat>, values: seq<V>)
    requires Represents(s, rows, db) && s.values <= values
    requires |values| == |rows| * |s.columns| + |s.columns|
    requires var s' := Statement(s.table, s.columns, s.tuples + [tuple], values); TupleOk(s', row, |rows|, db)
    ensures Represents(Statement(s.table, s.columns, s.tuples + [tuple], values), rows + [row], db)
  {
    var s' := Statement(s.table, s.columns, s.tuples + [tuple], values);
    forall r | 0 <= r < |rows + [row]| ensures TupleOk(s', (rows + [row])[r], r, db) {
      if r < |rows| { assert TupleOk(s, rows[r], r, db); }
    }
    assert |rows + [row]| * |s.columns| == |rows| * |s.columns| + |s.columns|;
  }
}
