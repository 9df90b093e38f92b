/**
 The bridge between rows and columns: rows become one null-padded batch of string columns, and
 batches become rows again.
 */
module Columnar {
  import opened Wrappers
  import opened Collections
  import opened Text
  import opened Predicate

  const KEY_COL := "__vng_key"

  type Cell = Option<string>

  datatype Batch = Batch(schema: seq<string>, columns: seq<seq<Cell>>, numRows: nat)

  ghost predicate Valid(batch: Batch) {
    |batch.columns| == |batch.schema| &&
    forall c :: 0 <= c < |batch.columns| ==> |batch.columns[c]| == batch.numRows
  }

  // ------------------------------------------------------------------------
  // Rows to a batch
  // ------------------------------------------------------------------------

  ghost function ColumnNames(rows: seq<Row>): set<string> {
    set row, c | row in rows && c in row.data :: c
  }

  ghost predicate IsColumn(column: seq<Cell>, rows: seq<Row>, name: string) {
    |column| == |rows| && forall i :: 0 <= i < |rows| ==> column[i] == Lookup(rows[i].data, name)
  }

  // The batch holds the keys first, then a column for each name in use, in ascending order.
  ghost predicate Represents(batch: Batch, rows: seq<Row>) {
    var names := Sorted(ColumnNames(rows));
    batch.numRows == |rows| && batch.schema == [KEY_COL] + names && |batch.columns| == 1 + |names| &&
    |batch.columns[0]| == |rows| &&
    (forall i :: 0 <= i < |rows| ==> batch.columns[0][i] == Some(rows[i].key)) &&
    forall j :: 0 <= j < |names| ==> IsColumn(batch.columns[1 + j], rows, names[j])
  }

  method CollectNames(rows: seq<Row>) returns (names: seq<string>)
    ensures names == Sorted(ColumnNames(rows))
  {
    var seen: set<string> := {};
    for i := 0 to |rows|
      invariant seen == ColumnNames(rows[..i])
    {
      assert rows[..i + 1] == rows[..i] + [rows[i]];
      seen := seen + rows[i].data.Keys;
    }
    assert rows[..|rows|] == rows;
    names := CollectSorted(seen);
  }

  method KeyColumn(rows: seq<Row>) returns (column: seq<Cell>)
    ensures |column| == |rows| && forall i :: 0 <= i < |rows| ==> column[i] == Some(rows[i].key)
  {
    column := [];
    for i := 0 to |rows|
      invariant |column| == i && forall k :: 0 <= k < i ==> column[k] == Some(rows[k].key)
    {
      column := column + [Some(rows[i].key)];
    }
  }

  method DataColumn(rows: seq<Row>, name: string) returns (column: seq<Cell>)
    ensures IsColumn(column, rows, name)
  {
    column := [];
    for i := 0 to |rows|
      invariant |column| == i && forall k :: 0 <= k < i ==> column[k] == Lookup(rows[k].data, name)
    {
      column := column + [Lookup(rows[i].data, name)];
    }
  }

  method RowsToBatch(rows: seq<Row>) returns (batch: Batch)
    ensures Represents(batch, rows)
    ensures batch.schema[0] == "__vng_key"
  {
    var names := CollectNames(rows);
    var keys := KeyColumn(rows);
    var columns := [keys];
    for j := 0 to |names|
      invariant |columns| == 1 + j && columns[0] == keys
      invariant forall k :: 0 <= k < j ==> IsColumn(columns[1 + k], rows, names[k])
    {
      var column := DataColumn(rows, names[j]);
      columns := columns + [column];
    }
    batch := Batch([KEY_COL] + names, columns, |rows|);
  }

  // ------------------------------------------------------------------------
  // Batches to rows
  // ------------------------------------------------------------------------

  // The position of the key column, or the length.
  function Position(schema: seq<string>): (k: nat)
    ensures k <= |schema|
    ensures k < |schema| ==> schema[k] == KEY_COL
  {
    if schema == [] then 0 else if schema[0] == KEY_COL then 0 else 1 + Position(schema[1..])
  }

  function SyntheticKey(n: nat): string {
    "row_" + Decimal(n)
  }

  // The cells of row i in the first c columns other than the key column, nulls left out.
  ghost function DataAt(schema: seq<string>, key: nat, batch: Batch, i: nat, c: nat): map<string, string>
    requires Valid(batch) && |batch.columns| == |schema| && i < batch.numRows && c <= |schema|
  {
    if c == 0 then map[]
    else
      var data := DataAt(schema, key, batch, i, c - 1);
      if c - 1 != key && batch.columns[c - 1][i].Some? then data[schema[c - 1] := batch.columns[c - 1][i].value]
      else data
  }

  ghost function KeyAt(key: nat, batch: Batch, i: nat, n: nat): string
    requires Valid(batch) && i < batch.numRows
  {
    if key < |batch.columns| && batch.columns[key][i].Some? then batch.columns[key][i].value else SyntheticKey(n)
  }

  // Row i of a batch, as the n-th row of the output.
  ghost function RowAt(schema: seq<string>, batch: Batch, i: nat, n: nat): Row
    requires Valid(batch) && |batch.columns| == |schema| && i < batch.numRows
  {
    Row(KeyAt(Position(schema), batch, i, n), DataAt(schema, Position(schema), batch, i, |schema|))
  }

  ghost predicate Compatible(schema: seq<string>, batches: seq<Batch>) {
    forall b :: 0 <= b < |batches| ==> Valid(batches[b]) && batches[b].schema == schema
  }

  ghost function BatchRows(schema: seq<string>, batch: Batch, i: nat, n: nat): (r: seq<Row>)
    requires Valid(batch) && batch.schema == schema && i <= batch.numRows
    ensures |r| == i
  {
    seq(i, k requires 0 <= k < i => RowAt(schema, batch, k, n + k))
  }

  ghost function AllRows(schema: seq<string>, batches: seq<Batch>): seq<Row>
    requires Compatible(schema, batches)
  {
    if batches == [] then []
    else
      var before := AllRows(schema, batches[..|batches| - 1]);
      var last := batches[|batches| - 1];
      before + BatchRows(schema, last, last.numRows, |before|)
  }

  lemma {:induction false} AllRowsPrefix(schema: seq<string>, batches: seq<Batch>, b: nat)
    requires Compatible(schema, batches) && b <= |batches|
    ensures AllRows(schema, batches[..b]) <= AllRows(schema, batches)
    decreases |batches| - b
  {
    if b == |batches| {
      assert batches[..b] == batches;
    } else {
      AllRowsPrefix(schema, batches, b + 1);
      assert batches[..b + 1][..b] == batches[..b];
    }
  }

  method ReadData(schema: seq<string>, key: nat, batch: Batch, i: nat) returns (data: map<string, string>)
    requires Valid(batch) && |batch.columns| == |schema| && i < batch.numRows
    ensures data == DataAt(schema, key, batch, i, |schema|)
  {
    data := map[];
    for c := 0 to |schema|
      invariant data == DataAt(schema, key, batch, i, c)
    {
      if c != key {
        var cell := batch.columns[c][i];
        if cell.Some? {
          data := data[schema[c] := cell.value];
        }
      }
    }
  }

  // The output after i rows of a batch, on top of all rows before it.
  ghost function Shown(schema: seq<string>, batch: Batch, i: nat, all: seq<Row>, maxRows: nat): seq<Row>
    requires Valid(batch) && batch.schema == schema && i <= batch.numRows
  {
    Take(all + BatchRows(schema, batch, i, |all|), maxRows)
  }

  lemma ShownGrows(schema: seq<string>, batch: Batch, i: nat, all: seq<Row>, maxRows: nat)
    requires Valid(batch) && batch.schema == schema && i < batch.numRows
    requires |Shown(schema, batch, i, all, maxRows)| < maxRows
    ensures |Shown(schema, batch, i, all, maxRows)| == |all| + i
    ensures Shown(schema, batch, i + 1, all, maxRows) ==
            Shown(schema, batch, i, all, maxRows) + [RowAt(schema, batch, i, |all| + i)]
  {
  }

  lemma ShownIsFull(schema: seq<string>, batch: Batch, i: nat, all: seq<Row>, maxRows: nat)
    requires Valid(batch) && batch.schema == schema && i <= batch.numRows
    requires |Shown(schema, batch, i, all, maxRows)| >= maxRows
    ensures Shown(schema, batch, batch.numRows, all, maxRows) == Shown(schema, batch, i, all, maxRows)
  {
  }

  method ReadRow(schema: seq<string>, key: nat, batch: Batch, i: nat, n: nat) returns (row: Row)
    requires Valid(batch) && batch.schema == schema && i < batch.numRows && key == Position(schema)
    ensures row == RowAt(schema, batch, i, n)
  {
    var k := if key < |schema| && batch.columns[key][i].Some? then batch.columns[key][i].value else SyntheticKey(n);
    var data := ReadData(schema, key, batch, i);
    row := Row(k, data);
  }

  // Adds the rows of one batch until the limit is reached.
  method ReadBatch(schema: seq<string>, batch: Batch, maxRows: nat, rows: seq<Row>, ghost all: seq<Row>)
    returns (out: seq<Row>)
    requires Valid(batch) && batch.schema == schema && rows == Take(all, maxRows)
    ensures out == Take(all + BatchRows(schema, batch, batch.numRows, |all|), maxRows)
  {
    out := rows;
    var key := Position(schema);
    assert all + BatchRows(schema, batch, 0, |all|) == all;
    for i := 0 to batch.numRows
      invariant out == Shown(schema, batch, i, all, maxRows)
    {
      if |out| >= maxRows {
        ShownIsFull(schema, batch, i, all, maxRows);
        return;
      }
      ShownGrows(schema, batch, i, all, maxRows);
      var row := ReadRow(schema, key, batch, i, |out|);
      out := out + [row];
    }
  }

  // The first maxRows rows of all the batches.
  method BatchesToOutput(batches: seq<Batch>, maxRows: nat) returns (out: seq<Row>)
    requires batches != [] ==> Compatible(batches[0].schema, batches)
    ensures batches == [] ==> out == []
    ensures batches != [] ==> out == Take(AllRows(batches[0].schema, batches), maxRows)
  {
    out := [];
    if batches == [] {
      return;
    }
    var schema := batches[0].schema;
    for b := 0 to |batches|
      invariant out == Take(AllRows(schema, batches[..b]), maxRows)
    {
      if |out| >= maxRows {
        AllRowsPrefix(schema, batches, b);
        return;
      }
      assert batches[..b + 1][..b] == batches[..b];
      out := ReadBatch(schema, batches[b], maxRows, out, AllRows(schema, batches[..b]));
    }
    assert batches[..|batches|] == batches;
  }

  // ------------------------------------------------------------------------
  // The round trip
  // ------------------------------------------------------------------------

  ghost function Slice(whole: Batch, lo: nat, hi: nat): Batch
    requires Valid(whole) && lo <= hi <= whole.numRows
  {
    Batch(whole.schema,
          seq(|whole.columns|, c requires 0 <= c < |whole.columns| => whole.columns[c][lo..hi]),
          hi - lo)
  }

  // The batches are consecutive slices of the whole.
  ghost predicate Splits(batches: seq<Batch>, whole: Batch)
    requires Valid(whole)
  {
    if batches == [] then whole.numRows == 0
    else
      var last := batches[|batches| - 1];
      last.numRows <= whole.numRows &&
      last == Slice(whole, whole.numRows - last.numRows, whole.numRows) &&
      Splits(batches[..|batches| - 1], Slice(whole, 0, whole.numRows - last.numRows))
  }

  lemma {:induction false} DataOfSlice(whole: Batch, key: nat, lo: nat, hi: nat, i: nat, c: nat)
    requires Valid(whole) && lo <= hi <= whole.numRows && i < hi - lo && c <= |whole.schema|
    ensures DataAt(whole.schema, key, Slice(whole, lo, hi), i, c) == DataAt(whole.schema, key, whole, lo + i, c)
  {
    if c > 0 {
      DataOfSlice(whole, key, lo, hi, i, c - 1);
    }
  }

  lemma RowOfSlice(whole: Batch, lo: nat, hi: nat, i: nat, n: nat)
    requires Valid(whole) && lo <= hi <= whole.numRows && i < hi - lo
    ensures RowAt(whole.schema, Slice(whole, lo, hi), i, n) == RowAt(whole.schema, whole, lo + i, n)
  {
    DataOfSlice(whole, Position(whole.schema), lo, hi, i, |whole.schema|);
  }

  lemma {:induction false} SplitsCompatible(batches: seq<Batch>, whole: Batch)
    requires Valid(whole) && Splits(batches, whole)
    ensures Compatible(whole.schema, batches)
  {
    if batches != [] {
      var last := batches[|batches| - 1];
      SplitsCompatible(batches[..|batches| - 1], Slice(whole, 0, whole.numRows - last.numRows));
      forall b | 0 <= b < |batches|
        ensures Valid(batches[b]) && batches[b].schema == whole.schema
      {
        assert b < |batches| - 1 ==> batches[b] == batches[..|batches| - 1][b];
      }
    }
  }

  // However a batch is cut up, its rows come out the same.
  lemma {:induction false} SplitsKeepRows(batches: seq<Batch>, whole: Batch)
    requires Valid(whole) && Splits(batches, whole)
    ensures Compatible(whole.schema, batches)
    ensures AllRows(whole.schema, batches) == BatchRows(whole.schema, whole, whole.numRows, 0)
  {
    SplitsCompatible(batches, whole);
    if batches != [] {
      var last := batches[|batches| - 1];
      var k := whole.numRows - last.numRows;
      SplitsKeepRows(batches[..|batches| - 1], Slice(whole, 0, k));
      forall i | 0 <= i < whole.numRows
        ensures AllRows(whole.schema, batches)[i] == RowAt(whole.schema, whole, i, i)
      {
        if i < k {
          RowOfSlice(whole, 0, k, i, i);
        } else {
          RowOfSlice(whole, k, whole.numRows, i - k, i);
        }
      }
    }
  }

  lemma RepresentsValid(batch: Batch, rows: seq<Row>)
    requires Represents(batch, rows)
    ensures Valid(batch)
  {
    var names := Sorted(ColumnNames(rows));
    forall c | 0 <= c < |batch.columns|
      ensures |batch.columns[c]| == batch.numRows
    {
      if c > 0 {
        assert IsColumn(batch.columns[1 + (c - 1)], rows, names[c - 1]);
      }
    }
  }

  // The entries of a row under some of the names.
  ghost function Under(data: map<string, string>, names: seq<string>): map<string, string> {
    map name | name in data && name in names :: data[name]
  }

  lemma UnderOneMore(data: map<string, string>, names: seq<string>, name: string)
    ensures Under(data, names + [name]) ==
            if name in data then Under(data, names)[name := data[name]] else Under(data, names)
  {
  }

  // After the key and j data columns, the row holds its entries under the first j names.
  lemma {:induction false} DataSoFar(batch: Batch, rows: seq<Row>, i: nat, j: nat)
    requires Represents(batch, rows) && Valid(batch) && i < |rows| && j < |batch.schema|
    ensures DataAt(batch.schema, 0, batch, i, 1 + j) == Under(rows[i].data, Sorted(ColumnNames(rows))[..j])
  {
    if j > 0 {
      var names := Sorted(ColumnNames(rows));
      DataSoFar(batch, rows, i, j - 1);
      assert IsColumn(batch.columns[1 + (j - 1)], rows, names[j - 1]);
      assert names[..j] == names[..j - 1] + [names[j - 1]];
      UnderOneMore(rows[i].data, names[..j - 1], names[j - 1]);
    } else {
      assert DataAt(batch.schema, 0, batch, i, 0) == map[];
    }
  }

  lemma NameIsCollected(rows: seq<Row>, i: nat, name: string)
    requires i < |rows| && name in rows[i].data
    ensures name in Sorted(ColumnNames(rows))
  {
    assert rows[i] in rows;
    assert name in Elements(Sorted(ColumnNames(rows)));
  }

  lemma DataReadBack(batch: Batch, rows: seq<Row>, i: nat)
    requires Represents(batch, rows) && Valid(batch) && i < |rows|
    ensures DataAt(batch.schema, 0, batch, i, |batch.schema|) == rows[i].data
  {
    var names := Sorted(ColumnNames(rows));
    var data := DataAt(batch.schema, 0, batch, i, 1 + |names|);
    DataSoFar(batch, rows, i, |names|);
    assert names[..|names|] == names;
    forall name | name in rows[i].data
      ensures name in data
    {
      NameIsCollected(rows, i, name);
    }
  }

  lemma RowReadBack(batch: Batch, rows: seq<Row>, i: nat)
    requires Represents(batch, rows) && Valid(batch) && i < |rows|
    ensures RowAt(batch.schema, batch, i, i) == rows[i]
  {
    DataReadBack(batch, rows, i);
    assert batch.schema[0] == KEY_COL;
  }

  // Rows, to a batch, to any split of it, and back: the first maxRows rows, unchanged. No column
  // name is special, not even the name of the key column.
  lemma RoundTrip(rows: seq<Row>, whole: Batch, batches: seq<Batch>, maxRows: nat)
    requires Represents(whole, rows) && Valid(whole) && Splits(batches, whole)
    ensures Compatible(whole.schema, batches)
    ensures Take(AllRows(whole.schema, batches), maxRows) == Take(rows, maxRows)
  {
    SplitsKeepRows(batches, whole);
    forall i | 0 <= i < |rows|
      ensures BatchRows(whole.schema, whole, |rows|, 0)[i] == rows[i]
    {
      RowReadBack(whole, rows, i);
    }
    assert BatchRows(whole.schema, whole, |rows|, 0) == rows;
  }

  // The whole way, as the two conversions run: convert, let the batch be cut up, convert back.
  method Convert(rows: seq<Row>, maxRows: nat, cut: Batch -> seq<Batch>) returns (out: seq<Row>)
    requires forall whole :: Valid(whole) ==> Splits(cut(whole), whole)
    ensures out == Take(rows, maxRows)
  {
    var whole := RowsToBatch(rows);
    RepresentsValid(whole, rows);
    var batches := cut(whole);
    RoundTrip(rows, whole, batches, maxRows);
    SplitsCompatible(batches, whole);
    out := BatchesToOutput(batches, maxRows);
  }

  // Without a key column the keys are made up, and no two are alike.
  lemma SyntheticKeysDistinct(schema: seq<string>, batches: seq<Batch>, m: nat, n: nat)
    requires Compatible(schema, batches) && KEY_COL !in schema
    requires m < n < |AllRows(schema, batches)|
    ensures AllRows(schema, batches)[n].key == "row_" + Decimal(n)
    ensures AllRows(schema, batches)[m].key != AllRows(schema, batches)[n].key
  {
    MadeUpKey(schema, batches, m);
    MadeUpKey(schema, batches, n);
    if SyntheticKey(m) == SyntheticKey(n) {
      assert SyntheticKey(m)[4..] == Decimal(m) && SyntheticKey(n)[4..] == Decimal(n);
      DecimalInjective(m, n);
    }
  }

  lemma {:induction false} MadeUpKey(schema: seq<string>, batches: seq<Batch>, n: nat)
    requires Compatible(schema, batches) && KEY_COL !in schema && n < |AllRows(schema, batches)|
    ensures AllRows(schema, batches)[n].key == SyntheticKey(n)
  {
    var before := batches[..|batches| - 1];
    if n < |AllRows(schema, before)| {
      MadeUpKey(schema, before, n);
    } else {
      var last := batches[|batches| - 1];
      assert AllRows(schema, batches)[n] == RowAt(schema, last, n - |AllRows(schema, before)|, n);
    }
  }
}
