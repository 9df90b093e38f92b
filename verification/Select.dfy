/**
 The row path of a SELECT without ordering or aggregates: scan, filter by table and predicate, then
 skip, take and project the columns.
 */
module Select {
  import opened Wrappers
  import opened Collections
  import opened Predicate
  import opened Projection
  import opened ThreeValued
  import opened Readings

  // A row belongs to a table when its key is the table name or starts with it and a colon.
  predicate KeyMatches(table: Option<string>, key: string) {
    table.None? || key == table.value || table.value + ":" <= key
  }

  // The key is the table's name, or that and an id behind a colon.
  ghost predicate InTable(table: Option<string>, key: string) {
    table.None? || key == table.value || exists id :: key == table.value + ":" + id
  }

  lemma KeyMatchesExactly(table: Option<string>, key: string)
    ensures KeyMatches(table, key) <==> InTable(table, key)
  {
    if table.Some? && table.value + ":" <= key {
      assert key == table.value + ":" + key[|table.value| + 1..];
    }
  }

  predicate Selected(fl: Floats, table: Option<string>, condition: Option<Expr>, row: Row) {
    KeyMatches(table, row.key) && (condition.None? || Passes(fl, condition.value, row))
  }

  function Page<T>(s: seq<T>, offset: nat, limit: nat): seq<T> {
    var start := Min(offset, |s|);
    s[start..start + Min(limit, |s| - start)]
  }

  function Skip(offset: Option<nat>): nat {
    if offset.Some? then offset.value else 0
  }

  function EffectiveLimit(limit: Option<nat>, maxRows: nat): nat {
    match limit
    case Some(l) => Min(l, maxRows)
    case None => maxRows
  }

  // The rows of the scan the source keeps, in order.
  function Kept(fl: Floats, table: Option<string>, condition: Option<Expr>, rows: seq<Row>): seq<Row> {
    if rows == [] then []
    else
      var last := rows[|rows| - 1];
      Kept(fl, table, condition, rows[..|rows| - 1]) +
      if Selected(fl, table, condition, last) then [last] else []
  }

  // Just the rows of the table that pass, each once and in scan order.
  lemma {:induction false} KeptPicks(fl: Floats, table: Option<string>, condition: Option<Expr>, rows: seq<Row>)
    returns (at: seq<nat>)
    ensures PicksAt(Kept(fl, table, condition, rows), rows, at)
    ensures forall j: nat :: j in at <==>
              j < |rows| && InTable(table, rows[j].key) && (condition.Some? ==> Passes(fl, condition.value, rows[j]))
  {
    if rows == [] {
      at := [];
    } else {
      var last := rows[|rows| - 1];
      at := KeptPicks(fl, table, condition, rows[..|rows| - 1]);
      PicksOn(Kept(fl, table, condition, rows[..|rows| - 1]), rows, at);
      KeyMatchesExactly(table, last.key);
      if Selected(fl, table, condition, last) {
        at := at + [|rows| - 1];
      }
    }
  }

  // Each row with its key, and its columns projected.
  ghost predicate Projects(columns: seq<string>, rows: seq<Row>, out: seq<Row>) {
    |out| == |rows| &&
    forall i :: 0 <= i < |rows| ==> out[i].key == rows[i].key && IsProjection(columns, rows[i].data, out[i].data)
  }

  // Rows from the offset on, as many as the limit and the maximum allow, or all that are left.
  ghost predicate IsPage(kept: seq<Row>, offset: Option<nat>, limit: Option<nat>, maxRows: nat, page: seq<Row>) {
    var start := if offset.Some? then offset.value else 0;
    |page| <= maxRows && (limit.Some? ==> |page| <= limit.value) &&
    (forall i :: 0 <= i < |page| ==> start + i < |kept| && page[i] == kept[start + i]) &&
    (start + |page| < |kept| ==> |page| == maxRows || (limit.Some? && |page| == limit.value))
  }

  lemma PageIs(kept: seq<Row>, offset: Option<nat>, limit: Option<nat>, maxRows: nat)
    ensures IsPage(kept, offset, limit, maxRows, Page(kept, Skip(offset), EffectiveLimit(limit, maxRows)))
  {
  }

  method SelectRows(fl: Floats, rows: seq<Row>, columns: seq<string>, table: Option<string>, condition: Option<Expr>,
                    offset: Option<nat>, limit: Option<nat>, maxRows: nat)
    returns (out: seq<Row>)
    ensures exists page ::
              IsPage(Kept(fl, table, condition, rows), offset, limit, maxRows, page) && Projects(columns, page, out)
  {
    var matched: seq<Row> := [];
    for i := 0 to |rows|
      invariant matched == Kept(fl, table, condition, rows[..i])
    {
      assert rows[..i + 1][..i] == rows[..i];
      if Selected(fl, table, condition, rows[i]) {
        matched := matched + [rows[i]];
      }
    }
    assert rows[..|rows|] == rows;
    PageIs(matched, offset, limit, maxRows);
    out := ProjectRows(columns, Page(matched, Skip(offset), EffectiveLimit(limit, maxRows)));
  }

  method ProjectRows(columns: seq<string>, rows: seq<Row>) returns (out: seq<Row>)
    ensures Projects(columns, rows, out)
  {
    out := [];
    for i := 0 to |rows|
      invariant Projects(columns, rows[..i], out)
    {
      var data := ProjectColumns(columns, rows[i].data);
      out := out + [Row(rows[i].key, data)];
    }
    assert rows[..|rows|] == rows;
  }

  // ------------------------------------------------------------------------
  // What SQL selects
  // ------------------------------------------------------------------------

  // How SQL reads the values in a condition, row by row.
  type RowReadings = Row -> Reading

  ghost predicate SqlSelects(fl: Floats, table: Option<string>, condition: Option<Expr>, values: RowReadings,
                             row: Row) {
    InTable(table, row.key) && (condition.None? || MeaningUnder(fl, condition.value, values(row)) == True)
  }

  // The rows of the table whose condition is true in three-valued logic, in scan order.
  ghost function SqlRows(fl: Floats, table: Option<string>, condition: Option<Expr>, values: RowReadings,
                         rows: seq<Row>): seq<Row>
  {
    if rows == [] then []
    else
      var last := rows[|rows| - 1];
      SqlRows(fl, table, condition, values, rows[..|rows| - 1]) +
      if SqlSelects(fl, table, condition, values, last) then [last] else []
  }

  // On every row of the scan SQL's values are the evaluator's.
  ghost predicate SharesValues(fl: Floats, condition: Option<Expr>, values: RowReadings, rows: seq<Row>) {
    condition.Some? ==> forall row :: row in rows ==> ReadsAlike(fl, condition.value, values(row), row)
  }

  // For a condition without NOT and LIKE, and values it shares with SQL, the source keeps exactly
  // the rows SQL selects.
  lemma {:induction false} KeptIsSql(fl: Floats, table: Option<string>, condition: Option<Expr>, values: RowReadings,
                                     rows: seq<Row>)
    requires condition.Some? ==> Supported(condition.value) && Positive(condition.value)
    requires SharesValues(fl, condition, values, rows)
    ensures Kept(fl, table, condition, rows) == SqlRows(fl, table, condition, values, rows)
  {
    if rows != [] {
      KeptIsSql(fl, table, condition, values, rows[..|rows| - 1]);
      KeyMatchesExactly(table, rows[|rows| - 1].key);
      if condition.Some? {
        var last := rows[|rows| - 1];
        assert last in rows;
        ExactWithSql(fl, condition.value, values(last), last);
      }
    }
  }

  // For every supported condition, and values it shares with SQL, no row that SQL selects is lost or
  // moved: selecting again, by three-valued logic, from what the source kept gives what SQL selects
  // from the whole scan.
  lemma {:induction false} NoTrueRowIsLost(fl: Floats, table: Option<string>, condition: Option<Expr>,
                                           values: RowReadings, rows: seq<Row>)
    requires condition.Some? ==> Supported(condition.value)
    requires SharesValues(fl, condition, values, rows)
    ensures SqlRows(fl, table, condition, values, Kept(fl, table, condition, rows)) ==
            SqlRows(fl, table, condition, values, rows)
  {
    if rows != [] {
      var before, last := rows[..|rows| - 1], rows[|rows| - 1];
      NoTrueRowIsLost(fl, table, condition, values, before);
      assert last in rows;
      KeyMatchesExactly(table, last.key);
      if condition.Some? && MeaningUnder(fl, condition.value, values(last)) == True {
        SupportedSucceeds(fl, condition.value, last);
        AgreesWithSql(fl, condition.value, values(last), last);
      }
      var kept := Kept(fl, table, condition, before);
      assert (kept + [last])[..|kept|] == kept;
      assert Selected(fl, table, condition, last) || kept + [] == kept;
    }
  }

  // ------------------------------------------------------------------------
  // Paging
  // ------------------------------------------------------------------------

  // The pages fetched by raising the offset by the page size until the rows run out.
  ghost function AllPages<T>(s: seq<T>, offset: nat, size: nat): seq<T>
    requires size >= 1
    decreases |s| - offset
  {
    if offset >= |s| then [] else Page(s, offset, size) + AllPages(s, offset + size, size)
  }

  // Paging through a result visits every row once, in order.
  lemma {:induction false} PagesTile<T>(s: seq<T>, offset: nat, size: nat)
    requires size >= 1
    ensures AllPages(s, offset, size) == s[Min(offset, |s|)..]
    decreases |s| - offset
  {
    if offset < |s| {
      PagesTile(s, offset + size, size);
    }
  }
}
