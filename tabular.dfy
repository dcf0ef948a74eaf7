/**
 * The analytics service answers in a column-major table format:
 *   {"tables": [{"fields": [{"name": ...}, ...], "columns": [[...], ...]}]}
 * with column j holding the values of field j. This module transposes it
 * back into one dictionary per row, in two versions: the service client's
 * comprehension (ParseTabularResponse) and the older consolidated server's
 * nested loops (ParseAxiomResponse).
 */
module Tabular {
  import opened Wrappers
  import opened Json

  /**
   * The "fields" key of a table. A missing key reads as an empty list, but a
   * key that is present and null cannot be iterated, so the two differ.
   */
  datatype FieldsKey = FieldsMissing | FieldsNull | FieldsGiven(names: seq<string>)

  /** One table; None stands for a missing (or null) "columns" key. */
  datatype Table = Table(fields: FieldsKey, columns: Option<seq<seq<Value>>>)

  /** The decoded reply; None stands for a missing (or null) "tables" key. */
  datatype TabularResponse = TabularResponse(tables: Option<seq<Table>>)

  /** The table that is read: the first one, if there is any. */
  function FirstTable(data: TabularResponse): Option<Table> {
    var tables := data.tables.GetOr([]);
    if tables == [] then None else Some(tables[0])
  }

  /** The field names; only meaningful when "fields" is not null. */
  function FieldsOf(t: Table): seq<string> {
    if t.fields.FieldsGiven? then t.fields.names else []
  }

  function ColumnsOf(t: Table): seq<seq<Value>> { t.columns.GetOr([]) }

  // ---------------------------------------------------------------------
  // Building one row dictionary
  // ---------------------------------------------------------------------

  /**
   * The dictionary that pairs fields[j] with vals[j], filled in index order,
   * so that a later duplicate field name overwrites an earlier one.
   */
  function ZipRow(fields: seq<string>, vals: seq<Value>): (row: Row)
    requires |fields| == |vals|
    ensures forall k :: k in row <==> k in fields
  {
    if fields == [] then map[]
    else
      var n := |fields| - 1;
      assert forall k :: k in fields <==> k in fields[..n] || k == fields[n];
      ZipRow(fields[..n], vals[..n])[fields[n] := vals[n]]
  }

  /** The entry for a field name is the value paired with its LAST occurrence. */
  lemma {:induction false} ZipRowAt(fields: seq<string>, vals: seq<Value>, j: nat)
    requires |fields| == |vals| && j < |fields|
    requires forall l :: j < l < |fields| ==> fields[l] != fields[j]
    ensures fields[j] in ZipRow(fields, vals)
    ensures ZipRow(fields, vals)[fields[j]] == vals[j]
  {
    var n := |fields| - 1;
    if j < n {
      ZipRowAt(fields[..n], vals[..n], j);
    }
  }

  // ---------------------------------------------------------------------
  // backend/services/axiom.py: parse_tabular_response
  // ---------------------------------------------------------------------

  /**
   * `columns[j][i]` is defined for every field j and row i < len(columns[0]):
   * there is a column per field and none is shorter than the first. With no
   * rows nothing is indexed, so nothing is demanded.
   */
  predicate Transposable(fields: seq<string>, columns: seq<seq<Value>>) {
    columns == [] || |columns[0]| == 0 ||
    (|fields| <= |columns| && forall j :: 0 <= j < |fields| ==> |columns[0]| <= |columns[j]|)
  }

  /** Row i's values, one per field: `columns[j][i]`. */
  function Cells(columns: seq<seq<Value>>, i: nat, n: nat): seq<Value>
    requires n <= |columns| && forall j :: 0 <= j < n ==> i < |columns[j]|
  {
    seq(n, j requires 0 <= j < n => columns[j][i])
  }

  /** The comprehension `[{fields[j]: columns[j][i] for j} for i in range(len(columns[0]))]`. */
  function Transpose(fields: seq<string>, columns: seq<seq<Value>>): (rows: seq<Row>)
    requires columns != [] && Transposable(fields, columns)
    ensures |rows| == |columns[0]|
    ensures forall i :: 0 <= i < |rows| ==> forall k :: k in rows[i] <==> k in fields
  {
    seq(|columns[0]|, i requires 0 <= i < |columns[0]| => ZipRow(fields, Cells(columns, i, |fields|)))
  }

  /** The reply can be parsed without an index error. */
  predicate Parseable(data: TabularResponse) {
    match FirstTable(data)
    case None => true
    case Some(t) => !t.fields.FieldsNull? && Transposable(FieldsOf(t), ColumnsOf(t))
  }

  /**
   * A null "fields" key in the first table is an error in both parsers (the
   * name list is built before the columns are looked at), whatever the
   * columns are.
   */
  lemma NullFieldsRaise(columns: Option<seq<seq<Value>>>, rest: seq<Table>)
    ensures var data := TabularResponse(Some([Table(FieldsNull, columns)] + rest));
            !Parseable(data) && !AxiomParseable(data)
  {
    var data := TabularResponse(Some([Table(FieldsNull, columns)] + rest));
    assert FirstTable(data) == Some(Table(FieldsNull, columns));
  }

  /**
   * Row-oriented records of the first table. A missing or empty table list,
   * and a first table with no fields or no columns, give no rows; otherwise
   * there is one row per entry of the first column, and every row has
   * exactly the field names as keys.
   */
  function ParseTabularResponse(data: TabularResponse): (rows: seq<Row>)
    requires Parseable(data)
    ensures FirstTable(data).None? ==> rows == []
    ensures FirstTable(data).Some? && (FieldsOf(FirstTable(data).value) == [] || ColumnsOf(FirstTable(data).value) == []) ==> rows == []
    ensures FirstTable(data).Some? && FieldsOf(FirstTable(data).value) != [] && ColumnsOf(FirstTable(data).value) != [] ==>
              |rows| == |ColumnsOf(FirstTable(data).value)[0]| &&
              forall i :: 0 <= i < |rows| ==> forall k :: k in rows[i] <==> k in FieldsOf(FirstTable(data).value)
  {
    match FirstTable(data)
    case None => []
    case Some(t) =>
      var fields, columns := FieldsOf(t), ColumnsOf(t);
      if columns == [] || fields == [] then [] else Transpose(fields, columns)
  }

  /**
   * Cell placement: row i maps fields[j] to columns[j][i], where j is the
   * last position carrying that field name (with distinct names, every j).
   */
  lemma ParseTabularCell(data: TabularResponse, i: nat, j: nat)
    requires Parseable(data) && FirstTable(data).Some?
    requires var t := FirstTable(data).value;
             FieldsOf(t) != [] && ColumnsOf(t) != [] &&
             i < |ColumnsOf(t)[0]| && j < |FieldsOf(t)| &&
             forall l :: j < l < |FieldsOf(t)| ==> FieldsOf(t)[l] != FieldsOf(t)[j]
    ensures var t := FirstTable(data).value;
            j < |ColumnsOf(t)| && i < |ColumnsOf(t)[j]| &&
            ParseTabularResponse(data)[i][FieldsOf(t)[j]] == ColumnsOf(t)[j][i]
  {
    var t := FirstTable(data).value;
    var fields, columns := FieldsOf(t), ColumnsOf(t);
    ZipRowAt(fields, Cells(columns, i, |fields|), j);
  }

  /** Only the first table is read: whatever follows it has no effect. */
  lemma ParseTabularFirstTableOnly(t: Table, rest: seq<Table>)
    requires Parseable(TabularResponse(Some([t])))
    ensures Parseable(TabularResponse(Some([t] + rest)))
    ensures ParseTabularResponse(TabularResponse(Some([t] + rest))) == ParseTabularResponse(TabularResponse(Some([t])))
  {
  }

  /** The documented example: two fields, two rows, rows in column order. */
  lemma ParseTabularExample()
    ensures var data := TabularResponse(Some([Table(FieldsGiven(["ip", "request_count"]),
                                                   Some([[Str("1.2.3.4"), Str("5.6.7.8")], [Int(100), Int(50)]]))]));
            Parseable(data) &&
            ParseTabularResponse(data) ==
              [map["ip" := Str("1.2.3.4"), "request_count" := Int(100)],
               map["ip" := Str("5.6.7.8"), "request_count" := Int(50)]]
  {
    var fields := ["ip", "request_count"];
    var columns := [[Str("1.2.3.4"), Str("5.6.7.8")], [Int(100), Int(50)]];
    assert fields[..1] == ["ip"];
    var c0, c1 := Cells(columns, 0, 2), Cells(columns, 1, 2);
    assert c0 == [Str("1.2.3.4"), Int(100)] && c0[..1] == [Str("1.2.3.4")];
    assert c1 == [Str("5.6.7.8"), Int(50)] && c1[..1] == [Str("5.6.7.8")];
    assert ZipRow(fields, c0) == map["ip" := Str("1.2.3.4"), "request_count" := Int(100)];
    assert ZipRow(fields, c1) == map["ip" := Str("5.6.7.8"), "request_count" := Int(50)];
    assert Transpose(fields, columns) == [ZipRow(fields, c0), ZipRow(fields, c1)];
  }

  // ---------------------------------------------------------------------
  // backend/server.py: parse_axiom_response
  // ---------------------------------------------------------------------

  /**
   * The older parser indexes only columns that exist; it still needs every
   * existing column that has a field to be as long as the first one.
   */
  predicate PaddedTransposable(fields: seq<string>, columns: seq<seq<Value>>) {
    columns == [] || |columns[0]| == 0 ||
    forall j :: 0 <= j < |fields| && j < |columns| ==> |columns[0]| <= |columns[j]|
  }

  /** Row i's values, one per field, with None where there is no column j. */
  function PaddedCells(columns: seq<seq<Value>>, i: nat, n: nat): seq<Value>
    requires forall j :: 0 <= j < n && j < |columns| ==> i < |columns[j]|
  {
    seq(n, j requires 0 <= j < n => if j < |columns| then columns[j][i] else Null)
  }

  function PaddedTranspose(fields: seq<string>, columns: seq<seq<Value>>): (rows: seq<Row>)
    requires columns != [] && PaddedTransposable(fields, columns)
    ensures |rows| == |columns[0]|
    ensures forall i :: 0 <= i < |rows| ==> forall k :: k in rows[i] <==> k in fields
  {
    seq(|columns[0]|, i requires 0 <= i < |columns[0]| => ZipRow(fields, PaddedCells(columns, i, |fields|)))
  }

  predicate AxiomParseable(data: TabularResponse) {
    match FirstTable(data)
    case None => true
    case Some(t) => !t.fields.FieldsNull? && PaddedTransposable(FieldsOf(t), ColumnsOf(t))
  }

  /** What parse_axiom_response returns. */
  function AxiomRows(data: TabularResponse): seq<Row>
    requires AxiomParseable(data)
  {
    match FirstTable(data)
    case None => []
    case Some(t) =>
      var fields, columns := FieldsOf(t), ColumnsOf(t);
      if columns == [] || fields == [] then [] else PaddedTranspose(fields, columns)
  }

  /** The nested loops of parse_axiom_response: one dictionary per row, one entry per field. */
  method ParseAxiomResponse(data: TabularResponse) returns (results: seq<Row>)
    requires AxiomParseable(data)
    ensures results == AxiomRows(data)
  {
    results := [];
    var tables := data.tables.GetOr([]);
    if tables == [] {
      return;
    }
    var table := tables[0];
    var fields := FieldsOf(table);
    var columns := table.columns.GetOr([]);
    if columns == [] || fields == [] {
      return;
    }
    ghost var rows := PaddedTranspose(fields, columns);
    var numRows := |columns[0]|;
    var i := 0;
    while i < numRows
      invariant 0 <= i <= numRows
      invariant results == rows[..i]
    {
      ghost var cells := PaddedCells(columns, i, |fields|);
      var row: Row := map[];
      var j := 0;
      while j < |fields|
        invariant 0 <= j <= |fields|
        invariant row == ZipRow(fields[..j], cells[..j])
      {
        var cell := if j < |columns| then columns[j][i] else Null;
        assert fields[..j + 1][..j] == fields[..j] && cells[..j + 1][..j] == cells[..j];
        row := row[fields[j] := cell];
        j := j + 1;
      }
      assert fields[..j] == fields && cells[..j] == cells;
      results := results + [row];
      i := i + 1;
    }
    assert rows[..i] == rows;
  }

  /** When there is a column for every field, the two parsers agree. */
  lemma AxiomRowsAgree(data: TabularResponse)
    requires Parseable(data)
    ensures AxiomParseable(data)
    ensures AxiomRows(data) == ParseTabularResponse(data)
  {
    match FirstTable(data)
    case None =>
    case Some(t) =>
      var fields, columns := FieldsOf(t), ColumnsOf(t);
      if columns != [] && fields != [] {
        forall i | 0 <= i < |columns[0]|
          ensures PaddedCells(columns, i, |fields|) == Cells(columns, i, |fields|)
        {
        }
      }
  }

  /**
   * The older parser tolerates fewer columns than fields: a field whose last
   * position has no column maps to None, every other field to its cell.
   */
  lemma AxiomRowsCell(data: TabularResponse, i: nat, j: nat)
    requires AxiomParseable(data) && FirstTable(data).Some?
    requires var t := FirstTable(data).value;
             FieldsOf(t) != [] && ColumnsOf(t) != [] &&
             i < |ColumnsOf(t)[0]| && j < |FieldsOf(t)| &&
             forall l :: j < l < |FieldsOf(t)| ==> FieldsOf(t)[l] != FieldsOf(t)[j]
    ensures var t := FirstTable(data).value;
            AxiomRows(data)[i][FieldsOf(t)[j]] ==
              if j < |ColumnsOf(t)| then ColumnsOf(t)[j][i] else Null
  {
    var t := FirstTable(data).value;
    var fields, columns := FieldsOf(t), ColumnsOf(t);
    ZipRowAt(fields, PaddedCells(columns, i, |fields|), j);
  }

  /**
   * The edge on which the two versions differ: one column for two fields
   * crashes the service client's comprehension but gives None in the older
   * parser.
   */
  lemma MissingColumnDiffers()
    ensures var data := TabularResponse(Some([Table(FieldsGiven(["ip", "request_count"]),
                                                   Some([[Str("1.2.3.4")]]))]));
            !Parseable(data) && AxiomParseable(data) &&
            AxiomRows(data) == [map["ip" := Str("1.2.3.4"), "request_count" := Null]]
  {
    var fields := ["ip", "request_count"];
    var columns := [[Str("1.2.3.4")]];
    assert fields[..1] == ["ip"];
    var c0 := PaddedCells(columns, 0, 2);
    assert c0 == [Str("1.2.3.4"), Null] && c0[..1] == [Str("1.2.3.4")];
    assert ZipRow(fields, c0) == map["ip" := Str("1.2.3.4"), "request_count" := Null];
    assert PaddedTranspose(fields, columns) == [ZipRow(fields, c0)];
  }
}
