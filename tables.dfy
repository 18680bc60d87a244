/**
 * The score tables of `main`: a table is a list of named rows (one per model)
 * over a list of columns (location codes, or the two columns of the national
 * table); a cell that pandas holds as NaN is a key missing from the row's map.
 * Column means skip the missing cells, as `DataFrame.mean(axis=0)` does.
 */
module Tables {
  import opened Wrappers
  import opened Sums
  import opened Locations
  import opened Normalizer

  datatype Row = Row(name: string, cells: map<string, real>)

  datatype Table = Table(columns: seq<string>, rows: seq<Row>)

  /** The index of a table: the row names, in row order. */
  function Names(rows: seq<Row>): (ns: seq<string>)
    ensures |ns| == |rows|
    ensures forall i :: 0 <= i < |rows| ==> ns[i] == rows[i].name
  {
    seq(|rows|, i requires 0 <= i < |rows| => rows[i].name)
  }

  /** The cell of a row at a column, None where pandas holds NaN. */
  function Cell(r: Row, c: string): Option<real> {
    if c in r.cells then Some(r.cells[c]) else None
  }

  /** The defined values of column `c`, in row order. */
  function ColumnValues(rows: seq<Row>, c: string): seq<real> {
    if rows == [] then []
    else (if c in rows[0].cells then [rows[0].cells[c]] else []) + ColumnValues(rows[1..], c)
  }

  /** A column has values exactly when some row defines it. */
  lemma {:induction false} ColumnValuesEmpty(rows: seq<Row>, c: string)
    ensures |ColumnValues(rows, c)| == 0 <==> forall i :: 0 <= i < |rows| ==> c !in rows[i].cells
  {
    if rows != [] {
      ColumnValuesEmpty(rows[1..], c);
      assert forall i :: 1 <= i < |rows| ==> rows[i] == rows[1..][i - 1];
    }
  }

  /** Bounds on the defined cells of a column bound every value of the column. */
  lemma {:induction false} ColumnValuesWithin(rows: seq<Row>, c: string, lo: real, hi: real)
    requires forall i :: 0 <= i < |rows| && c in rows[i].cells ==> lo <= rows[i].cells[c] <= hi
    ensures forall k :: 0 <= k < |ColumnValues(rows, c)| ==> lo <= ColumnValues(rows, c)[k] <= hi
  {
    if rows != [] {
      assert forall i :: 1 <= i < |rows| ==> rows[i] == rows[1..][i - 1];
      ColumnValuesWithin(rows[1..], c, lo, hi);
    }
  }

  /** `mean(axis=0)` of one column: the mean of its defined cells, None (NaN) when there are none. */
  function ColumnMean(rows: seq<Row>, c: string): Option<real> {
    Mean(ColumnValues(rows, c))
  }

  /** `mean(axis=0)` as a row: the mean of every column that has a defined cell. */
  function ColumnMeans(rows: seq<Row>, columns: seq<string>): (m: map<string, real>)
    ensures forall c :: c in m <==> c in columns && exists i :: 0 <= i < |rows| && c in rows[i].cells
    ensures forall c :: c in m ==> ColumnMean(rows, c).Some? && m[c] == ColumnMean(rows, c).value
  {
    ColumnMeansDefined(rows, columns);
    map c | c in columns && ColumnMean(rows, c).Some? :: ColumnMean(rows, c).value
  }

  lemma ColumnMeansDefined(rows: seq<Row>, columns: seq<string>)
    ensures forall c :: ColumnMean(rows, c).Some? <==> exists i :: 0 <= i < |rows| && c in rows[i].cells
  {
    forall c ensures ColumnMean(rows, c).Some? <==> exists i :: 0 <= i < |rows| && c in rows[i].cells {
      ColumnValuesEmpty(rows, c);
    }
  }

  /** `notna().sum(axis=1)`: how many of the table's columns a row defines. */
  function DefinedCount(r: Row, columns: seq<string>): nat {
    |(set c | c in columns) * r.cells.Keys|
  }

  /** Every row defines every column: no NaN left. */
  predicate Complete(t: Table) {
    forall i, c :: 0 <= i < |t.rows| && c in t.columns ==> c in t.rows[i].cells
  }

  // ---------------------------------------------------------------------------
  // The tables built from the per-model results (lines 292-305)
  // ---------------------------------------------------------------------------

  /** `df_errors_raw`: one row per usable model holding its error map, over the evaluated codes. */
  function ErrorTable(c: Collected, evaluate: seq<string>): (t: Table)
    requires forall m :: m in c.order ==> m in c.projections
    ensures t.columns == evaluate && |t.rows| == |c.order|
    ensures forall i :: 0 <= i < |t.rows| ==> t.rows[i] == Row(c.order[i], c.projections[c.order[i]].errors)
    ensures Names(t.rows) == c.order
  {
    Table(evaluate, seq(|c.order|, i requires 0 <= i < |c.order| => Row(c.order[i], c.projections[c.order[i]].errors)))
  }

  const PredictedColumn := "predicted_cases"
  const ActualColumn := "actual_cases"
  const NationalColumns: seq<string> := [PredictedColumn, ActualColumn]

  /** The national row of a model: its "US" projection where it has one, and the true national total. */
  function NationalRow(name: string, us: Option<real>, usTruth: real): (r: Row)
    ensures Cell(r, ActualColumn) == Some(usTruth)
    ensures Cell(r, PredictedColumn) == us
  {
    var predicted := if us.Some? then map[PredictedColumn := us.value] else map[];
    Row(name, predicted[ActualColumn := usTruth])
  }

  /** `df_errors_us`: the national projection and the national truth of every usable model. */
  function NationalTable(c: Collected, usTruth: real): (t: Table)
    requires forall m :: m in c.order ==> m in c.projections
    ensures t.columns == NationalColumns && |t.rows| == |c.order|
    ensures forall i :: 0 <= i < |t.rows| ==> t.rows[i] == NationalRow(c.order[i], c.projections[c.order[i]].us, usTruth)
    ensures Names(t.rows) == c.order
  {
    Table(NationalColumns, seq(|c.order|, i requires 0 <= i < |c.order| => NationalRow(c.order[i], c.projections[c.order[i]].us, usTruth)))
  }
}
