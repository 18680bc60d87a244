/**
 * The scores of `main` after the merge: the beat-baseline table (lines
 * 366-384), the coverage filter (lines 347-353), the imputation of missing
 * errors (lines 394-395), each model's mean squared and mean absolute error
 * (lines 403 and 418) and its mean rank (lines 435-438).
 */
module Scorer {
  import opened Wrappers
  import opened Text
  import opened Sums
  import opened Locations
  import opened Tables
  import Merger

  function Abs(x: real): real {
    if x < 0.0 then -x else x
  }

  // ---------------------------------------------------------------------------
  // Beat baseline (lines 366, 371-384)
  // ---------------------------------------------------------------------------

  const BaselineModel := "COVIDhub-baseline"

  /** An error below this magnitude always beats the baseline (1e-3). */
  const Epsilon: real := 0.001

  /**
   * Whether a model error beats the baseline error at one location: NaN
   * where the model has no error; otherwise true when its magnitude is below
   * the baseline's (false where the baseline has none) or below `Epsilon`.
   */
  function Beat(e: Option<real>, baseline: Option<real>): (b: Option<bool>)
    ensures b.None? <==> e.None?
  {
    if e.None? then None
    else Some((baseline.Some? && Abs(e.value) < Abs(baseline.value)) || Abs(e.value) < Epsilon)
  }

  /** Beating the baseline is monotone: a smaller error beats it wherever a larger one does. */
  lemma BeatMonotone(e1: real, e2: real, baseline: Option<real>)
    requires Abs(e1) <= Abs(e2)
    requires Beat(Some(e2), baseline) == Some(true)
    ensures Beat(Some(e1), baseline) == Some(true)
  {
  }

  /** An error equal to the baseline's beats it only when it is below `Epsilon`. */
  lemma TieBeatsOnlyBelowTolerance(e: real)
    ensures Beat(Some(e), Some(e)) == Some(Abs(e) < Epsilon)
    ensures Beat(Some(e), Some(-e)) == Some(Abs(e) < Epsilon)
  {
  }

  /** Where the baseline has no error, only errors below `Epsilon` beat it; an error of 0.0005 beats even an exact baseline. */
  lemma BeatExamples()
    ensures Beat(Some(0.0005), Some(0.0)) == Some(true)
    ensures Beat(Some(0.002), None) == Some(false)
    ensures Beat(Some(-3.0), Some(4.0)) == Some(true)
    ensures Beat(None, Some(4.0)) == None
  {
  }

  /** The `beat_baseline-<model>` column: defined exactly at the locations where the model has an error. */
  function BeatColumn(errors: map<string, real>, baseline: map<string, real>, locations: seq<string>): (col: map<string, bool>)
    ensures col.Keys == (set loc | loc in locations) * errors.Keys
    ensures forall loc :: loc in col ==>
      Some(col[loc]) == Beat(Some(errors[loc]), if loc in baseline then Some(baseline[loc]) else None)
  {
    map loc | loc in locations && loc in errors ::
      Beat(Some(errors[loc]), if loc in baseline then Some(baseline[loc]) else None).value
  }

  /** `model_names`: the models of the projections table whose name holds a hyphen, the baseline aside. */
  predicate Compared(name: string) {
    Contains(name, "-") && name != BaselineModel
  }

  /** Lines 362 and 372 look up the baseline's row and raise when it is missing. */
  datatype BeatError = MissingBaseline

  /**
   * The loop of lines 376-384 over `model_names`: every compared model gets
   * its beat-baseline column; `errors` holds each model's row of the raw
   * error table, the baseline's among them when it was usable.
   */
  method BeatBaseline(errors: map<string, map<string, real>>, models: seq<string>, locations: seq<string>)
    returns (r: Result<map<string, map<string, bool>>, BeatError>)
    requires forall m :: m in models ==> m in errors
    ensures r.Err? <==> BaselineModel !in errors
    ensures r.Ok? ==> r.value.Keys == set m | m in models && Compared(m)
    ensures r.Ok? ==> forall m :: m in r.value ==> r.value[m] == BeatColumn(errors[m], errors[BaselineModel], locations)
  {
    if BaselineModel !in errors {
      return Err(MissingBaseline);
    }
    var cols: map<string, map<string, bool>> := map[];
    for k := 0 to |models|
      invariant cols.Keys == set m | m in models[..k] && Compared(m)
      invariant forall m :: m in cols ==> cols[m] == BeatColumn(errors[m], errors[BaselineModel], locations)
    {
      assert models[..k + 1] == models[..k] + [models[k]];
      var name := models[k];
      if name == BaselineModel || !Contains(name, "-") {
        continue;
      }
      cols := cols[name := BeatColumn(errors[name], errors[BaselineModel], locations)];
    }
    assert models[..|models|] == models;
    r := Ok(cols);
  }

  // ---------------------------------------------------------------------------
  // Coverage filter (lines 347-353)
  // ---------------------------------------------------------------------------

  /** A model is scored when it projects more than this many locations besides the nation. */
  function MinLocations(counties: bool): nat {
    if counties then 2000 else 40
  }

  /** `drop(columns=[c])`. */
  function DropColumn(t: Table, c: string): (d: Table)
    ensures d.columns == Without(t.columns, c) && |d.rows| == |t.rows|
    ensures forall i :: 0 <= i < |t.rows| ==> d.rows[i] == Row(t.rows[i].name, t.rows[i].cells - {c})
  {
    Table(Without(t.columns, c), seq(|t.rows|, i requires 0 <= i < |t.rows| => Row(t.rows[i].name, t.rows[i].cells - {c})))
  }

  /** The rows that define more than `threshold` of the columns, in order. */
  function Covered(rows: seq<Row>, columns: seq<string>, threshold: nat): seq<Row> {
    if rows == [] then []
    else (if DefinedCount(rows[0], columns) > threshold then [rows[0]] else []) + Covered(rows[1..], columns, threshold)
  }

  lemma {:induction false} CoveredMembers(rows: seq<Row>, columns: seq<string>, threshold: nat)
    ensures forall r :: r in Covered(rows, columns, threshold) <==> r in rows && DefinedCount(r, columns) > threshold
    ensures |Covered(rows, columns, threshold)| <= |rows|
  {
    if rows != [] {
      CoveredMembers(rows[1..], columns, threshold);
      assert forall r :: r in rows <==> r == rows[0] || r in rows[1..];
    }
  }

  /** `df_errors_states`: the error table without the national column, keeping the models that cover enough locations. */
  function CoverageFilter(t: Table, counties: bool): Table {
    var d := DropColumn(t, Merger.NationCode);
    Table(d.columns, Covered(d.rows, d.columns, MinLocations(counties)))
  }

  /**
   * `model_to_num_valid_projections` (line 355): for each model kept by the
   * coverage filter, in row order, the number of locations it defines,
   * counted before imputation; the `count` column of the two summaries
   * (lines 406-407 and 421-422) reads it back by model name. Every count
   * exceeds the coverage threshold.
   */
  function ValidProjectionCounts(t: Table, counties: bool): (counts: seq<nat>)
    ensures var f := CoverageFilter(t, counties);
      && |counts| == |f.rows|
      && forall i :: 0 <= i < |f.rows| ==> counts[i] == DefinedCount(f.rows[i], f.columns) > MinLocations(counties)
  {
    var f := CoverageFilter(t, counties);
    var d := DropColumn(t, Merger.NationCode);
    CoveredCounts(d.rows, d.columns, MinLocations(counties));
    seq(|f.rows|, i requires 0 <= i < |f.rows| => DefinedCount(f.rows[i], f.columns))
  }

  /** Every row the coverage filter keeps defines more columns than the threshold. */
  lemma {:induction false} CoveredCounts(rows: seq<Row>, columns: seq<string>, threshold: nat)
    ensures forall i :: 0 <= i < |Covered(rows, columns, threshold)| ==>
              DefinedCount(Covered(rows, columns, threshold)[i], columns) > threshold
  {
    if rows != [] {
      CoveredCounts(rows[1..], columns, threshold);
    }
  }

  /**
   * A row survives the coverage filter exactly when its model, with the
   * national cell dropped, defines more locations than the threshold; the
   * surviving rows hold no national cell.
   */
  lemma CoverageFilterRows(t: Table, counties: bool)
    ensures var f := CoverageFilter(t, counties);
      && f.columns == Without(t.columns, Merger.NationCode)
      && (forall r :: r in f.rows <==>
            (exists i :: 0 <= i < |t.rows| && r == Row(t.rows[i].name, t.rows[i].cells - {Merger.NationCode}))
            && DefinedCount(r, f.columns) > MinLocations(counties))
      && (forall r :: r in f.rows ==> Merger.NationCode !in r.cells)
  {
    var d := DropColumn(t, Merger.NationCode);
    CoveredMembers(d.rows, d.columns, MinLocations(counties));
    forall r ensures r in d.rows <==> exists i :: 0 <= i < |t.rows| && r == Row(t.rows[i].name, t.rows[i].cells - {Merger.NationCode}) {
      if r in d.rows {
        var i :| 0 <= i < |d.rows| && d.rows[i] == r;
      }
    }
  }

  // ---------------------------------------------------------------------------
  // Imputation (lines 394-395)
  // ---------------------------------------------------------------------------

  function AbsAll(xs: seq<real>): (ys: seq<real>)
    ensures |ys| == |xs|
    ensures forall k :: 0 <= k < |xs| ==> ys[k] == Abs(xs[k])
  {
    seq(|xs|, k requires 0 <= k < |xs| => Abs(xs[k]))
  }

  /** `abs().mean()` of one column: the mean absolute error at that location, None when no model has one. */
  function AbsMean(rows: seq<Row>, c: string): Option<real> {
    Mean(AbsAll(ColumnValues(rows, c)))
  }

  /** The columns whose mean absolute error is defined. */
  function Fillable(rows: seq<Row>, columns: seq<string>): set<string> {
    set c | c in columns && AbsMean(rows, c).Some?
  }

  /** `fillna` on one row: each missing cell of a fillable column gets that column's mean absolute error. */
  function FillRow(r: Row, rows: seq<Row>, columns: seq<string>): Row {
    Row(r.name, map c | c in r.cells.Keys + Fillable(rows, columns) ::
      if c in r.cells then r.cells[c] else AbsMean(rows, c).value)
  }

  function Filled(t: Table): (f: Table)
    ensures f.columns == t.columns && |f.rows| == |t.rows|
    ensures forall i :: 0 <= i < |t.rows| ==> f.rows[i] == FillRow(t.rows[i], t.rows, t.columns)
  {
    Table(t.columns, seq(|t.rows|, i requires 0 <= i < |t.rows| => FillRow(t.rows[i], t.rows, t.columns)))
  }

  /** The assertion of line 395: a NaN is left after filling. */
  datatype ImputeError = NaNRemains

  /** `df_errors_states.fillna(df_errors_states.abs().mean())` followed by the check that no NaN is left. */
  function Impute(t: Table): Result<Table, ImputeError> {
    var f := Filled(t);
    if Complete(f) then Ok(f) else Err(NaNRemains)
  }

  /**
   * Imputation fails exactly when there is a model and some location at which
   * no model has an error: that column's mean is NaN and fills nothing.
   */
  lemma ImputeFails(t: Table)
    ensures Impute(t).Err? <==>
      |t.rows| > 0 && exists c :: c in t.columns && forall i :: 0 <= i < |t.rows| ==> c !in t.rows[i].cells
  {
    if Impute(t).Err? {
      var i, c := UnfilledCell(t);
      assert c in t.columns && forall i :: 0 <= i < |t.rows| ==> c !in t.rows[i].cells;
    }
    if |t.rows| > 0 && exists c :: c in t.columns && forall i :: 0 <= i < |t.rows| ==> c !in t.rows[i].cells {
      var c :| c in t.columns && forall i :: 0 <= i < |t.rows| ==> c !in t.rows[i].cells;
      ColumnValuesEmpty(t.rows, c);
      assert c !in Filled(t).rows[0].cells;
    }
  }

  /** A cell left undefined by filling lies in a column no row defines. */
  lemma UnfilledCell(t: Table) returns (i: nat, c: string)
    requires !Complete(Filled(t))
    ensures i < |t.rows| && c in t.columns && forall k :: 0 <= k < |t.rows| ==> c !in t.rows[k].cells
  {
    var f := Filled(t);
    i, c :| 0 <= i < |f.rows| && c in f.columns && c !in f.rows[i].cells;
    assert c !in Fillable(t.rows, t.columns);
    ColumnValuesEmpty(t.rows, c);
  }

  /**
   * After a successful imputation every cell is defined; the defined cells
   * are unchanged and each missing one holds its location's mean absolute error.
   */
  lemma ImputeFills(t: Table)
    requires Impute(t).Ok?
    ensures var f := Impute(t).value;
      && Complete(f) && f.columns == t.columns && |f.rows| == |t.rows|
      && forall i :: 0 <= i < |t.rows| ==>
        && f.rows[i].name == t.rows[i].name
        && (forall c :: c in t.rows[i].cells ==> c in f.rows[i].cells && f.rows[i].cells[c] == t.rows[i].cells[c])
        && (forall c :: c in t.columns && c !in t.rows[i].cells ==> f.rows[i].cells[c] == AbsMean(t.rows, c).value)
  {
  }

  /** A complete table is left as it is, so imputing twice is imputing once. */
  lemma ImputeIdempotent(t: Table)
    requires Impute(t).Ok?
    ensures Impute(Impute(t).value) == Impute(t)
  {
    var f := Impute(t).value;
    CompleteUnchanged(f);
  }

  lemma CompleteUnchanged(t: Table)
    requires Complete(t)
    ensures Filled(t) == t
  {
    forall i | 0 <= i < |t.rows| ensures FillRow(t.rows[i], t.rows, t.columns) == t.rows[i] {
      var r := t.rows[i];
      assert Fillable(t.rows, t.columns) <= r.cells.Keys;
      assert FillRow(r, t.rows, t.columns).cells == r.cells;
    }
  }

  /** A filled cell lies between 0 and the largest absolute error at its location. */
  lemma FilledWithin(t: Table, c: string, hi: real)
    requires AbsMean(t.rows, c).Some?
    requires forall i :: 0 <= i < |t.rows| && c in t.rows[i].cells ==> Abs(t.rows[i].cells[c]) <= hi
    ensures 0.0 <= AbsMean(t.rows, c).value <= hi
  {
    var vs := ColumnValues(t.rows, c);
    forall i | 0 <= i < |t.rows| && c in t.rows[i].cells ensures -hi <= t.rows[i].cells[c] <= hi { }
    ColumnValuesWithin(t.rows, c, -hi, hi);
    MeanBounds(AbsAll(vs), 0.0, hi);
  }

  // ---------------------------------------------------------------------------
  // Squared and absolute errors (lines 403, 418)
  // ---------------------------------------------------------------------------

  /** The row defines every column. */
  predicate Defines(r: Row, columns: seq<string>) {
    forall c :: c in columns ==> c in r.cells
  }

  /** The row of `df_errors_states**2`, in column order. */
  function Squares(r: Row, columns: seq<string>): (sq: seq<real>)
    requires Defines(r, columns)
    ensures |sq| == |columns|
    ensures forall k :: 0 <= k < |columns| ==> sq[k] == Square(r.cells[columns[k]])
  {
    seq(|columns|, k requires 0 <= k < |columns| => Square(r.cells[columns[k]]))
  }

  /** The row of `df_errors_states.abs()`, in column order. */
  function Magnitudes(r: Row, columns: seq<string>): (ab: seq<real>)
    requires Defines(r, columns)
    ensures |ab| == |columns|
    ensures forall k :: 0 <= k < |columns| ==> ab[k] == Abs(r.cells[columns[k]])
  {
    seq(|columns|, k requires 0 <= k < |columns| => Abs(r.cells[columns[k]]))
  }

  /** The `mean` of a model's row in the squared-error summary. */
  function MeanSquaredError(r: Row, columns: seq<string>): Option<real>
    requires Defines(r, columns)
  {
    Mean(Squares(r, columns))
  }

  /** The `mean` of a model's row in the absolute-error summary. */
  function MeanAbsoluteError(r: Row, columns: seq<string>): Option<real>
    requires Defines(r, columns)
  {
    Mean(Magnitudes(r, columns))
  }

  /**
   * Both means are defined when there is a location, are never negative, and
   * are zero exactly when the model's error is zero at every location.
   */
  lemma ErrorMeansZero(r: Row, columns: seq<string>)
    requires Defines(r, columns) && |columns| > 0
    ensures MeanSquaredError(r, columns).Some? && MeanAbsoluteError(r, columns).Some?
    ensures MeanSquaredError(r, columns).value >= 0.0 && MeanAbsoluteError(r, columns).value >= 0.0
    ensures MeanSquaredError(r, columns).value == 0.0 <==> forall c :: c in columns ==> r.cells[c] == 0.0
    ensures MeanAbsoluteError(r, columns).value == 0.0 <==> forall c :: c in columns ==> r.cells[c] == 0.0
  {
    var sq, ab := Squares(r, columns), Magnitudes(r, columns);
    var n := |columns| as real;
    SquaresSign(r, columns);
    SumNonNegative(sq);
    SumNonNegative(ab);
    assert Mean(sq).value == Sum(sq) / n && Mean(ab).value == Sum(ab) / n;
    if forall c :: c in columns ==> r.cells[c] == 0.0 {
      SumConstant(sq, 0.0);
      SumConstant(ab, 0.0);
    }
    if Sum(sq) / n == 0.0 {
      assert Sum(sq) == 0.0;
      forall c | c in columns ensures r.cells[c] == 0.0 {
        var k :| 0 <= k < |columns| && columns[k] == c;
        assert sq[k] == 0.0;
      }
    }
    if Sum(ab) / n == 0.0 {
      assert Sum(ab) == 0.0;
      forall c | c in columns ensures r.cells[c] == 0.0 {
        var k :| 0 <= k < |columns| && columns[k] == c;
        assert ab[k] == 0.0;
      }
    }
  }

  lemma SquaresSign(r: Row, columns: seq<string>)
    requires Defines(r, columns)
    ensures forall k :: 0 <= k < |columns| ==> Squares(r, columns)[k] >= 0.0
    ensures forall k :: 0 <= k < |columns| && r.cells[columns[k]] != 0.0 ==> Squares(r, columns)[k] > 0.0
    ensures forall k :: 0 <= k < |columns| && r.cells[columns[k]] == 0.0 ==> Squares(r, columns)[k] == 0.0
  {
    forall k | 0 <= k < |columns|
      ensures Squares(r, columns)[k] >= 0.0
      ensures r.cells[columns[k]] != 0.0 ==> Squares(r, columns)[k] > 0.0
      ensures r.cells[columns[k]] == 0.0 ==> Squares(r, columns)[k] == 0.0
    {
      SquareSign(r.cells[columns[k]]);
    }
  }

  /** Multiplication, named so that a square is stated as a product of two arguments. */
  function Product(a: real, b: real): real {
    a * b
  }

  /** `x**2`. */
  function Square(x: real): real {
    Product(x, x)
  }

  lemma ProductPositive(a: real, b: real)
    requires a > 0.0 && b > 0.0
    ensures Product(a, b) > 0.0
  {
  }

  /** A square is never negative, and is zero only at zero. */
  lemma SquareSign(x: real)
    ensures Square(x) >= 0.0
    ensures x != 0.0 ==> Square(x) > 0.0
    ensures x == 0.0 ==> Square(x) == 0.0
  {
    if x > 0.0 {
      ProductPositive(x, x);
    } else if x < 0.0 {
      ProductPositive(-x, -x);
      assert Product(-x, -x) == Product(x, x);
    }
  }

  // ---------------------------------------------------------------------------
  // Ranks (lines 435-438)
  // ---------------------------------------------------------------------------

  /** Rows whose model name starts with this are left out of the ranking (not the `COVIDhub-baseline` model). */
  const RankExcludedPrefix := "Baseline"

  function RankedRows(rows: seq<Row>): seq<Row> {
    if rows == [] then []
    else (if StartsWith(rows[0].name, RankExcludedPrefix) then [] else [rows[0]]) + RankedRows(rows[1..])
  }

  lemma {:induction false} RankedRowsMembers(rows: seq<Row>)
    ensures forall r :: r in RankedRows(rows) <==> r in rows && !StartsWith(r.name, RankExcludedPrefix)
  {
    if rows != [] {
      RankedRowsMembers(rows[1..]);
      assert forall r :: r in rows <==> r == rows[0] || r in rows[1..];
    }
  }

  /** Only names starting with "Baseline" are left out: the `COVIDhub-baseline` row is ranked like any other. */
  lemma BaselineModelRanked(cells: map<string, real>)
    ensures RankedRows([Row(BaselineModel, cells)]) == [Row(BaselineModel, cells)]
  {
    assert !StartsWith(BaselineModel, RankExcludedPrefix) by {
      assert BaselineModel[0] != RankExcludedPrefix[0];
    }
  }

  function CountLess(xs: seq<real>, x: real): nat {
    if xs == [] then 0 else (if xs[0] < x then 1 else 0) + CountLess(xs[1..], x)
  }

  function CountEqual(xs: seq<real>, x: real): nat {
    if xs == [] then 0 else (if xs[0] == x then 1 else 0) + CountEqual(xs[1..], x)
  }

  /** pandas' default `rank()`: ties share the average of the positions they span, 1 being the smallest. */
  function AverageRank(xs: seq<real>, i: nat): real
    requires i < |xs|
  {
    CountLess(xs, xs[i]) as real + (CountEqual(xs, xs[i]) as real + 1.0) / 2.0
  }

  lemma {:induction false} CountsBounded(xs: seq<real>, x: real)
    ensures CountLess(xs, x) + CountEqual(xs, x) <= |xs|
    ensures x in xs ==> CountEqual(xs, x) >= 1
  {
    if xs != [] {
      CountsBounded(xs[1..], x);
      assert x in xs ==> xs[0] == x || x in xs[1..];
    }
  }

  /** Everything below or equal to `x` lies below any larger `y`. */
  lemma {:induction false} CountsBelow(xs: seq<real>, x: real, y: real)
    requires x < y
    ensures CountLess(xs, x) + CountEqual(xs, x) <= CountLess(xs, y)
    ensures x in xs ==> CountLess(xs, x) + CountEqual(xs, x) >= 1 && CountLess(xs, y) >= CountLess(xs, x) + CountEqual(xs, x)
  {
    if xs != [] {
      CountsBelow(xs[1..], x, y);
    }
  }

  /** Every rank lies between 1 and the number of ranked values. */
  lemma RankBounds(xs: seq<real>, i: nat)
    requires i < |xs|
    ensures 1.0 <= AverageRank(xs, i) <= |xs| as real
  {
    CountsBounded(xs, xs[i]);
  }

  /** Ranks follow the values: a smaller value has a smaller rank and equal values share one, and conversely. */
  lemma RankOrder(xs: seq<real>, i: nat, j: nat)
    requires i < |xs| && j < |xs|
    ensures xs[i] < xs[j] <==> AverageRank(xs, i) < AverageRank(xs, j)
    ensures xs[i] == xs[j] <==> AverageRank(xs, i) == AverageRank(xs, j)
  {
    if xs[i] < xs[j] {
      RankBelow(xs, i, j);
    } else if xs[j] < xs[i] {
      RankBelow(xs, j, i);
    }
  }

  lemma RankBelow(xs: seq<real>, i: nat, j: nat)
    requires i < |xs| && j < |xs| && xs[i] < xs[j]
    ensures AverageRank(xs, i) < AverageRank(xs, j)
  {
    CountsBelow(xs, xs[i], xs[j]);
    CountsBounded(xs, xs[i]);
    CountsBounded(xs, xs[j]);
  }

  /** The absolute errors of one location across the ranked models. */
  function AbsColumn(rows: seq<Row>, c: string): (col: seq<real>)
    requires forall k :: 0 <= k < |rows| ==> c in rows[k].cells
    ensures |col| == |rows|
    ensures forall k :: 0 <= k < |rows| ==> col[k] == Abs(rows[k].cells[c])
  {
    seq(|rows|, k requires 0 <= k < |rows| => Abs(rows[k].cells[c]))
  }

  /** Every row defines every column. */
  predicate AllDefine(rows: seq<Row>, columns: seq<string>) {
    forall k, j :: 0 <= k < |rows| && 0 <= j < |columns| ==> columns[j] in rows[k].cells
  }

  /** The ranks of model `k` at every location (`abs().rank()`, one column at a time). */
  function RanksOf(rows: seq<Row>, columns: seq<string>, k: nat): (rs: seq<real>)
    requires AllDefine(rows, columns) && k < |rows|
    ensures |rs| == |columns|
    ensures forall j :: 0 <= j < |columns| ==> rs[j] == AverageRank(AbsColumn(rows, columns[j]), k)
  {
    seq(|columns|, j requires 0 <= j < |columns| => AverageRank(AbsColumn(rows, columns[j]), k))
  }

  /** `mean(axis=1)` of the rank table: model `k`'s mean rank. */
  function MeanRank(rows: seq<Row>, columns: seq<string>, k: nat): Option<real>
    requires AllDefine(rows, columns) && k < |rows|
  {
    Mean(RanksOf(rows, columns, k))
  }

  /** After a successful imputation every ranked model has an error at every location, so every rank is defined. */
  lemma RankableAfterImpute(t: Table)
    requires Impute(t).Ok?
    ensures AllDefine(RankedRows(Impute(t).value.rows), Impute(t).value.columns)
    ensures forall i :: 0 <= i < |t.rows| ==> Defines(Impute(t).value.rows[i], t.columns)
  {
    var f := Impute(t).value;
    RankedRowsMembers(f.rows);
    var ranked := RankedRows(f.rows);
    forall k, j | 0 <= k < |ranked| && 0 <= j < |f.columns| ensures f.columns[j] in ranked[k].cells {
      assert ranked[k] in f.rows;
      var i :| 0 <= i < |f.rows| && f.rows[i] == ranked[k];
      assert f.columns[j] in f.columns;
    }
  }

  /** A mean rank lies between 1 and the number of ranked models. */
  lemma MeanRankBounds(rows: seq<Row>, columns: seq<string>, k: nat)
    requires AllDefine(rows, columns) && k < |rows| && |columns| > 0
    ensures MeanRank(rows, columns, k).Some?
    ensures 1.0 <= MeanRank(rows, columns, k).value <= |rows| as real
  {
    var rs := RanksOf(rows, columns, k);
    forall j | 0 <= j < |columns| ensures 1.0 <= rs[j] <= |rows| as real {
      RankBounds(AbsColumn(rows, columns[j]), k);
    }
    MeanBounds(rs, 1.0, |rows| as real);
  }

  /** A model whose absolute error is smaller than another's at every location has a smaller mean rank. */
  lemma MeanRankDominance(rows: seq<Row>, columns: seq<string>, a: nat, b: nat)
    requires AllDefine(rows, columns) && a < |rows| && b < |rows| && |columns| > 0
    requires forall j :: 0 <= j < |columns| ==> Abs(rows[a].cells[columns[j]]) < Abs(rows[b].cells[columns[j]])
    ensures MeanRank(rows, columns, a).value < MeanRank(rows, columns, b).value
  {
    var ra, rb := RanksOf(rows, columns, a), RanksOf(rows, columns, b);
    forall j | 0 <= j < |columns| ensures ra[j] < rb[j] {
      RankBelow(AbsColumn(rows, columns[j]), a, b);
    }
    MeanLess(ra, rb);
  }
}
