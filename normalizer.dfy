/**
 * Forecast normalizer: `validate_projections` (lines 77-83) and the body of
 * the per-model loop of `main` (lines 207-287), which turns one model's
 * forecast file into its per-location projected totals and signed errors,
 * or skips the model, or stops the run on a failed assertion.
 */
module Normalizer {
  import opened Wrappers
  import opened Dates
  import opened Text
  import opened Sums
  import opened Locations
  import Truth

  // ---------------------------------------------------------------------------
  // validate_projections
  // ---------------------------------------------------------------------------

  /** One row of a forecast file as read, its two date columns still text; `kind` is the `type` column. */
  datatype RawRow = RawRow(
    forecastDate: string, target: string, targetEndDate: string,
    location: string, kind: string, quantile: Option<real>, value: real)

  /** A forecast file: its header and its rows. */
  datatype RawForecast = RawForecast(columns: seq<string>, rows: seq<RawRow>)

  /** A row after validation, its dates converted to ordinals. */
  datatype ForecastRow = ForecastRow(
    forecastDate: int, target: string, targetEndDate: int,
    location: string, kind: string, quantile: Option<real>, value: real)

  const RequiredColumns: seq<string> :=
    ["forecast_date", "target", "target_end_date", "location", "type", "quantile", "value"]

  datatype ValidationError =
    | MissingColumn(column: string)  // the assertion of line 80
    | BadDate(column: string)        // `pd.to_datetime` raising on lines 82-83

  predicate HasColumns(columns: seq<string>) {
    forall c :: c in RequiredColumns ==> c in columns
  }

  /** The required column at index `i` is the first one the header lacks. */
  predicate FirstMissingAt(columns: seq<string>, i: int) {
    && 0 <= i < |RequiredColumns|
    && RequiredColumns[i] !in columns
    && forall j :: 0 <= j < i ==> RequiredColumns[j] in columns
  }

  function FirstMissingFrom(columns: seq<string>, i: nat): (k: nat)
    requires i <= |RequiredColumns|
    requires forall j :: 0 <= j < i ==> RequiredColumns[j] in columns
    requires exists j :: i <= j < |RequiredColumns| && RequiredColumns[j] !in columns
    ensures FirstMissingAt(columns, k)
    decreases |RequiredColumns| - i
  {
    if RequiredColumns[i] !in columns then i else FirstMissingFrom(columns, i + 1)
  }

  /** The text of one of the two date columns: the forecast date (`forecast`) or the target end date. */
  function DateText(raw: RawRow, forecast: bool): string {
    if forecast then raw.forecastDate else raw.targetEndDate
  }

  /** `pd.to_datetime` on a date column, cell by cell; None where a cell does not parse. */
  function ParsedDates(rows: seq<RawRow>, forecast: bool): (ds: seq<Option<int>>)
    ensures |ds| == |rows|
    ensures forall i :: 0 <= i < |rows| ==> ds[i] == ParseOrdinal(DateText(rows[i], forecast))
  {
    seq(|rows|, i requires 0 <= i < |rows| => ParseOrdinal(DateText(rows[i], forecast)))
  }

  /** Every cell of a date column parses. */
  predicate DatesParse(rows: seq<RawRow>, forecast: bool) {
    forall i :: 0 <= i < |rows| ==> ParseOrdinal(DateText(rows[i], forecast)).Some?
  }

  /** `t` is `raw` with both dates converted and every other cell unchanged. */
  predicate Converted(raw: RawRow, t: ForecastRow) {
    && ParseOrdinal(raw.forecastDate) == Some(t.forecastDate)
    && ParseOrdinal(raw.targetEndDate) == Some(t.targetEndDate)
    && t.target == raw.target && t.location == raw.location && t.kind == raw.kind
    && t.quantile == raw.quantile && t.value == raw.value
  }

  function WithDates(raw: RawRow, forecastDate: int, targetEndDate: int): ForecastRow {
    ForecastRow(forecastDate, raw.target, targetEndDate, raw.location, raw.kind, raw.quantile, raw.value)
  }

  predicate AllSome(ds: seq<Option<int>>) {
    forall i :: 0 <= i < |ds| ==> ds[i].Some?
  }

  /** The rows once their parsed dates `fds` and `eds` are written back, or the first column that failed. */
  function Assemble(rows: seq<RawRow>, fds: seq<Option<int>>, eds: seq<Option<int>>): (r: Result<seq<ForecastRow>, ValidationError>)
    requires |fds| == |eds| == |rows|
    ensures r.Ok? <==> AllSome(fds) && AllSome(eds)
    ensures r.Ok? ==> |r.value| == |rows| && forall i :: 0 <= i < |rows| ==> r.value[i] == WithDates(rows[i], fds[i].value, eds[i].value)
  {
    if !AllSome(fds) then Err(BadDate("forecast_date"))
    else if !AllSome(eds) then Err(BadDate("target_end_date"))
    else Ok(seq(|rows|, i requires 0 <= i < |rows| => WithDates(rows[i], fds[i].value, eds[i].value)))
  }

  /** Lines 82-83: the forecast dates are converted first, then the target end dates. */
  function ConvertRows(rows: seq<RawRow>): (r: Result<seq<ForecastRow>, ValidationError>)
    ensures r == Err(BadDate("forecast_date")) <==> !DatesParse(rows, true)
    ensures r == Err(BadDate("target_end_date")) <==> DatesParse(rows, true) && !DatesParse(rows, false)
    ensures r.Ok? <==> DatesParse(rows, true) && DatesParse(rows, false)
    ensures r.Ok? ==> |r.value| == |rows| && forall i :: 0 <= i < |rows| ==> Converted(rows[i], r.value[i])
  {
    Assemble(rows, ParsedDates(rows, true), ParsedDates(rows, false))
  }

  /**
   * What `validate_projections` leaves: the first missing required column,
   * else the first date column that does not convert, else the converted rows.
   */
  function Validate(f: RawForecast): (r: Result<seq<ForecastRow>, ValidationError>)
    ensures (r.Err? && r.error.MissingColumn?) <==> !HasColumns(f.columns)
    ensures r.Err? && r.error.MissingColumn? ==>
      exists i :: FirstMissingAt(f.columns, i) && RequiredColumns[i] == r.error.column
    ensures r == Err(BadDate("forecast_date")) <==> HasColumns(f.columns) && !DatesParse(f.rows, true)
    ensures r == Err(BadDate("target_end_date")) <==>
      HasColumns(f.columns) && DatesParse(f.rows, true) && !DatesParse(f.rows, false)
    ensures r.Ok? ==> |r.value| == |f.rows| && forall i :: 0 <= i < |f.rows| ==> Converted(f.rows[i], r.value[i])
  {
    if !HasColumns(f.columns) then
      var k := FirstMissingFrom(f.columns, 0);
      Err(MissingColumn(RequiredColumns[k]))
    else ConvertRows(f.rows)
  }

  /** A converted date is the date written in the file. */
  lemma ConvertedDatesAreWritten(raw: RawRow, t: ForecastRow)
    requires Converted(raw, t)
    ensures exists d :: Valid(d) && ToOrdinal(d) == t.targetEndDate && FormatIsoDate(d) == raw.targetEndDate
    ensures exists d :: Valid(d) && ToOrdinal(d) == t.forecastDate && FormatIsoDate(d) == raw.forecastDate
  {
    FormatParse(raw.targetEndDate);
    FormatParse(raw.forecastDate);
  }

  /**
   * `validate_projections`: the column check loop of lines 79-80, then the
   * conversion of the two date columns, which fails if any cell does not parse.
   */
  method ValidateProjections(f: RawForecast) returns (r: Result<seq<ForecastRow>, ValidationError>)
    ensures r == Validate(f)
  {
    for i := 0 to |RequiredColumns|
      invariant forall j :: 0 <= j < i ==> RequiredColumns[j] in f.columns
    {
      if RequiredColumns[i] !in f.columns {
        FirstMissingUnique(f.columns, i, FirstMissingFrom(f.columns, 0));
        return Err(MissingColumn(RequiredColumns[i]));
      }
    }
    r := WriteBackDates(f.rows, ParsedDates(f.rows, true), ParsedDates(f.rows, false));
  }

  /** The in-place overwrite of the two date columns with their parsed values `fds` and `eds`. */
  method WriteBackDates(rows: seq<RawRow>, fds: seq<Option<int>>, eds: seq<Option<int>>) returns (r: Result<seq<ForecastRow>, ValidationError>)
    requires |fds| == |eds| == |rows|
    ensures r == Assemble(rows, fds, eds)
  {
    var typed: seq<ForecastRow> := [];
    var badForecast, badEnd := false, false;
    for i := 0 to |rows|
      invariant badForecast <==> exists j :: 0 <= j < i && fds[j].None?
      invariant badEnd <==> exists j :: 0 <= j < i && eds[j].None?
      invariant !badForecast && !badEnd ==>
        |typed| == i && forall j :: 0 <= j < i ==> typed[j] == WithDates(rows[j], fds[j].value, eds[j].value)
    {
      if fds[i].None? {
        badForecast := true;
      }
      if eds[i].None? {
        badEnd := true;
      }
      if !badForecast && !badEnd {
        typed := typed + [WithDates(rows[i], fds[i].value, eds[i].value)];
      }
    }
    if badForecast {
      return Err(BadDate("forecast_date"));
    }
    if badEnd {
      return Err(BadDate("target_end_date"));
    }
    assert AllSome(fds) && AllSome(eds);
    assert typed == seq(|rows|, i requires 0 <= i < |rows| => WithDates(rows[i], fds[i].value, eds[i].value));
    r := Ok(typed);
  }

  lemma FirstMissingUnique(columns: seq<string>, i: int, k: int)
    requires FirstMissingAt(columns, i) && FirstMissingAt(columns, k)
    ensures i == k
  {
  }

  // ---------------------------------------------------------------------------
  // The filters of the per-model loop
  // ---------------------------------------------------------------------------

  const IncCaseTarget := "wk ahead inc case"

  /** `target.str.contains('wk ahead inc case')`. */
  predicate IsIncCase(r: ForecastRow) {
    Contains(r.target, IncCaseTarget)
  }

  predicate HasIncCase(rows: seq<ForecastRow>) {
    exists r :: r in rows && IsIncCase(r)
  }

  /** Rows with a target that ends on or before the evaluation date (line 226). */
  function UpToEvalDate(rows: seq<ForecastRow>, evalDate: int): (kept: seq<ForecastRow>)
    ensures forall r :: r in kept <==> r in rows && r.targetEndDate <= evalDate
  {
    if rows == [] then []
    else
      var rest := UpToEvalDate(rows[1..], evalDate);
      assert forall r :: r in rows <==> r == rows[0] || r in rows[1..];
      if rows[0].targetEndDate <= evalDate then [rows[0]] + rest else rest
  }

  /** The number of incident-case rows at `loc` (`groupby('location').size()`). */
  function IncCount(rows: seq<ForecastRow>, loc: string): nat {
    if rows == [] then 0
    else (if IsIncCase(rows[0]) && rows[0].location == loc then 1 else 0) + IncCount(rows[1..], loc)
  }

  /** The largest count, over the incident-case rows of `probe`, of their location's rows in `rows`. */
  function MaxIncCount(probe: seq<ForecastRow>, rows: seq<ForecastRow>): (m: nat)
    ensures forall r :: r in probe && IsIncCase(r) ==> IncCount(rows, r.location) <= m
    ensures HasIncCase(probe) ==> exists r :: r in probe && IsIncCase(r) && IncCount(rows, r.location) == m
    ensures !HasIncCase(probe) ==> m == 0
  {
    if probe == [] then 0
    else
      var rest := MaxIncCount(probe[1..], rows);
      assert forall r :: r in probe <==> r == probe[0] || r in probe[1..];
      if IsIncCase(probe[0]) && IncCount(rows, probe[0].location) >= rest then IncCount(rows, probe[0].location)
      else rest
  }

  /** Every location with incident-case rows has the same number of them. */
  predicate UniformHorizons(rows: seq<ForecastRow>) {
    forall r1, r2 :: r1 in rows && r2 in rows && IsIncCase(r1) && IsIncCase(r2) ==>
      IncCount(rows, r1.location) == IncCount(rows, r2.location)
  }

  /** The incident-case rows of `rows` whose location has `m` such rows in `whole`. */
  function KeepCount(rows: seq<ForecastRow>, whole: seq<ForecastRow>, m: nat): (kept: seq<ForecastRow>)
    ensures forall r :: r in kept <==> r in rows && IsIncCase(r) && IncCount(whole, r.location) == m
  {
    if rows == [] then []
    else
      var rest := KeepCount(rows[1..], whole, m);
      assert forall r :: r in rows <==> r == rows[0] || r in rows[1..];
      if IsIncCase(rows[0]) && IncCount(whole, rows[0].location) == m then [rows[0]] + rest else rest
  }

  /**
   * Lines 241-247: when the locations disagree on their number of
   * incident-case rows, only the incident-case rows of the locations with
   * the most rows are kept; otherwise every row stays.
   */
  function HorizonFilter(rows: seq<ForecastRow>): seq<ForecastRow> {
    if UniformHorizons(rows) then rows else KeepCount(rows, rows, MaxIncCount(rows, rows))
  }

  lemma {:induction false} KeepCountCount(rows: seq<ForecastRow>, whole: seq<ForecastRow>, m: nat, loc: string)
    ensures IncCount(KeepCount(rows, whole, m), loc) == if IncCount(whole, loc) == m then IncCount(rows, loc) else 0
  {
    if rows != [] {
      KeepCountCount(rows[1..], whole, m, loc);
      var rest := KeepCount(rows[1..], whole, m);
      if IsIncCase(rows[0]) && IncCount(whole, rows[0].location) == m {
        assert ([rows[0]] + rest)[1..] == rest;
      }
    }
  }

  /**
   * After the filter every remaining location has the same number of
   * incident-case rows and some remain, so the assertion of line 248 holds
   * whenever the model had an incident-case row at all.
   */
  lemma HorizonFilterUniform(rows: seq<ForecastRow>)
    requires HasIncCase(rows)
    ensures HasIncCase(HorizonFilter(rows)) && UniformHorizons(HorizonFilter(rows))
  {
    if !UniformHorizons(rows) {
      var m := MaxIncCount(rows, rows);
      var kept := KeepCount(rows, rows, m);
      var r :| r in rows && IsIncCase(r) && IncCount(rows, r.location) == m;
      assert r in kept;
      forall r1 | r1 in kept && IsIncCase(r1)
        ensures IncCount(kept, r1.location) == m
      {
        KeepCountCount(rows, rows, m, r1.location);
      }
    }
  }

  /** After the filter, the locations that had fewer incident-case rows than the most have none left. */
  lemma HorizonFilterDrops(rows: seq<ForecastRow>, loc: string)
    requires !UniformHorizons(rows)
    requires IncCount(rows, loc) < MaxIncCount(rows, rows)
    ensures forall r :: r in HorizonFilter(rows) ==> r.location != loc
  {
  }

  /** `type == 'point'` on some row (line 252). */
  predicate HasPoint(rows: seq<ForecastRow>) {
    exists r :: r in rows && r.kind == "point"
  }

  /** `quantile == 0.5` on some row (line 253). */
  predicate HasMedian(rows: seq<ForecastRow>) {
    exists r :: r in rows && r.quantile == Some(0.5)
  }

  /** Line 259: point rows are used when there are some and either they are asked for or there is no median. */
  predicate UsesPoint(rows: seq<ForecastRow>, usePoint: bool) {
    HasPoint(rows) && (usePoint || !HasMedian(rows))
  }

  predicate IsEstimate(r: ForecastRow, point: bool) {
    if point then r.kind == "point" else r.quantile == Some(0.5)
  }

  /** Lines 260-268: incident-case rows of the chosen estimate at an evaluated location. */
  function SelectRows(rows: seq<ForecastRow>, point: bool, evaluate: seq<string>): (sel: seq<ForecastRow>)
    ensures forall r :: r in sel <==> r in rows && IsIncCase(r) && IsEstimate(r, point) && r.location in evaluate
  {
    if rows == [] then []
    else
      var rest := SelectRows(rows[1..], point, evaluate);
      assert forall r :: r in rows <==> r == rows[0] || r in rows[1..];
      if IsIncCase(rows[0]) && IsEstimate(rows[0], point) && rows[0].location in evaluate then [rows[0]] + rest
      else rest
  }

  function RowLocations(rows: seq<ForecastRow>): set<string> {
    set r | r in rows :: r.location
  }

  /** The (location, value) pairs that `groupby('location')['value'].sum()` adds up. */
  function ValueEntries(rows: seq<ForecastRow>): (es: seq<Entry>)
    ensures |es| == |rows|
    ensures forall i :: 0 <= i < |rows| ==> es[i] == Entry(rows[i].location, rows[i].value)
    ensures KeysOf(es) == RowLocations(rows)
  {
    if rows == [] then []
    else
      var rest := ValueEntries(rows[1..]);
      var e := Entry(rows[0].location, rows[0].value);
      assert forall r :: r in rows <==> r == rows[0] || r in rows[1..];
      assert forall x :: x in [e] + rest <==> x == e || x in rest;
      [e] + rest
  }

  /** Everything a model's outcome depends on besides its own file. */
  datatype Setting = Setting(evalDate: int, usePoint: bool, u: Universe, truth: map<string, real>)

  /** The rows left after the evaluation-date cut and the horizon filter (`df_model` at line 252). */
  function ModelRows(rows: seq<ForecastRow>, s: Setting): seq<ForecastRow> {
    HorizonFilter(UpToEvalDate(rows, s.evalDate))
  }

  /** `df_model_filt`: the rows whose values make up the model's projection. */
  function Selection(rows: seq<ForecastRow>, s: Setting): (sel: seq<ForecastRow>)
    ensures forall r :: r in sel ==>
      && r in rows && r.targetEndDate <= s.evalDate && IsIncCase(r) && r.location in s.u.evaluate
      && IsEstimate(r, UsesPoint(ModelRows(rows, s), s.usePoint))
  {
    var model := ModelRows(rows, s);
    var inRange := UpToEvalDate(rows, s.evalDate);
    assert forall r :: r in model ==> r in inRange;
    SelectRows(model, UsesPoint(model, s.usePoint), s.u.evaluate)
  }

  /** `df_model_diffs`: projected total minus true total, defined where both are. */
  function Diffs(totals: map<string, real>, truth: map<string, real>): (d: map<string, real>)
    ensures d.Keys == totals.Keys * truth.Keys
    ensures forall c :: c in d ==> d[c] + truth[c] == totals[c]
  {
    map c | c in totals && c in truth :: totals[c] - truth[c]
  }

  datatype Skip = NotSelectedCU | NoIncCase | NoIncCaseAtEvalDate | NoRowsAfterFilter

  datatype ModelError =
    | Invalid(error: ValidationError)  // validate_projections
    | NoRows                           // line 223: the latest target date of a file without rows is NaT
    | UnequalHorizons                  // the assertion of line 248
    | TooManyLocations(count: nat)     // the assertion of line 273

  /** One model's entries in `model_to_num_locations`, `model_to_errors`, `model_to_us_projection` and `model_to_all_projections`. */
  datatype Projection = Projection(numLocations: nat, errors: map<string, real>, us: Option<real>, totals: map<string, real>)

  datatype Outcome = Skipped(reason: Skip) | Failed(error: ModelError) | Usable(p: Projection)

  /** Lines 226-287 for a validated file. */
  function ScoreRows(rows: seq<ForecastRow>, s: Setting): Outcome
  {
    var inRange := UpToEvalDate(rows, s.evalDate);
    if !HasIncCase(inRange) then Skipped(NoIncCase)
    else if !exists r :: r in inRange && IsIncCase(r) && r.targetEndDate == s.evalDate then Skipped(NoIncCaseAtEvalDate)
    else
      var model := ModelRows(rows, s);
      if !(HasIncCase(model) && UniformHorizons(model)) then Failed(UnequalHorizons)
      else
        var sel := Selection(rows, s);
        var n := |RowLocations(sel)|;
        if n > |s.u.names| then Failed(TooManyLocations(n))
        else if |sel| == 0 then Skipped(NoRowsAfterFilter)
        else
          var totals := GroupSum(ValueEntries(sel));
          Usable(Projection(n, Diffs(totals, s.truth), if "US" in totals then Some(totals["US"]) else None, totals))
  }

  /**
   * A usable model's projection: one total per selected location, the sum
   * of the selected values there; `num_locations` counts those locations and
   * never exceeds the size of the name map; the errors are the totals minus
   * the truth; the national projection is the "US" total when there is one.
   */
  lemma ScoreRowsFacts(rows: seq<ForecastRow>, s: Setting)
    ensures var o := ScoreRows(rows, s);
      && (o.Usable? ==> |Selection(rows, s)| > 0)
      && (o.Usable? ==> o.p.totals.Keys == RowLocations(Selection(rows, s)))
      && (o.Usable? ==> forall c :: c in o.p.totals ==> o.p.totals[c] == KeySum(ValueEntries(Selection(rows, s)), c))
      && (o.Usable? ==> o.p.numLocations == |o.p.totals.Keys| <= |s.u.names|)
      && (o.Usable? ==> o.p.errors == Diffs(o.p.totals, s.truth))
      && (o.Usable? ==> (o.p.us.Some? <==> "US" in o.p.totals) && (o.p.us.Some? ==> o.p.us.value == o.p.totals["US"]))
      && (o == Skipped(NoIncCase) <==> !HasIncCase(UpToEvalDate(rows, s.evalDate)))
      && (o.Skipped? ==> o.reason != NotSelectedCU)
      && (o.Failed? ==> !o.error.Invalid?)
  {
    GroupSumIsKeySum(ValueEntries(Selection(rows, s)));
  }

  /** Lines 213-216: the Columbia family is skipped, except its `CU-select` model. */
  predicate SkippedFamily(name: string) {
    StartsWith(name, "CU-") && name != "CU-select"
  }

  /** The outcome of one model whose chosen file holds `f`. */
  function ModelOutcome(name: string, f: RawForecast, s: Setting): Outcome {
    if SkippedFamily(name) then Skipped(NotSelectedCU)
    else
      match Validate(f)
      case Err(e) => Failed(Invalid(e))
      case Ok(rows) => if rows == [] then Failed(NoRows) else ScoreRows(rows, s)
  }

  /**
   * The assertions of lines 248 and 273 never fail: provided every evaluated
   * code has a name, a model outside the skipped family stops the run exactly
   * when its file is invalid or has no rows, and is otherwise skipped or usable.
   */
  lemma OnlyInvalidFilesFail(name: string, f: RawForecast, s: Setting)
    requires WellFormed(s.u)
    ensures ModelOutcome(name, f, s).Failed? <==> !SkippedFamily(name) && (Validate(f).Err? || Validate(f).value == [])
  {
    if !SkippedFamily(name) && Validate(f).Ok? && Validate(f).value != [] {
      ValidRowsNeverFail(Validate(f).value, s);
    }
  }

  lemma ValidRowsNeverFail(rows: seq<ForecastRow>, s: Setting)
    requires WellFormed(s.u)
    ensures !ScoreRows(rows, s).Failed?
  {
    var inRange := UpToEvalDate(rows, s.evalDate);
    if HasIncCase(inRange) {
      HorizonFilterUniform(inRange);
      SelectionFitsNames(rows, s);
    }
  }

  /** The selected rows name no more locations than the name map holds (line 273). */
  lemma SelectionFitsNames(rows: seq<ForecastRow>, s: Setting)
    requires WellFormed(s.u)
    ensures |RowLocations(Selection(rows, s))| <= |s.u.names|
  {
    var sel := Selection(rows, s);
    assert RowLocations(sel) <= s.u.names.Keys;
    Truth.SubsetCardinality(RowLocations(sel), s.u.names.Keys);
  }

  /**
   * The check of line 293: when the truth covers every evaluated location,
   * a usable model's error map has exactly `num_locations` entries, one per
   * selected location, each the projected total minus the true total.
   */
  lemma ErrorsCoverSelection(rows: seq<ForecastRow>, s: Setting)
    requires ScoreRows(rows, s).Usable?
    requires forall c :: c in s.u.evaluate ==> c in s.truth
    ensures ScoreRows(rows, s).p.errors.Keys == RowLocations(Selection(rows, s))
    ensures |ScoreRows(rows, s).p.errors| == ScoreRows(rows, s).p.numLocations
  {
    var p := ScoreRows(rows, s).p;
    ScoreRowsFacts(rows, s);
    assert p.totals.Keys <= s.truth.Keys;
    assert p.errors.Keys == p.totals.Keys;
  }

  /** One pass of the per-model loop: the family check, `validate_projections`, then the filters. */
  method NormalizeModel(name: string, f: RawForecast, s: Setting) returns (o: Outcome)
    ensures o == ModelOutcome(name, f, s)
  {
    if SkippedFamily(name) {
      return Skipped(NotSelectedCU);
    }
    var validated := ValidateProjections(f);
    if validated.Err? {
      return Failed(Invalid(validated.error));
    }
    if |validated.value| == 0 {
      return Failed(NoRows);
    }
    o := ScoreRows(validated.value, s);
  }

  /** The dicts the per-model loop fills, keyed by the usable models; `order` lists those in loop order. */
  datatype Collected = Collected(order: seq<string>, projections: map<string, Projection>)

  /** The projections recorded after the outcomes `outs` of the models `names`, a later one replacing an earlier. */
  function Usables(names: seq<string>, outs: seq<Outcome>): map<string, Projection>
    requires |names| == |outs|
  {
    if names == [] then map[]
    else
      var m := Usables(names[..|names| - 1], outs[..|outs| - 1]);
      var o := outs[|outs| - 1];
      if o.Usable? then m[names[|names| - 1] := o.p] else m
  }

  /** The usable models in the order they were first recorded. */
  function UsableOrder(names: seq<string>, outs: seq<Outcome>): seq<string>
    requires |names| == |outs|
  {
    if names == [] then []
    else
      var init, name := names[..|names| - 1], names[|names| - 1];
      var order := UsableOrder(init, outs[..|outs| - 1]);
      if outs[|outs| - 1].Usable? && name !in Usables(init, outs[..|outs| - 1]) then order + [name] else order
  }

  /** The names whose outcome is usable, in loop order, repeats included. */
  function UsableNames(names: seq<string>, outs: seq<Outcome>): seq<string>
    requires |names| == |outs|
  {
    if names == [] then []
    else
      var k := |names| - 1;
      UsableNames(names[..k], outs[..k]) + if outs[k].Usable? then [names[k]] else []
  }

  /**
   * The recorded models are the usable names, and the order lists them once
   * each, by first occurrence in the loop (the key order of the dicts).
   */
  lemma {:induction false} UsableOrderIsDistinct(names: seq<string>, outs: seq<Outcome>)
    requires |names| == |outs|
    ensures forall n :: n in Usables(names, outs) <==> n in UsableNames(names, outs)
    ensures UsableOrder(names, outs) == Distinct(UsableNames(names, outs))
    ensures NoDuplicates(UsableOrder(names, outs))
  {
    if names != [] {
      var k := |names| - 1;
      var init, prev := names[..k], outs[..k];
      UsableOrderIsDistinct(init, prev);
      var xs, xs0 := UsableNames(names, outs), UsableNames(init, prev);
      assert UsableOrder(names, outs) ==
        if outs[k].Usable? && names[k] !in Usables(init, prev) then UsableOrder(init, prev) + [names[k]] else UsableOrder(init, prev);
      if outs[k].Usable? {
        assert xs == xs0 + [names[k]];
        assert xs[..|xs| - 1] == xs0;
        assert Distinct(xs) == if names[k] in Distinct(xs0) then Distinct(xs0) else Distinct(xs0) + [names[k]];
      } else {
        assert xs == xs0;
      }
    }
  }

  /** The outcome of a model depends only on its name: repeated names have equal outcomes. */
  ghost predicate Consistent(names: seq<string>, outs: seq<Outcome>) {
    |names| == |outs| && forall j, k :: 0 <= j < |names| && 0 <= k < |names| && names[j] == names[k] ==> outs[j] == outs[k]
  }

  /**
   * The recorded projections are those of the usable models, each the
   * projection of its outcome, and the order lists exactly the recorded models.
   */
  lemma {:induction false} UsablesFacts(names: seq<string>, outs: seq<Outcome>)
    requires Consistent(names, outs)
    ensures forall n :: n in Usables(names, outs) <==> exists j :: 0 <= j < |names| && names[j] == n && outs[j].Usable?
    ensures forall j :: 0 <= j < |names| && outs[j].Usable? ==> Usables(names, outs)[names[j]] == outs[j].p
    ensures forall n :: n in UsableOrder(names, outs) <==> n in Usables(names, outs)
  {
    if names != [] {
      var k := |names| - 1;
      var init, prev := names[..k], outs[..k];
      assert Consistent(init, prev) by {
        forall j, l | 0 <= j < k && 0 <= l < k && init[j] == init[l] ensures prev[j] == prev[l] {
          assert names[j] == names[l];
        }
      }
      UsablesFacts(init, prev);
      assert Usables(names, outs) == if outs[k].Usable? then Usables(init, prev)[names[k] := outs[k].p] else Usables(init, prev);
      forall n ensures n in Usables(names, outs) <==> exists j :: 0 <= j < |names| && names[j] == n && outs[j].Usable? {
        if n in Usables(names, outs) && !(outs[k].Usable? && names[k] == n) {
          assert n in Usables(init, prev);
          var j :| 0 <= j < k && init[j] == n && prev[j].Usable?;
          assert names[j] == n && outs[j].Usable?;
        }
        if exists j :: 0 <= j < |names| && names[j] == n && outs[j].Usable? {
          var j :| 0 <= j < |names| && names[j] == n && outs[j].Usable?;
          if j < k {
            assert init[j] == n && prev[j].Usable?;
          }
        }
      }
      forall j | 0 <= j < |names| && outs[j].Usable? ensures Usables(names, outs)[names[j]] == outs[j].p {
        if j < k && names[j] != names[k] {
          assert init[j] == names[j] && prev[j] == outs[j];
        }
      }
    }
  }

  /** What the loop records once every model has an outcome and none failed. */
  lemma RecordedOutcomes(names: seq<string>, files: map<string, RawForecast>, s: Setting, outs: seq<Outcome>)
    requires forall n :: n in names ==> n in files
    requires outs == Outcomes(names, files, s)
    requires forall j :: 0 <= j < |names| ==> !outs[j].Failed?
    ensures forall n :: n in names ==> !ModelOutcome(n, files[n], s).Failed?
    ensures forall n :: n in Usables(names, outs) <==> n in names && ModelOutcome(n, files[n], s).Usable?
    ensures forall n :: n in Usables(names, outs) ==> Usables(names, outs)[n] == ModelOutcome(n, files[n], s).p
    ensures forall n :: n in UsableOrder(names, outs) <==> n in Usables(names, outs)
  {
    OutcomesAt(names, files, s);
    assert Consistent(names, outs);
    UsablesFacts(names, outs);
    forall n | n in names ensures !ModelOutcome(n, files[n], s).Failed? {
      var j :| 0 <= j < |names| && names[j] == n;
    }
    forall n | n in Usables(names, outs) ensures Usables(names, outs)[n] == ModelOutcome(n, files[n], s).p {
      var j :| 0 <= j < |names| && names[j] == n && outs[j].Usable?;
    }
    forall n | n in names && ModelOutcome(n, files[n], s).Usable? ensures n in Usables(names, outs) {
      var j :| 0 <= j < |names| && names[j] == n;
    }
  }

  /** The outcome of every model in `names`, in order. */
  function Outcomes(names: seq<string>, files: map<string, RawForecast>, s: Setting): (outs: seq<Outcome>)
    requires forall n :: n in names ==> n in files
    ensures |outs| == |names|
  {
    if names == [] then []
    else Outcomes(names[..|names| - 1], files, s) + [ModelOutcome(names[|names| - 1], files[names[|names| - 1]], s)]
  }

  lemma OutcomesAt(names: seq<string>, files: map<string, RawForecast>, s: Setting)
    requires forall n :: n in names ==> n in files
    ensures forall j :: 0 <= j < |names| ==> Outcomes(names, files, s)[j] == ModelOutcome(names[j], files[names[j]], s)
  {
    forall j | 0 <= j < |names| ensures Outcomes(names, files, s)[j] == ModelOutcome(names[j], files[names[j]], s) {
      OutcomeAt(names, files, s, j);
    }
  }

  /** The `j`-th outcome of the loop is model `j`'s own outcome. */
  lemma {:induction false} OutcomeAt(names: seq<string>, files: map<string, RawForecast>, s: Setting, j: int)
    requires forall n :: n in names ==> n in files
    requires 0 <= j < |names|
    ensures Outcomes(names, files, s)[j] == ModelOutcome(names[j], files[names[j]], s)
  {
    var init := names[..|names| - 1];
    if j < |init| {
      OutcomeAt(init, files, s, j);
      assert init[j] == names[j];
    }
  }

  /**
   * The per-model loop of lines 207-287 over the models that have a file,
   * in order, `files` holding each one's chosen file: usable models are
   * recorded, skipped ones left out, and the first failure stops the run.
   */
  method NormalizeAll(names: seq<string>, files: map<string, RawForecast>, s: Setting) returns (r: Result<Collected, (string, ModelError)>)
    requires forall n :: n in names ==> n in files
    ensures r.Err? ==> exists i :: (
      && 0 <= i < |names| && names[i] == r.error.0
      && ModelOutcome(names[i], files[names[i]], s) == Failed(r.error.1)
      && forall j :: 0 <= j < i ==> !ModelOutcome(names[j], files[names[j]], s).Failed?)
    ensures r.Ok? ==> forall n :: n in names ==> !ModelOutcome(n, files[n], s).Failed?
    ensures r.Ok? ==> forall n :: n in r.value.projections <==> n in names && ModelOutcome(n, files[n], s).Usable?
    ensures r.Ok? ==> forall n :: n in r.value.projections ==> r.value.projections[n] == ModelOutcome(n, files[n], s).p
    ensures r.Ok? ==> forall n :: n in r.value.order <==> n in r.value.projections
    ensures r.Ok? ==> r.value.order == Distinct(UsableNames(names, Outcomes(names, files, s)))
    ensures r.Ok? ==> NoDuplicates(r.value.order)
  {
    ghost var outs: seq<Outcome> := [];
    var order: seq<string> := [];
    var projections: map<string, Projection> := map[];
    for i := 0 to |names|
      invariant outs == Outcomes(names[..i], files, s)
      invariant forall j :: 0 <= j < i ==> !outs[j].Failed?
      invariant order == UsableOrder(names[..i], outs)
      invariant projections == Usables(names[..i], outs)
    {
      var name := names[i];
      var outcome := NormalizeModel(name, files[name], s);
      assert names[..i + 1] == names[..i] + [name];
      ghost var prev := outs;
      outs := outs + [outcome];
      if outcome.Failed? {
        FirstFailure(names, files, s, i);
        return Err((name, outcome.error));
      }
      order, projections := RecordOutcome(order, projections, name, outcome, names[..i], prev);
    }
    assert names[..|names|] == names;
    RecordedOutcomes(names, files, s, outs);
    UsableOrderIsDistinct(names, outs);
    r := Ok(Collected(order, projections));
  }

  /** Lines 277-287 for one more outcome: a usable model's projection is stored, and a new name appended to the order. */
  method RecordOutcome(order: seq<string>, projections: map<string, Projection>, name: string, outcome: Outcome,
                       ghost names: seq<string>, ghost outs: seq<Outcome>)
    returns (order': seq<string>, projections': map<string, Projection>)
    requires |names| == |outs|
    requires order == UsableOrder(names, outs) && projections == Usables(names, outs)
    ensures order' == UsableOrder(names + [name], outs + [outcome])
    ensures projections' == Usables(names + [name], outs + [outcome])
  {
    assert (names + [name])[..|names|] == names && (outs + [outcome])[..|outs|] == outs;
    order', projections' := order, projections;
    if outcome.Usable? {
      if name !in projections {
        order' := order + [name];
      }
      projections' := projections[name := outcome.p];
    }
  }

  /** The loop stops at model `i` when it is the first whose outcome is a failure. */
  lemma FirstFailure(names: seq<string>, files: map<string, RawForecast>, s: Setting, i: int)
    requires forall n :: n in names ==> n in files
    requires 0 <= i < |names|
    requires forall j :: 0 <= j < i ==> !Outcomes(names[..i], files, s)[j].Failed?
    requires ModelOutcome(names[i], files[names[i]], s).Failed?
    ensures forall j :: 0 <= j < i ==> !ModelOutcome(names[j], files[names[j]], s).Failed?
  {
    OutcomesAt(names[..i], files, s);
  }
}
