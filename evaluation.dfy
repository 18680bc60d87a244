/**
 * The glue of `main`: the date checks made before anything is read
 * (lines 103-105, 111) and the two consistency checks made on the score
 * tables — every usable model defines as many error cells as it projected
 * locations (lines 293-294), and after the Imperial merge the national
 * error equals the "US" error of every model (lines 325-327), a fact that
 * holds in exact arithmetic.
 */
module Evaluation {
  import opened Wrappers
  import opened Dates
  import opened Sums
  import opened Normalizer
  import opened Tables
  import opened Merger

  datatype DateError =
    | NotAfterProjection     // line 103
    | ProjectionNotMonday    // line 104
    | EvaluationNotSaturday  // line 105

  /** The three date assertions, in order; on success the number of days ahead (line 111). */
  function CheckDates(proj: int, eval: int): (r: Result<nat, DateError>)
    ensures r.Ok? <==> eval > proj && Weekday(proj) == Monday && Weekday(eval) == Saturday
    ensures r == Err(NotAfterProjection) <==> eval <= proj
    ensures r == Err(ProjectionNotMonday) <==> eval > proj && Weekday(proj) != Monday
    ensures r.Ok? ==> proj + r.value == eval
  {
    if eval <= proj then Err(NotAfterProjection)
    else if Weekday(proj) != Monday then Err(ProjectionNotMonday)
    else if Weekday(eval) != Saturday then Err(EvaluationNotSaturday)
    else Ok(eval - proj)
  }

  /** From a Monday to a later Saturday is five days plus whole weeks. */
  lemma DaysAheadFromMonday(proj: int, eval: int)
    requires CheckDates(proj, eval).Ok?
    ensures CheckDates(proj, eval).value % 7 == 5
    ensures CheckDates(proj, eval).value >= 5
  {
    var a, b := (proj + 6) / 7, (eval + 6) / 7;
    assert proj + 6 == 7 * a;
    assert eval + 6 == 7 * b + 5;
    assert eval - proj == 7 * (b - a) + 5;
    assert b - a >= 0;
  }

  // ---------------------------------------------------------------------------
  // What the per-model loop records of a usable model
  // ---------------------------------------------------------------------------

  /**
   * A recorded projection: the errors are the totals less the truth where
   * both exist, the national projection is the "US" total, `num_locations`
   * counts the totals, and every total is at an evaluated location.
   */
  predicate Recorded(p: Projection, s: Setting) {
    && p.errors == Diffs(p.totals, s.truth)
    && (p.us.Some? <==> "US" in p.totals)
    && (p.us.Some? ==> p.us.value == p.totals["US"])
    && p.numLocations == |p.totals.Keys|
    && forall c :: c in p.totals ==> c in s.u.evaluate
  }

  lemma UsableRecorded(name: string, f: RawForecast, s: Setting)
    requires ModelOutcome(name, f, s).Usable?
    ensures Recorded(ModelOutcome(name, f, s).p, s)
  {
    var rows := Validate(f).value;
    ScoreRowsFacts(rows, s);
    var sel := Selection(rows, s);
    forall c | c in RowLocations(sel) ensures c in s.u.evaluate {
      var r :| r in sel && r.location == c;
    }
  }

  /** Every projection collected by the per-model loop is recorded. */
  lemma CollectedRecorded(c: Collected, files: map<string, RawForecast>, s: Setting)
    requires forall n :: n in c.projections ==>
      n in files && ModelOutcome(n, files[n], s).Usable? && c.projections[n] == ModelOutcome(n, files[n], s).p
    ensures forall n :: n in c.projections ==> Recorded(c.projections[n], s)
  {
    forall n | n in c.projections ensures Recorded(c.projections[n], s) {
      UsableRecorded(n, files[n], s);
    }
  }

  /** The tables hold one row per collected model. */
  predicate Listed(c: Collected) {
    forall m :: m in c.order ==> m in c.projections
  }

  // ---------------------------------------------------------------------------
  // Lines 293-294: `model_to_num_locations` equals the defined cells per row
  // ---------------------------------------------------------------------------

  /**
   * When the truth covers every evaluated location, each row of the error
   * table defines exactly `num_locations` of the evaluated codes: the
   * assertion of line 293 never fails.
   */
  lemma LocationCountsAgree(c: Collected, s: Setting)
    requires Listed(c)
    requires forall m :: m in c.projections ==> Recorded(c.projections[m], s)
    requires forall l :: l in s.u.evaluate ==> l in s.truth
    ensures forall i :: 0 <= i < |c.order| ==>
      DefinedCount(ErrorTable(c, s.u.evaluate).rows[i], s.u.evaluate) == c.projections[c.order[i]].numLocations
  {
    var t := ErrorTable(c, s.u.evaluate);
    forall i | 0 <= i < |c.order|
      ensures DefinedCount(t.rows[i], s.u.evaluate) == c.projections[c.order[i]].numLocations
    {
      var p := c.projections[c.order[i]];
      assert t.rows[i].cells == p.errors;
      assert p.errors.Keys == p.totals.Keys;
      assert (set l | l in s.u.evaluate) * p.errors.Keys == p.totals.Keys;
    }
  }

  // ---------------------------------------------------------------------------
  // Lines 302-327: the national table and the "US" column stay aligned
  // ---------------------------------------------------------------------------

  /** Before any merge, each model's "US" error is its national projection less the national truth. */
  lemma InitiallyAligned(c: Collected, s: Setting)
    requires Listed(c)
    requires forall m :: m in c.projections ==> Recorded(c.projections[m], s)
    requires "US" in s.u.evaluate && "US" in s.truth
    ensures Aligned(ErrorTable(c, s.u.evaluate), NationalTable(c, s.truth["US"]), s.truth["US"])
  {
    var e, n := ErrorTable(c, s.u.evaluate), NationalTable(c, s.truth["US"]);
    forall i | 0 <= i < |c.order| ensures AlignedRow(e.rows[i], n.rows[i], s.truth["US"]) {
      var p := c.projections[c.order[i]];
      assert e.rows[i].cells == p.errors;
      assert Cell(n.rows[i], PredictedColumn) == p.us;
    }
  }

  /**
   * In exact arithmetic the assertion of lines 326-327 never fails: after
   * the families are merged in both tables, every row's national error
   * equals its "US" error, or both are NaN.
   */
  lemma NationalCheckPasses(c: Collected, s: Setting, families: seq<string>)
    requires Listed(c)
    requires forall m :: m in c.projections ==> Recorded(c.projections[m], s)
    requires "US" in s.u.evaluate && "US" in s.truth
    ensures var e := MergedAll(ErrorTable(c, s.u.evaluate), families);
            var n := MergedAll(NationalTable(c, s.truth["US"]), families);
            |e.rows| == |n.rows|
            && forall i :: 0 <= i < |e.rows| ==>
                 e.rows[i].name == n.rows[i].name && NationalError(n.rows[i]) == Cell(e.rows[i], NationCode)
    ensures Names(MergedAll(ErrorTable(c, s.u.evaluate), families).rows)
            == Names(MergedAll(NationalTable(c, s.truth["US"]), families).rows)
  {
    var usTruth := s.truth["US"];
    InitiallyAligned(c, s);
    MergeAllPreservesAlignment(ErrorTable(c, s.u.evaluate), NationalTable(c, usTruth), usTruth, families);
    AlignedAgree(MergedAll(ErrorTable(c, s.u.evaluate), families), MergedAll(NationalTable(c, usTruth), families), usTruth);
  }
}
