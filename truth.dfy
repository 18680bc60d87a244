/**
 * Truth aggregation (`main`, lines 110 and 176-186): the daily confirmed cases
 * of every location are summed over the window that starts the day before the
 * projection date (the model ran date) and ends on the evaluation date, then
 * restricted to the evaluated locations, all of which must be present.
 */
module Truth {
  import opened Wrappers
  import opened Locations
  import opened Sums

  /** One row of the truth file: a day (as an ordinal), a location code and that day's new cases. */
  datatype TruthRow = TruthRow(date: int, location: string, dailyCases: real)

  datatype TruthError =
    | NoTruthData                             // no truth row falls in the window (line 182)
    | MissingFips(found: nat, expected: nat)  // some evaluated location has no total (line 185)

  /** `model_ran_date`: the day before the projection date. */
  function ModelRanDate(projDate: int): int {
    projDate - 1
  }

  predicate InTruthWindow(r: TruthRow, projDate: int, evalDate: int) {
    ModelRanDate(projDate) <= r.date <= evalDate
  }

  /** The rows dated inside the window, in file order (line 181). */
  function TruthWindow(rows: seq<TruthRow>, projDate: int, evalDate: int): (w: seq<TruthRow>)
    ensures |w| <= |rows|
    ensures forall r :: r in w <==> r in rows && InTruthWindow(r, projDate, evalDate)
  {
    if rows == [] then []
    else
      var rest := TruthWindow(rows[1..], projDate, evalDate);
      assert forall r :: r in rows <==> r == rows[0] || r in rows[1..];
      if InTruthWindow(rows[0], projDate, evalDate) then [rows[0]] + rest else rest
  }

  /** The reference total: the new cases of every row at `loc` whose date lies in the window. */
  function WindowCases(rows: seq<TruthRow>, loc: string, projDate: int, evalDate: int): real {
    if rows == [] then 0.0
    else
      (if rows[0].location == loc && InTruthWindow(rows[0], projDate, evalDate) then rows[0].dailyCases else 0.0)
      + WindowCases(rows[1..], loc, projDate, evalDate)
  }

  /** The locations that occur in some row. */
  function LocationsOf(rows: seq<TruthRow>): set<string> {
    set r | r in rows :: r.location
  }

  /** The (location, daily cases) pairs that `groupby('location')['daily_cases'].sum()` adds up. */
  function CaseEntries(rows: seq<TruthRow>): (es: seq<Entry>)
    ensures |es| == |rows|
    ensures forall i :: 0 <= i < |rows| ==> es[i] == Entry(rows[i].location, rows[i].dailyCases)
    ensures KeysOf(es) == LocationsOf(rows)
  {
    if rows == [] then []
    else
      var rest := CaseEntries(rows[1..]);
      assert forall r :: r in rows <==> r == rows[0] || r in rows[1..];
      assert forall e :: e in [Entry(rows[0].location, rows[0].dailyCases)] + rest <==>
        e == Entry(rows[0].location, rows[0].dailyCases) || e in rest;
      [Entry(rows[0].location, rows[0].dailyCases)] + rest
  }

  /** The grouped sum over the window's rows is the reference window total. */
  lemma {:induction false} WindowCasesAgree(rows: seq<TruthRow>, loc: string, projDate: int, evalDate: int)
    ensures KeySum(CaseEntries(TruthWindow(rows, projDate, evalDate)), loc) == WindowCases(rows, loc, projDate, evalDate)
  {
    if rows != [] {
      WindowCasesAgree(rows[1..], loc, projDate, evalDate);
      var rest := TruthWindow(rows[1..], projDate, evalDate);
      if InTruthWindow(rows[0], projDate, evalDate) {
        var es := CaseEntries([rows[0]] + rest);
        assert es[1..] == CaseEntries(rest);
      }
    }
  }

  /** A sequence without repeated elements has as many distinct elements as entries. */
  lemma {:induction false} DistinctCardinality(xs: seq<string>)
    requires NoDuplicates(xs)
    ensures |set x | x in xs| == |xs|
  {
    if xs != [] {
      var tail := xs[1..];
      assert NoDuplicates(tail) by {
        forall i, j | 0 <= i < j < |tail| ensures tail[i] != tail[j] {
          assert tail[i] == xs[i + 1] && tail[j] == xs[j + 1];
        }
      }
      DistinctCardinality(tail);
      assert xs[0] !in tail by {
        forall k | 0 <= k < |tail| ensures tail[k] != xs[0] {
          assert tail[k] == xs[k + 1];
        }
      }
      assert (set x | x in xs) == (set x | x in tail) + {xs[0]};
    }
  }

  /**
   * With no repeated evaluated code, the count test of line 185 passes
   * exactly when every evaluated location has a total.
   */
  lemma CountTestMeansAllPresent(evaluate: seq<string>, present: set<string>)
    requires NoDuplicates(evaluate)
    ensures |(set c | c in evaluate) * present| == |evaluate| <==> forall c :: c in evaluate ==> c in present
  {
    var all := set c | c in evaluate;
    DistinctCardinality(evaluate);
    if exists c :: c in evaluate && c !in present {
      var c :| c in evaluate && c !in present;
      var inter := all * present;
      assert c in all && c !in inter;
      SubsetCardinality(inter, all);
    } else {
      assert all * present == all;
    }
  }

  lemma CountTestWhenDistinct(evaluate: seq<string>, present: set<string>)
    ensures NoDuplicates(evaluate) ==>
      (|(set c | c in evaluate) * present| == |evaluate| <==> forall c :: c in evaluate ==> c in present)
  {
    if NoDuplicates(evaluate) {
      CountTestMeansAllPresent(evaluate, present);
    }
  }

  /**
   * `df_truth_filt`: the window totals of the evaluated locations, or the
   * assertion that fails when the window is empty or a location is missing.
   */
  function TruthTotals(rows: seq<TruthRow>, projDate: int, evalDate: int, evaluate: seq<string>): (r: Result<map<string, real>, TruthError>)
    ensures r == Err(NoTruthData) <==> forall row :: row in rows ==> !InTruthWindow(row, projDate, evalDate)
    ensures r.Err? && r.error.MissingFips? <==>
      (exists row :: row in rows && InTruthWindow(row, projDate, evalDate))
      && |(set c | c in evaluate) * LocationsOf(TruthWindow(rows, projDate, evalDate))| != |evaluate|
    ensures r.Ok? ==> r.value.Keys == set c | c in evaluate
    ensures r.Ok? ==> forall c :: c in r.value ==> r.value[c] == WindowCases(rows, c, projDate, evalDate)
    ensures NoDuplicates(evaluate) ==>
      (r.Ok? <==> (exists row :: row in rows && InTruthWindow(row, projDate, evalDate))
                  && forall c :: c in evaluate ==> exists row :: row in rows && InTruthWindow(row, projDate, evalDate) && row.location == c)
  {
    var window := TruthWindow(rows, projDate, evalDate);
    if |window| == 0 then
      Err(NoTruthData)
    else
      var totals := GroupSum(CaseEntries(window));
      GroupSumIsKeySum(CaseEntries(window));
      var filtered := map c | c in totals && c in evaluate :: totals[c];
      assert filtered.Keys == (set c | c in evaluate) * LocationsOf(window);
      assert window[0] in window;
      CountTestWhenDistinct(evaluate, LocationsOf(window));
      if |filtered| != |evaluate| then
        Err(MissingFips(|filtered|, |evaluate|))
      else
        assert filtered.Keys == set c | c in evaluate by {
          var all := set c | c in evaluate;
          assert filtered.Keys <= all;
          SubsetOfSeqSet(evaluate, filtered.Keys);
        }
        assert forall c :: c in filtered ==> filtered[c] == WindowCases(rows, c, projDate, evalDate) by {
          forall c | c in filtered
            ensures filtered[c] == WindowCases(rows, c, projDate, evalDate)
          {
            WindowCasesAgree(rows, c, projDate, evalDate);
          }
        }
        Ok(filtered)
  }

  /** A subset of the elements of `xs` with as many elements as `xs` has entries is all of them. */
  lemma SubsetOfSeqSet(xs: seq<string>, s: set<string>)
    requires s <= set x | x in xs
    requires |s| == |xs|
    ensures s == set x | x in xs
  {
    SeqSetNoLarger(xs);
    SubsetCardinality(s, set x | x in xs);
  }

  /** A subset is no larger, and a proper subset is smaller. */
  lemma SubsetCardinality<T>(a: set<T>, b: set<T>)
    requires a <= b
    ensures |a| <= |b|
    ensures a != b ==> |a| < |b|
  {
    assert b == a + (b - a);
    assert a * (b - a) == {};
    if a != b {
      var x :| x in b && x !in a;
      assert x in b - a;
    }
  }

  lemma {:induction false} SeqSetNoLarger(xs: seq<string>)
    ensures |set x | x in xs| <= |xs|
  {
    if xs != [] {
      SeqSetNoLarger(xs[1..]);
      assert (set x | x in xs) == (set x | x in xs[1..]) + {xs[0]};
    }
  }
}
