/**
 * The merger of lines 307-323: every row whose model name contains the
 * family name ("Imperial") is removed and one `<family>-combined` row, the
 * column means of the removed rows, is appended; a table with no such row is
 * left alone. The per-location and the national tables are merged the same
 * way, each on its own. Then the national error of line 325 and the check of
 * lines 326-327 that it agrees with the "US" column of the error table.
 */
module Merger {
  import opened Wrappers
  import opened Text
  import opened Sums
  import opened Tables

  /** The families merged, in order (line 309). */
  const Families: seq<string> := ["Imperial"]

  /** `index.str.contains(family)`: a substring test, not a prefix test. */
  predicate InFamily(name: string, family: string) {
    Contains(name, family)
  }

  function CombinedName(family: string): string {
    family + "-combined"
  }

  /** The rows of the family, in order (`df_errors.loc[mask]`). */
  function FamilyRows(rows: seq<Row>, family: string): seq<Row> {
    if rows == [] then []
    else
      var last := rows[|rows| - 1];
      FamilyRows(rows[..|rows| - 1], family) + if InFamily(last.name, family) then [last] else []
  }

  /** The rows outside the family, in order (`df_errors.loc[~mask]`). */
  function OtherRows(rows: seq<Row>, family: string): seq<Row> {
    if rows == [] then []
    else
      var last := rows[|rows| - 1];
      OtherRows(rows[..|rows| - 1], family) + if InFamily(last.name, family) then [] else [last]
  }

  /** The two filters split the rows: the family's rows and the others, every row in exactly one. */
  lemma {:induction false} FilterMembers(rows: seq<Row>, family: string)
    ensures forall r :: r in FamilyRows(rows, family) <==> r in rows && InFamily(r.name, family)
    ensures forall r :: r in OtherRows(rows, family) <==> r in rows && !InFamily(r.name, family)
    ensures |FamilyRows(rows, family)| + |OtherRows(rows, family)| == |rows|
  {
    if rows != [] {
      var init := rows[..|rows| - 1];
      FilterMembers(init, family);
      assert rows == init + [rows[|rows| - 1]];
    }
  }

  /** The table after merging one family. */
  function Merged(t: Table, family: string): Table {
    var matched := FamilyRows(t.rows, family);
    if |matched| == 0 then t
    else Table(t.columns, OtherRows(t.rows, family) + [Row(CombinedName(family), ColumnMeans(matched, t.columns))])
  }

  /**
   * Lines 311-317 and 319-323: the mask is computed row by row, then, when it
   * selects some row, the selected rows are dropped and the combined row is
   * appended.
   */
  method MergeFamily(t: Table, family: string) returns (m: Table)
    ensures m == Merged(t, family)
  {
    var matched: seq<Row> := [];
    var others: seq<Row> := [];
    for i := 0 to |t.rows|
      invariant matched == FamilyRows(t.rows[..i], family)
      invariant others == OtherRows(t.rows[..i], family)
    {
      assert t.rows[..i + 1][..i] == t.rows[..i];
      if InFamily(t.rows[i].name, family) {
        matched := matched + [t.rows[i]];
      } else {
        others := others + [t.rows[i]];
      }
    }
    assert t.rows[..|t.rows|] == t.rows;
    if |matched| == 0 {
      return t;
    }
    m := Table(t.columns, others + [Row(CombinedName(family), ColumnMeans(matched, t.columns))]);
  }

  /** The merge over every family of `families`, in order. */
  function MergedAll(t: Table, families: seq<string>): Table
    decreases families
  {
    if families == [] then t else MergedAll(Merged(t, families[0]), families[1..])
  }

  /** The loop of line 309 over the families. */
  method MergeFamilies(t: Table, families: seq<string>) returns (m: Table)
    ensures m == MergedAll(t, families)
  {
    m := t;
    for k := 0 to |families|
      invariant MergedAll(m, families[k..]) == MergedAll(t, families)
    {
      assert families[k..][1..] == families[k + 1..];
      m := MergeFamily(m, families[k]);
    }
  }

  // ---------------------------------------------------------------------------
  // What the merge does
  // ---------------------------------------------------------------------------

  /** A table none of whose models belongs to the family is left unchanged. */
  lemma MergeWithoutFamily(t: Table, family: string)
    requires forall i :: 0 <= i < |t.rows| ==> !InFamily(t.rows[i].name, family)
    ensures Merged(t, family) == t
  {
    FiltersOfOthers(t.rows, family);
  }

  /**
   * With some model of the family, the merged table keeps the columns and the
   * other rows unchanged and in order, and its one row of the family is the
   * combined row, which holds the mean of every column some member defines.
   */
  lemma MergeWithFamily(t: Table, family: string)
    requires exists i :: 0 <= i < |t.rows| && InFamily(t.rows[i].name, family)
    ensures var m := Merged(t, family);
      && m.columns == t.columns
      && OtherRows(m.rows, family) == OtherRows(t.rows, family)
      && FamilyRows(m.rows, family) == [Row(CombinedName(family), ColumnMeans(FamilyRows(t.rows, family), t.columns))]
      && |m.rows| == |t.rows| - |FamilyRows(t.rows, family)| + 1
  {
    var i :| 0 <= i < |t.rows| && InFamily(t.rows[i].name, family);
    FilterMembers(t.rows, family);
    assert t.rows[i] in FamilyRows(t.rows, family);
    var others := OtherRows(t.rows, family);
    var combined := Row(CombinedName(family), ColumnMeans(FamilyRows(t.rows, family), t.columns));
    ContainsOwnPrefix(family, "-combined");
    assert forall j :: 0 <= j < |others| ==> others[j] in others;
    FiltersOfOthers(others, family);
    var rows := others + [combined];
    assert rows[..|rows| - 1] == others;
  }

  /** Filtering rows that are all outside the family keeps them all and finds no member. */
  lemma {:induction false} FiltersOfOthers(rows: seq<Row>, family: string)
    requires forall i :: 0 <= i < |rows| ==> !InFamily(rows[i].name, family)
    ensures OtherRows(rows, family) == rows
    ensures FamilyRows(rows, family) == []
  {
    if rows != [] {
      var init := rows[..|rows| - 1];
      FiltersOfOthers(init, family);
      assert init + [rows[|rows| - 1]] == rows;
    }
  }

  /** Each combined cell lies between the smallest and the largest value of the merged models there. */
  lemma CombinedWithin(t: Table, family: string, c: string, lo: real, hi: real)
    requires c in ColumnMeans(FamilyRows(t.rows, family), t.columns)
    requires forall i :: 0 <= i < |t.rows| && InFamily(t.rows[i].name, family) && c in t.rows[i].cells ==>
      lo <= t.rows[i].cells[c] <= hi
    ensures lo <= ColumnMeans(FamilyRows(t.rows, family), t.columns)[c] <= hi
  {
    var fr := FamilyRows(t.rows, family);
    FilterMembers(t.rows, family);
    forall j | 0 <= j < |fr| && c in fr[j].cells ensures lo <= fr[j].cells[c] <= hi {
      assert fr[j] in t.rows;
    }
    ColumnValuesWithin(fr, c, lo, hi);
    ColumnValuesEmpty(fr, c);
    MeanBounds(ColumnValues(fr, c), lo, hi);
  }

  // ---------------------------------------------------------------------------
  // The national error and its agreement with the "US" column (lines 325-327)
  // ---------------------------------------------------------------------------

  const NationCode := "US"

  /** `predicted_cases - actual_cases`, NaN when either is. */
  function NationalError(r: Row): Option<real> {
    if PredictedColumn in r.cells && ActualColumn in r.cells
    then Some(r.cells[PredictedColumn] - r.cells[ActualColumn])
    else None
  }

  /**
   * The error row and the national row of one model agree: same name, the
   * true national total in the national row, and the "US" error defined
   * exactly when the national projection is, as projection minus truth.
   */
  predicate AlignedRow(e: Row, n: Row, usTruth: real) {
    && e.name == n.name
    && Cell(n, ActualColumn) == Some(usTruth)
    && (NationCode in e.cells <==> PredictedColumn in n.cells)
    && (NationCode in e.cells ==> e.cells[NationCode] == n.cells[PredictedColumn] - usTruth)
  }

  predicate AlignedRows(es: seq<Row>, ns: seq<Row>, usTruth: real) {
    |es| == |ns| && forall i :: 0 <= i < |es| ==> AlignedRow(es[i], ns[i], usTruth)
  }

  predicate Aligned(e: Table, n: Table, usTruth: real) {
    NationCode in e.columns && n.columns == NationalColumns && AlignedRows(e.rows, n.rows, usTruth)
  }

  /** The check of lines 326-327 holds for aligned tables: each national error is the "US" error, or both are NaN. */
  lemma AlignedAgree(e: Table, n: Table, usTruth: real)
    requires Aligned(e, n, usTruth)
    ensures forall i :: 0 <= i < |e.rows| ==> NationalError(n.rows[i]) == Cell(e.rows[i], NationCode)
  {
  }

  lemma {:induction false} FiltersAligned(es: seq<Row>, ns: seq<Row>, usTruth: real, family: string)
    requires AlignedRows(es, ns, usTruth)
    ensures AlignedRows(FamilyRows(es, family), FamilyRows(ns, family), usTruth)
    ensures AlignedRows(OtherRows(es, family), OtherRows(ns, family), usTruth)
  {
    if es != [] {
      var k := |es| - 1;
      FiltersAligned(es[..k], ns[..k], usTruth, family);
      assert es[k].name == ns[k].name;
    }
  }

  /** Over aligned rows, the defined "US" errors are the defined national projections less the truth. */
  lemma {:induction false} NationalValuesShifted(es: seq<Row>, ns: seq<Row>, usTruth: real)
    requires AlignedRows(es, ns, usTruth)
    ensures Shifted(ColumnValues(es, NationCode), ColumnValues(ns, PredictedColumn), usTruth)
    ensures AllEqual(ColumnValues(ns, ActualColumn), usTruth) && |ColumnValues(ns, ActualColumn)| == |ns|
  {
    if es != [] {
      NationalValuesShifted(es[1..], ns[1..], usTruth);
      assert AlignedRow(es[0], ns[0], usTruth);
    }
  }

  /** Merging the same family in both tables keeps them aligned. */
  lemma MergePreservesAlignment(e: Table, n: Table, usTruth: real, family: string)
    requires Aligned(e, n, usTruth)
    ensures Aligned(Merged(e, family), Merged(n, family), usTruth)
  {
    var fe, fn := FamilyRows(e.rows, family), FamilyRows(n.rows, family);
    FiltersAligned(e.rows, n.rows, usTruth, family);
    if |fe| > 0 {
      var ce := Row(CombinedName(family), ColumnMeans(fe, e.columns));
      var cn := Row(CombinedName(family), ColumnMeans(fn, n.columns));
      NationalValuesShifted(fe, fn, usTruth);
      var ve, vn := ColumnValues(fe, NationCode), ColumnValues(fn, PredictedColumn);
      MeanConstant(ColumnValues(fn, ActualColumn), usTruth);
      assert ActualColumn in cn.cells && cn.cells[ActualColumn] == usTruth;
      ColumnValuesEmpty(fe, NationCode);
      ColumnValuesEmpty(fn, PredictedColumn);
      assert NationCode in ce.cells <==> |ve| > 0;
      assert PredictedColumn in cn.cells <==> |vn| > 0;
      if |ve| > 0 {
        MeanShifted(ve, vn, usTruth);
      }
      assert AlignedRow(ce, cn, usTruth);
      var oe, on := OtherRows(e.rows, family), OtherRows(n.rows, family);
      assert AlignedRows(oe + [ce], on + [cn], usTruth) by {
        forall i | 0 <= i < |oe| + 1 ensures AlignedRow((oe + [ce])[i], (on + [cn])[i], usTruth) {
          if i < |oe| {
            assert (oe + [ce])[i] == oe[i] && (on + [cn])[i] == on[i];
          }
        }
      }
    }
  }

  /** Merging every family in both tables keeps them aligned. */
  lemma {:induction false} MergeAllPreservesAlignment(e: Table, n: Table, usTruth: real, families: seq<string>)
    requires Aligned(e, n, usTruth)
    ensures Aligned(MergedAll(e, families), MergedAll(n, families), usTruth)
    decreases families
  {
    if families != [] {
      MergePreservesAlignment(e, n, usTruth, families[0]);
      MergeAllPreservesAlignment(Merged(e, families[0]), Merged(n, families[0]), usTruth, families[1..]);
    }
  }
}
