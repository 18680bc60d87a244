/**
 * The location universe of one run (`main`, lines 116-137): the map from a
 * location code to its display name (`fips_to_us_state`) and the list of
 * codes that are evaluated (`fips_to_evaluate`), built from the rows of the
 * hub's locations table for county mode or for state mode.
 */
module Locations {
  import opened Wrappers

  /** One row of the locations table; `abbreviation` is None for county rows. */
  datatype LocationRow = LocationRow(location: string, abbreviation: Option<string>, name: string)

  datatype Universe = Universe(names: map<string, string>, evaluate: seq<string>)

  datatype LocationError = MissingUSName | MissingLocations(count: nat)

  /** Every evaluated code is a key of the name map. */
  predicate WellFormed(u: Universe) {
    forall c :: c in u.evaluate ==> c in u.names
  }

  predicate NoDuplicates<T(==)>(xs: seq<T>) {
    forall i, j :: 0 <= i < j < |xs| ==> xs[i] != xs[j]
  }

  /** The elements of `xs` in order of first occurrence (the key order of a Python dict). */
  function Distinct(xs: seq<string>): (ys: seq<string>)
    ensures forall x :: x in ys <==> x in xs
    ensures NoDuplicates(ys)
  {
    if xs == [] then []
    else
      var init := Distinct(xs[..|xs| - 1]);
      var last := xs[|xs| - 1];
      assert forall x :: x in xs <==> x in xs[..|xs| - 1] || x == last;
      if last in init then init else init + [last]
  }

  lemma {:induction false} DistinctNoLonger(xs: seq<string>)
    ensures |Distinct(xs)| <= |xs|
  {
    if xs != [] {
      DistinctNoLonger(xs[..|xs| - 1]);
    }
  }

  // ---------------------------------------------------------------------------
  // County mode
  // ---------------------------------------------------------------------------

  const DistrictOfColumbiaCounty := "11001"

  /** Rows kept in county mode: those without an abbreviation, and the national row. */
  predicate IsCountyRow(r: LocationRow) {
    r.abbreviation.None? || r.location == "US"
  }

  function CountyCodes(rows: seq<LocationRow>): (cs: seq<string>)
    ensures |cs| <= |rows|
    ensures forall c :: c in cs <==> exists i :: 0 <= i < |rows| && IsCountyRow(rows[i]) && rows[i].location == c
  {
    if rows == [] then []
    else
      var init := CountyCodes(rows[..|rows| - 1]);
      var last := rows[|rows| - 1];
      assert forall i :: 0 <= i < |rows| - 1 ==> rows[..|rows| - 1][i] == rows[i];
      if IsCountyRow(last) then init + [last.location] else init
  }

  function Without(xs: seq<string>, x: string): (ys: seq<string>)
    ensures forall y :: y in ys <==> y in xs && y != x
    ensures NoDuplicates(xs) ==> NoDuplicates(ys)
  {
    if xs == [] then []
    else
      assert NoDuplicates(xs) ==> NoDuplicates(xs[1..]) && xs[0] !in xs[1..] by {
        if NoDuplicates(xs) {
          forall i, j | 0 <= i < j < |xs[1..]| ensures xs[1..][i] != xs[1..][j] {
            assert xs[1..][i] == xs[i + 1] && xs[1..][j] == xs[j + 1];
          }
          forall k | 0 <= k < |xs[1..]| ensures xs[1..][k] != xs[0] {
            assert xs[1..][k] == xs[k + 1];
          }
        }
      }
      if xs[0] == x then Without(xs[1..], x)
      else [xs[0]] + Without(xs[1..], x)
  }

  /**
   * County mode: every county code and "US" name themselves, and all of them
   * but the District of Columbia county are evaluated.
   */
  function CountyUniverse(rows: seq<LocationRow>): (u: Universe)
    ensures forall c :: c in u.names <==> exists i :: 0 <= i < |rows| && IsCountyRow(rows[i]) && rows[i].location == c
    ensures forall c :: c in u.names ==> u.names[c] == c
    ensures forall c :: c in u.evaluate <==> c in u.names && c != DistrictOfColumbiaCounty
    ensures NoDuplicates(u.evaluate)
    ensures WellFormed(u)
  {
    var codes := CountyCodes(rows);
    Universe(map c | c in codes :: c, Without(Distinct(codes), DistrictOfColumbiaCounty))
  }

  // ---------------------------------------------------------------------------
  // State mode
  // ---------------------------------------------------------------------------

  const Territories: seq<string> := ["AS", "GU", "MP", "PR", "VI", "UM"]

  /** The locations table has 58 rows with an abbreviation: the nation, 50 states, DC and 6 territories. */
  const ExpectedStateRows := 58

  function StateRows(rows: seq<LocationRow>): (s: seq<LocationRow>)
    ensures |s| <= |rows|
    ensures forall r :: r in s <==> r in rows && r.abbreviation.Some?
  {
    if rows == [] then []
    else
      var init := StateRows(rows[..|rows| - 1]);
      var last := rows[|rows| - 1];
      assert forall r :: r in rows <==> r in rows[..|rows| - 1] || r == last;
      if last.abbreviation.Some? then init + [last] else init
  }

  /** `set_index('abbreviation')[column].to_dict()`: a later row with the same abbreviation wins. */
  function ByAbbreviation(rows: seq<LocationRow>, fips: bool): (m: map<string, string>)
    requires forall r :: r in rows ==> r.abbreviation.Some?
    ensures forall a :: a in m <==> exists r :: r in rows && r.abbreviation == Some(a)
  {
    if rows == [] then map[]
    else
      var last := rows[|rows| - 1];
      assert forall r :: r in rows <==> r in rows[..|rows| - 1] || r == last;
      ByAbbreviation(rows[..|rows| - 1], fips)[last.abbreviation.value := if fips then last.location else last.name]
  }

  function Abbreviations(rows: seq<LocationRow>): (abbrs: seq<string>)
    requires forall r :: r in rows ==> r.abbreviation.Some?
    ensures forall a :: a in abbrs <==> exists r :: r in rows && r.abbreviation == Some(a)
    ensures NoDuplicates(abbrs)
  {
    Distinct(AbbreviationColumn(rows))
  }

  function AbbreviationColumn(rows: seq<LocationRow>): (col: seq<string>)
    requires forall r :: r in rows ==> r.abbreviation.Some?
    ensures forall a :: a in col <==> exists r :: r in rows && r.abbreviation == Some(a)
  {
    if rows == [] then []
    else
      assert forall r :: r in rows <==> r == rows[0] || r in rows[1..];
      [rows[0].abbreviation.value] + AbbreviationColumn(rows[1..])
  }

  lemma NationIsNotATerritory()
    ensures "US" !in Territories
  {
  }

  /** A one-character code gets its missing leading zero; other codes are kept. */
  function PadFips(code: string): (p: string)
    ensures |p| != 1
    ensures |p| >= |code| && p[|p| - |code|..] == code
    ensures |code| != 1 ==> p == code
    ensures |code| == 1 ==> p == "0" + code
  {
    if |code| == 1 then "0" + code else code
  }

  /** The loop of lines 130-133, which rewrites the values of `abbr_to_fips` in place. */
  method PadFipsCodes(codes: map<string, string>) returns (padded: map<string, string>)
    ensures padded.Keys == codes.Keys
    ensures forall k :: k in codes ==> padded[k] == PadFips(codes[k])
  {
    padded := codes;
    var todo := codes.Keys;
    while todo != {}
      invariant todo <= codes.Keys
      invariant padded.Keys == codes.Keys
      invariant forall k :: k in codes && k !in todo ==> padded[k] == PadFips(codes[k])
      invariant forall k :: k in todo ==> padded[k] == codes[k]
      decreases todo
    {
      var k :| k in todo;
      if |padded[k]| == 1 {
        padded := padded[k := "0" + padded[k]];
      }
      todo := todo - {k};
    }
  }

  /** The evaluated code of region `a`: "US" for the nation, its padded FIPS code otherwise. */
  function RegionCode(padded: map<string, string>, a: string): string
    requires a in padded
  {
    if a == "US" then "US" else padded[a]
  }

  /** `fips_to_evaluate`: the code of every region that is not a territory, in region order. */
  function EvaluatedCodes(order: seq<string>, padded: map<string, string>): (cs: seq<string>)
    requires forall a :: a in order ==> a in padded
    ensures forall c :: c in cs <==> exists a :: a in order && a !in Territories && RegionCode(padded, a) == c
  {
    if order == [] then []
    else
      assert forall a :: a in order <==> a == order[0] || a in order[1..];
      var rest := EvaluatedCodes(order[1..], padded);
      if order[0] in Territories then rest else [RegionCode(padded, order[0])] + rest
  }

  function NonTerritories(order: seq<string>): (rs: seq<string>)
    ensures forall a :: a in rs <==> a in order && a !in Territories
  {
    if order == [] then []
    else
      assert forall a :: a in order <==> a == order[0] || a in order[1..];
      var rest := NonTerritories(order[1..]);
      if order[0] in Territories then rest else [order[0]] + rest
  }

  lemma {:induction false} EvaluatedCodesCount(order: seq<string>, padded: map<string, string>)
    requires forall a :: a in order ==> a in padded
    ensures |EvaluatedCodes(order, padded)| == |NonTerritories(order)|
  {
    if order != [] {
      EvaluatedCodesCount(order[1..], padded);
    }
  }

  /** `fips_to_us_state`: padded code to region name; a later region with the same code wins. */
  function NamesByCode(order: seq<string>, padded: map<string, string>, names: map<string, string>): (m: map<string, string>)
    requires forall a :: a in order ==> a in padded && a in names
    ensures forall c :: c in m <==> exists a :: a in order && padded[a] == c
    ensures forall c :: c in m ==> exists a :: a in order && padded[a] == c && m[c] == names[a]
  {
    if order == [] then map[]
    else
      var last := order[|order| - 1];
      assert forall a :: a in order <==> a in order[..|order| - 1] || a == last;
      NamesByCode(order[..|order| - 1], padded, names)[padded[last] := names[last]]
  }

  predicate HasNationRow(rows: seq<LocationRow>) {
    exists row :: row in rows && row.abbreviation == Some("US")
  }

  /** The code under which region `a` is evaluated, from the unpadded `abbr_to_fips`. */
  function StateCode(fips: map<string, string>, a: string): string
    requires a in fips
  {
    if a == "US" then "US" else PadFips(fips[a])
  }

  /**
   * What state mode promises about its universe, given the regions' unpadded
   * codes `fips` and their order: the nation is evaluated, no evaluated code
   * is a bare single digit, exactly the non-territory regions are evaluated
   * (one entry per region), the name map is keyed by every region's padded
   * code, and the evaluated codes are keys of the name map as soon as the
   * nation's own code is "US".
   */
  ghost predicate DescribesRegions(fips: map<string, string>, order: seq<string>, u: Universe) {
    && "US" in u.evaluate
    && (forall c :: c in u.evaluate ==> |c| != 1)
    && (forall c :: c in u.evaluate <==> (exists a :: a in fips && a !in Territories && c == StateCode(fips, a)))
    && (forall c :: c in u.names <==> (exists a :: a in fips && c == PadFips(fips[a])))
    && |u.evaluate| == |NonTerritories(order)|
    && ("US" in u.names ==> WellFormed(u))
  }

  ghost predicate DescribesStates(rows: seq<LocationRow>, u: Universe) {
    var stateRows := StateRows(rows);
    DescribesRegions(ByAbbreviation(stateRows, true), Abbreviations(stateRows), u)
  }

  lemma RegionsFacts(fips: map<string, string>, order: seq<string>, padded: map<string, string>, names: map<string, string>)
    requires "US" in order
    requires forall a :: a in order <==> a in fips
    requires forall a :: a in order ==> a in names
    requires padded.Keys == fips.Keys
    requires forall k :: k in padded ==> padded[k] == PadFips(fips[k])
    ensures DescribesRegions(fips, order, Universe(NamesByCode(order, padded, names), EvaluatedCodes(order, padded)))
  {
    NationIsNotATerritory();
    assert RegionCode(padded, "US") == "US";
    EvaluatedCodesCount(order, padded);
    EvaluatedCodesAreStateCodes(fips, order, padded);
    NamesArePaddedCodes(fips, order, padded, names);
    EvaluatedCodesNamed(order, padded, names);
    EvaluatedCodesNotBare(order, padded);
  }

  lemma EvaluatedCodesNotBare(order: seq<string>, padded: map<string, string>)
    requires forall a :: a in order ==> a in padded
    requires forall k :: k in padded ==> |padded[k]| != 1
    ensures forall c :: c in EvaluatedCodes(order, padded) ==> |c| != 1
  {
    forall c | c in EvaluatedCodes(order, padded) ensures |c| != 1 {
      var a :| a in order && a !in Territories && RegionCode(padded, a) == c;
    }
  }

  lemma EvaluatedCodesAreStateCodes(fips: map<string, string>, order: seq<string>, padded: map<string, string>)
    requires forall a :: a in order <==> a in fips
    requires padded.Keys == fips.Keys
    requires forall k :: k in padded ==> padded[k] == PadFips(fips[k])
    ensures forall c :: c in EvaluatedCodes(order, padded) <==> (exists a :: a in fips && a !in Territories && c == StateCode(fips, a))
  {
    var evaluate := EvaluatedCodes(order, padded);
    forall c | c in evaluate
      ensures exists a :: a in fips && a !in Territories && c == StateCode(fips, a)
    {
      var a :| a in order && a !in Territories && RegionCode(padded, a) == c;
      StateCodeIsRegionCode(fips, padded, a);
    }
    forall c | exists a :: a in fips && a !in Territories && c == StateCode(fips, a)
      ensures c in evaluate
    {
      var a :| a in fips && a !in Territories && c == StateCode(fips, a);
      StateCodeIsRegionCode(fips, padded, a);
      assert a in order && a !in Territories && RegionCode(padded, a) == c;
    }
  }

  lemma StateCodeIsRegionCode(fips: map<string, string>, padded: map<string, string>, a: string)
    requires a in fips && padded.Keys == fips.Keys
    requires forall k :: k in padded ==> padded[k] == PadFips(fips[k])
    ensures StateCode(fips, a) == RegionCode(padded, a)
  {
  }

  lemma NamesArePaddedCodes(fips: map<string, string>, order: seq<string>, padded: map<string, string>, names: map<string, string>)
    requires forall a :: a in order <==> a in fips
    requires forall a :: a in order ==> a in names
    requires padded.Keys == fips.Keys
    requires forall k :: k in padded ==> padded[k] == PadFips(fips[k])
    ensures forall c :: c in NamesByCode(order, padded, names) <==> (exists a :: a in fips && c == PadFips(fips[a]))
  {
    var m := NamesByCode(order, padded, names);
    forall c
      ensures c in m <==> (exists a :: a in fips && c == PadFips(fips[a]))
    {
      if c in m {
        var a :| a in order && padded[a] == c;
        assert a in fips && c == PadFips(fips[a]);
      }
      if exists a :: a in fips && c == PadFips(fips[a]) {
        var a :| a in fips && c == PadFips(fips[a]);
        assert a in order && padded[a] == c;
      }
    }
  }

  lemma EvaluatedCodesNamed(order: seq<string>, padded: map<string, string>, names: map<string, string>)
    requires forall a :: a in order ==> a in padded && a in names
    ensures var m := NamesByCode(order, padded, names);
      "US" in m ==> forall c :: c in EvaluatedCodes(order, padded) ==> c in m
  {
    var m := NamesByCode(order, padded, names);
    if "US" in m {
      forall c | c in EvaluatedCodes(order, padded)
        ensures c in m
      {
        var a :| a in order && a !in Territories && RegionCode(padded, a) == c;
      }
    }
  }

  /**
   * State mode: the rows with an abbreviation; the national row must be there
   * and there must be 58 of them; codes are padded; territories are not evaluated.
   */
  method StateUniverse(rows: seq<LocationRow>) returns (r: Result<Universe, LocationError>)
    ensures r == Err(MissingUSName) <==> !HasNationRow(rows)
    ensures r.Err? && r.error.MissingLocations? <==> HasNationRow(rows) && |StateRows(rows)| != ExpectedStateRows
    ensures r.Ok? ==> DescribesStates(rows, r.value)
  {
    var stateRows := StateRows(rows);
    var abbrToName := ByAbbreviation(stateRows, false);
    var abbrToFips := ByAbbreviation(stateRows, true);
    if "US" !in abbrToName {
      return Err(MissingUSName);
    }
    if |stateRows| != ExpectedStateRows {
      return Err(MissingLocations(|stateRows|));
    }
    var padded := PadFipsCodes(abbrToFips);
    var order := Abbreviations(stateRows);
    var names := NamesByCode(order, padded, abbrToName);
    var evaluate := EvaluatedCodes(order, padded);
    RegionsFacts(abbrToFips, order, padded, abbrToName);
    r := Ok(Universe(names, evaluate));
  }
}
