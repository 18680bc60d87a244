/**
 * File Selector: for one model, choose the forecast file whose embedded date
 * is the latest inside the submission window that ends at the projection
 * date (`find_last_projections`), and the per-model scan that keeps only the
 * models for which such a file exists.
 */
module FileSelector {
  import opened Wrappers
  import opened Dates
  import opened Text

  /** From 2020-07-20 on, forecasts made Tuesday to Monday count; before, Friday to Monday. */
  const ToleranceSwitch: int := 737626

  /** 737626 is the ordinal of 2020-07-20, a Monday. */
  lemma ToleranceSwitchDate()
    ensures Valid(Date(2020, 7, 20)) && ToOrdinal(Date(2020, 7, 20)) == ToleranceSwitch
    ensures Weekday(ToleranceSwitch) == Monday
  {
  }

  function Tolerance(projDate: int): int {
    if projDate >= ToleranceSwitch then 6 else 3
  }

  /** The date embedded in a file name: its base name's first ten characters, when they form a date. */
  function FileDate(fname: string): Option<int> {
    ParseOrdinal(Prefix(Basename(fname), 10))
  }

  predicate InWindow(fileDate: int, projDate: int) {
    fileDate <= projDate && projDate - fileDate <= Tolerance(projDate)
  }

  /** The embedded date of every name in the list, in list order. */
  function FileDates(fnames: seq<string>): (ds: seq<Option<int>>)
    ensures |ds| == |fnames|
  {
    if fnames == [] then [] else [FileDate(fnames[0])] + FileDates(fnames[1..])
  }

  /** Each entry of `FileDates` is the date embedded in the name at the same position. */
  lemma {:induction false} FileDatesAt(fnames: seq<string>)
    ensures forall j :: 0 <= j < |fnames| ==> FileDates(fnames)[j] == FileDate(fnames[j])
  {
    if fnames != [] {
      FileDatesAt(fnames[1..]);
      assert forall j :: 1 <= j < |fnames| ==> fnames[j] == fnames[1..][j - 1];
    }
  }

  /** The `j`-th file may be used for `projDate`: it carries a date inside the window. */
  predicate QualifiesAt(ds: seq<Option<int>>, projDate: int, j: int)
    requires 0 <= j < |ds|
  {
    ds[j].Some? && InWindow(ds[j].value, projDate)
  }

  /**
   * Among the first `k` dates, index `i` is the one chosen: it qualifies, no
   * qualifying date among the first `k` is later, and every earlier qualifying
   * date is strictly older (equal dates keep the first file).
   */
  ghost predicate ChosenAmong(ds: seq<Option<int>>, projDate: int, i: int, k: int)
    requires 0 <= k <= |ds|
  {
    && 0 <= i < k
    && QualifiesAt(ds, projDate, i)
    && (forall j :: 0 <= j < k && QualifiesAt(ds, projDate, j) ==> ds[j].value <= ds[i].value)
    && (forall j :: 0 <= j < i && QualifiesAt(ds, projDate, j) ==> ds[j].value < ds[i].value)
  }

  /** No file of the list lies in the window. */
  predicate NoneQualifies(fnames: seq<string>, projDate: int) {
    !AnyQualifies(FileDates(fnames), projDate)
  }

  /** Some date of the list lies in the window. */
  predicate AnyQualifies(ds: seq<Option<int>>, projDate: int) {
    if ds == [] then false
    else (ds[0].Some? && InWindow(ds[0].value, projDate)) || AnyQualifies(ds[1..], projDate)
  }

  lemma {:induction false} AnyQualifiesIff(ds: seq<Option<int>>, projDate: int)
    ensures AnyQualifies(ds, projDate) <==> exists j :: 0 <= j < |ds| && QualifiesAt(ds, projDate, j)
  {
    if ds != [] {
      AnyQualifiesIff(ds[1..], projDate);
      assert QualifiesAt(ds, projDate, 0) <==> ds[0].Some? && InWindow(ds[0].value, projDate);
      if exists j :: 0 <= j < |ds| && QualifiesAt(ds, projDate, j) {
        var j :| 0 <= j < |ds| && QualifiesAt(ds, projDate, j);
        if j > 0 {
          assert QualifiesAt(ds[1..], projDate, j - 1);
        }
      }
      if AnyQualifies(ds[1..], projDate) {
        var j :| 0 <= j < |ds| - 1 && QualifiesAt(ds[1..], projDate, j);
        assert QualifiesAt(ds, projDate, j + 1);
      }
    }
  }

  /** File `i` is the one `find_last_projections` must return for this list. */
  ghost predicate Chosen(fnames: seq<string>, projDate: int, i: int) {
    ChosenAmong(FileDates(fnames), projDate, i, |fnames|)
  }

  /** `fname`, dated `date`, is the file chosen from the list. */
  ghost predicate Picks(fnames: seq<string>, projDate: int, fname: string, date: int) {
    exists i :: Chosen(fnames, projDate, i) && fnames[i] == fname && FileDates(fnames)[i] == Some(date)
  }

  /**
   * The index the loop of `find_last_projections` holds after the first `k`
   * dates, -1 while it holds none: a date inside the window replaces the
   * current pick when there is none or the date is later; an equal date keeps
   * the earlier file.
   */
  function PickAmong(ds: seq<Option<int>>, projDate: int, k: nat): (i: int)
    requires k <= |ds|
    ensures -1 <= i < k
    ensures i >= 0 ==> QualifiesAt(ds, projDate, i)
  {
    if k == 0 then -1
    else
      var prev := PickAmong(ds, projDate, k - 1);
      if ds[k - 1].Some? && InWindow(ds[k - 1].value, projDate) && (prev < 0 || ds[k - 1].value > ds[prev].value)
      then k - 1
      else prev
  }

  /** The file the loop returns with its date, None when it returns none. */
  function Choice(fnames: seq<string>, projDate: int): Option<(string, int)> {
    var ds := FileDates(fnames);
    var i := PickAmong(ds, projDate, |ds|);
    if i < 0 then None else Some((fnames[i], ds[i].value))
  }

  /**
   * The loop's pick is the one the selection rule prescribes: none when no
   * date among the first `k` qualifies, otherwise the latest qualifying date,
   * earliest file among equals.
   */
  lemma {:induction false} PickAmongChosen(ds: seq<Option<int>>, projDate: int, k: nat)
    requires k <= |ds|
    ensures PickAmong(ds, projDate, k) < 0 ==> forall j :: 0 <= j < k ==> !QualifiesAt(ds, projDate, j)
    ensures PickAmong(ds, projDate, k) >= 0 ==> ChosenAmong(ds, projDate, PickAmong(ds, projDate, k), k)
  {
    if k > 0 {
      PickAmongChosen(ds, projDate, k - 1);
      assert QualifiesAt(ds, projDate, k - 1) <==> ds[k - 1].Some? && InWindow(ds[k - 1].value, projDate);
    }
  }

  /** The choice over the whole list means: no file qualifies, or the chosen file is picked. */
  lemma ChoiceMeaning(fnames: seq<string>, projDate: int)
    ensures Choice(fnames, projDate).None? <==> NoneQualifies(fnames, projDate)
    ensures Choice(fnames, projDate).Some? ==>
      Picks(fnames, projDate, Choice(fnames, projDate).value.0, Choice(fnames, projDate).value.1)
  {
    var ds := FileDates(fnames);
    PickAmongChosen(ds, projDate, |ds|);
    AnyQualifiesIff(ds, projDate);
    var i := PickAmong(ds, projDate, |ds|);
    if i >= 0 {
      assert Chosen(fnames, projDate, i);
    }
  }

  /** What `find_last_projections` returns, or the assertion that fails on an unsorted list. */
  datatype Selection = NotSorted | NoneInRange | Found(fname: string, date: int)

  method FindLastProjections(fnames: seq<string>, projDate: int) returns (r: Selection)
    ensures r.NotSorted? <==> !Sorted(fnames)
    ensures r.NoneInRange? <==> Sorted(fnames) && Choice(fnames, projDate).None?
    ensures r.Found? ==> Choice(fnames, projDate) == Some((r.fname, r.date))
  {
    if !Sorted(fnames) {
      return NotSorted;
    }
    var ds := FileDates(fnames);
    var lastName: string := "";
    var lastDate: Option<int> := None;
    for k := 0 to |fnames|
      invariant var i := PickAmong(ds, projDate, k);
        if i < 0 then lastDate.None? else lastDate == ds[i] && lastName == fnames[i]
    {
      var fileDate := ds[k];
      if fileDate.Some? && InWindow(fileDate.value, projDate) {
        if lastDate.None? || fileDate.value > lastDate.value {
          lastName, lastDate := fnames[k], fileDate;
        }
      }
    }
    if lastDate.None? {
      return NoneInRange;
    }
    return Found(lastName, lastDate.value);
  }

  /** The postcondition of `FindLastProjections` leaves no choice: at most one index is chosen. */
  lemma ChosenUnique(fnames: seq<string>, projDate: int, i: int, j: int)
    requires Chosen(fnames, projDate, i) && Chosen(fnames, projDate, j)
    ensures i == j
  {
  }

  /**
   * The scan over model directories (`main`, lines 143-159): a model is kept
   * exactly when its sorted file list yields a choice, and then it is paired
   * with the chosen file and its date.
   */
  method SelectModelFiles(listings: map<string, seq<string>>, projDate: int) returns (picked: map<string, (string, int)>)
    requires forall m :: m in listings ==> Sorted(listings[m])
    ensures picked.Keys <= listings.Keys
    ensures forall m :: m in listings ==> Kept(picked, m, Choice(listings[m], projDate))
  {
    picked := map[];
    var todo := listings.Keys;
    while todo != {}
      invariant todo <= listings.Keys
      invariant picked.Keys <= listings.Keys - todo
      invariant forall m :: m in listings.Keys - todo ==> Kept(picked, m, Choice(listings[m], projDate))
      decreases todo
    {
      var m :| m in todo;
      var r := FindLastProjections(listings[m], projDate);
      if r.Found? {
        picked := picked[m := (r.fname, r.date)];
      }
      todo := todo - {m};
    }
  }

  /** Model `m` is in `picked` exactly when it has a choice, paired with that choice. */
  predicate Kept(picked: map<string, (string, int)>, m: string, choice: Option<(string, int)>) {
    if choice.Some? then m in picked && picked[m] == choice.value else m !in picked
  }

  /** A model is kept exactly when one of its files qualifies, and what is kept is the chosen file. */
  lemma SelectedModelsQualify(listings: map<string, seq<string>>, projDate: int, picked: map<string, (string, int)>)
    requires picked.Keys <= listings.Keys
    requires forall m :: m in listings ==> Kept(picked, m, Choice(listings[m], projDate))
    ensures forall m :: m in listings ==> (m in picked <==> !NoneQualifies(listings[m], projDate))
    ensures forall m :: m in picked ==> Picks(listings[m], projDate, picked[m].0, picked[m].1)
  {
    forall m | m in listings ensures m in picked <==> !NoneQualifies(listings[m], projDate) {
      ChoiceMeaning(listings[m], projDate);
    }
    forall m | m in picked ensures Picks(listings[m], projDate, picked[m].0, picked[m].1) {
      ChoiceMeaning(listings[m], projDate);
    }
  }
}
