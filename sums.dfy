/**
 * Sums and means of real values as pandas computes them: `sum()` over a
 * sequence, `mean()` skipping missing values (the mean of nothing is NaN,
 * here None), and `groupby(key)[value].sum()` over (key, amount) entries.
 */
module Sums {
  import opened Wrappers

  function Sum(xs: seq<real>): real {
    if xs == [] then 0.0 else xs[0] + Sum(xs[1..])
  }

  lemma {:induction false} SumAppend(xs: seq<real>, ys: seq<real>)
    ensures Sum(xs + ys) == Sum(xs) + Sum(ys)
  {
    if xs == [] {
      assert xs + ys == ys;
    } else {
      assert (xs + ys)[1..] == xs[1..] + ys;
      SumAppend(xs[1..], ys);
    }
  }

  /** The mean of the values, None (NaN) when there are none. */
  function Mean(xs: seq<real>): (m: Option<real>)
    ensures m.Some? <==> |xs| > 0
  {
    if |xs| == 0 then None else Some(Sum(xs) / (|xs| as real))
  }

  /** Every entry of `xs` equals `a`. */
  predicate AllEqual(xs: seq<real>, a: real) {
    forall i :: 0 <= i < |xs| ==> xs[i] == a
  }

  /** `xs` is `ys` with `a` subtracted from every entry. */
  predicate Shifted(xs: seq<real>, ys: seq<real>, a: real) {
    |xs| == |ys| && forall i :: 0 <= i < |xs| ==> xs[i] == ys[i] - a
  }

  lemma {:induction false} SumConstant(xs: seq<real>, a: real)
    requires AllEqual(xs, a)
    ensures Sum(xs) == (|xs| as real) * a
  {
    if xs != [] {
      SumConstant(xs[1..], a);
    }
  }

  lemma {:induction false} SumShifted(xs: seq<real>, ys: seq<real>, a: real)
    requires Shifted(xs, ys, a)
    ensures Sum(xs) == Sum(ys) - (|ys| as real) * a
  {
    if xs != [] {
      SumShifted(xs[1..], ys[1..], a);
    }
  }

  /** The mean of equal values is that value. */
  lemma MeanConstant(xs: seq<real>, a: real)
    requires |xs| > 0 && AllEqual(xs, a)
    ensures Mean(xs) == Some(a)
  {
    SumConstant(xs, a);
    var n := |xs| as real;
    assert n > 0.0;
    assert Sum(xs) / n == n * a / n == a;
  }

  /** Subtracting the same amount from every value subtracts it from the mean. */
  lemma MeanShifted(xs: seq<real>, ys: seq<real>, a: real)
    requires |xs| > 0 && Shifted(xs, ys, a)
    ensures Mean(xs) == Some(Mean(ys).value - a)
  {
    SumShifted(xs, ys, a);
    var n := |xs| as real;
    assert Sum(xs) / n == (Sum(ys) - n * a) / n == Sum(ys) / n - a;
  }

  lemma {:induction false} SumBounds(xs: seq<real>, lo: real, hi: real)
    requires forall i :: 0 <= i < |xs| ==> lo <= xs[i] <= hi
    ensures (|xs| as real) * lo <= Sum(xs) <= (|xs| as real) * hi
  {
    if xs != [] {
      SumBounds(xs[1..], lo, hi);
    }
  }

  /** A mean lies between any lower and upper bound of its values. */
  lemma MeanBounds(xs: seq<real>, lo: real, hi: real)
    requires |xs| > 0
    requires forall i :: 0 <= i < |xs| ==> lo <= xs[i] <= hi
    ensures lo <= Mean(xs).value <= hi
  {
    SumBounds(xs, lo, hi);
    var n := |xs| as real;
    assert lo == n * lo / n && hi == n * hi / n;
  }

  lemma {:induction false} SumNonNegative(xs: seq<real>)
    requires forall i :: 0 <= i < |xs| ==> xs[i] >= 0.0
    ensures Sum(xs) >= 0.0
    ensures Sum(xs) == 0.0 ==> forall i :: 0 <= i < |xs| ==> xs[i] == 0.0
  {
    if xs != [] {
      SumNonNegative(xs[1..]);
      forall i | 1 <= i < |xs| ensures xs[i] == xs[1..][i - 1] { }
    }
  }

  lemma {:induction false} SumLess(xs: seq<real>, ys: seq<real>)
    requires |xs| == |ys| > 0
    requires forall i :: 0 <= i < |xs| ==> xs[i] < ys[i]
    ensures Sum(xs) < Sum(ys)
  {
    if |xs| > 1 {
      SumLess(xs[1..], ys[1..]);
    }
  }

  /** Values that are each below their partner have a smaller mean. */
  lemma MeanLess(xs: seq<real>, ys: seq<real>)
    requires |xs| == |ys| > 0
    requires forall i :: 0 <= i < |xs| ==> xs[i] < ys[i]
    ensures Mean(xs).value < Mean(ys).value
  {
    SumLess(xs, ys);
    var n := |xs| as real;
    assert n > 0.0;
    assert Sum(ys) / n - Sum(xs) / n == (Sum(ys) - Sum(xs)) / n;
    assert (Sum(ys) - Sum(xs)) / n > 0.0;
  }

  // ---------------------------------------------------------------------------
  // groupby(key)[value].sum()
  // ---------------------------------------------------------------------------

  datatype Entry = Entry(key: string, amount: real)

  function KeysOf(es: seq<Entry>): set<string> {
    set e | e in es :: e.key
  }

  /** The reference total of `k`: the amounts of the entries with that key, in order. */
  function KeySum(es: seq<Entry>, k: string): real {
    if es == [] then 0.0 else (if es[0].key == k then es[0].amount else 0.0) + KeySum(es[1..], k)
  }

  /** `groupby(key).sum()`: a running total per key, each entry added to the total of its key. */
  function GroupSum(es: seq<Entry>): map<string, real> {
    if es == [] then map[]
    else
      var totals := GroupSum(es[..|es| - 1]);
      var e := es[|es| - 1];
      totals[e.key := (if e.key in totals then totals[e.key] else 0.0) + e.amount]
  }

  lemma {:induction false} KeySumAppend(es: seq<Entry>, e: Entry, k: string)
    ensures KeySum(es + [e], k) == KeySum(es, k) + (if e.key == k then e.amount else 0.0)
  {
    if es != [] {
      assert (es + [e])[1..] == es[1..] + [e];
      KeySumAppend(es[1..], e, k);
    }
  }

  lemma {:induction false} KeySumAbsent(es: seq<Entry>, k: string)
    requires k !in KeysOf(es)
    ensures KeySum(es, k) == 0.0
  {
    if es != [] {
      assert es[0] in es;
      assert KeysOf(es[1..]) <= KeysOf(es);
      KeySumAbsent(es[1..], k);
    }
  }

  /** Grouping gives a total for exactly the keys that occur, and each total is the sum of its entries. */
  lemma {:induction false} GroupSumIsKeySum(es: seq<Entry>)
    ensures GroupSum(es).Keys == KeysOf(es)
    ensures forall k :: k in GroupSum(es) ==> GroupSum(es)[k] == KeySum(es, k)
  {
    if es != [] {
      var init := es[..|es| - 1];
      var e := es[|es| - 1];
      GroupSumIsKeySum(init);
      assert es == init + [e];
      assert KeysOf(es) == KeysOf(init) + {e.key};
      forall k | k in GroupSum(es)
        ensures GroupSum(es)[k] == KeySum(es, k)
      {
        KeySumAppend(init, e, k);
        if k !in KeysOf(init) {
          KeySumAbsent(init, k);
        }
      }
    }
  }
}
