/** Reductions over sequences of durations: the numpy `sum`, `mean`, `min`, `max`,
    `abs` and `round` the analyzer relies on, over exact reals. */
module Stats {

  /** Every element is strictly positive. */
  ghost predicate Positive(s: seq<real>) {
    forall i :: 0 <= i < |s| ==> s[i] > 0.0
  }

  /** Every element lies in the closed interval [lo, hi]. */
  ghost predicate Within(s: seq<real>, lo: real, hi: real) {
    forall i :: 0 <= i < |s| ==> lo <= s[i] <= hi
  }

  function Abs(x: real): (r: real)
    ensures r >= 0.0 && (r == x || r == -x)
  {
    if x < 0.0 then -x else x
  }

  function MaxReal(a: real, b: real): (r: real)
    ensures r >= a && r >= b && (r == a || r == b)
  {
    if a < b then b else a
  }

  /** Sum of the elements; positive when every element is. */
  function Sum(s: seq<real>): (r: real)
    ensures s != [] && Positive(s) ==> r > 0.0
  {
    if s == [] then 0.0 else s[0] + Sum(s[1..])
  }

  /** Arithmetic mean; the empty sequence has no mean and is given 0. */
  function Mean(s: seq<real>): (r: real)
    ensures s != [] && Positive(s) ==> r > 0.0
  {
    if s == [] then 0.0 else Sum(s) / (|s| as real)
  }

  /** Smallest element. */
  function Min(s: seq<real>): (r: real)
    requires s != []
    ensures r in s
    ensures forall i :: 0 <= i < |s| ==> r <= s[i]
  {
    if |s| == 1 then s[0]
    else
      var m := Min(s[1..]);
      if s[0] <= m then s[0] else m
  }

  /** Largest element. */
  function Max(s: seq<real>): (r: real)
    requires s != []
    ensures r in s
    ensures forall i :: 0 <= i < |s| ==> s[i] <= r
  {
    if |s| == 1 then s[0]
    else
      var m := Max(s[1..]);
      if m <= s[0] then s[0] else m
  }

  /** The distance from `x` to the integer nearest it, |x - round(x)|; which way
      a half is rounded does not change this distance. */
  function NearestIntDistance(x: real): (r: real)
    ensures 0.0 <= r <= 0.5
    ensures r == x - x.Floor as real || r == (x.Floor + 1) as real - x
  {
    var f := x - x.Floor as real;
    if f <= 0.5 then f else 1.0 - f
  }

  /** No integer is closer to `x` than the one `NearestIntDistance` measures to. */
  lemma NearestIntDistanceIsNearest(x: real, k: int)
    ensures NearestIntDistance(x) <= Abs(x - k as real)
  {
    if k > x.Floor {
      assert k >= x.Floor + 1;
    }
  }

  lemma {:induction false} SumLower(s: seq<real>, lo: real)
    requires forall i :: 0 <= i < |s| ==> lo <= s[i]
    ensures (|s| as real) * lo <= Sum(s)
  {
    if s != [] {
      SumLower(s[1..], lo);
      var m := |s[1..]| as real;
      assert (|s| as real) * lo == m * lo + lo;
    }
  }

  lemma {:induction false} SumUpper(s: seq<real>, hi: real)
    requires forall i :: 0 <= i < |s| ==> s[i] <= hi
    ensures Sum(s) <= (|s| as real) * hi
  {
    if s != [] {
      SumUpper(s[1..], hi);
      var m := |s[1..]| as real;
      assert (|s| as real) * hi == m * hi + hi;
    }
  }

  lemma SumBounds(s: seq<real>, lo: real, hi: real)
    requires Within(s, lo, hi)
    ensures (|s| as real) * lo <= Sum(s) <= (|s| as real) * hi
  {
    SumLower(s, lo);
    SumUpper(s, hi);
  }

  /** A mean lies between any bounds of the elements it averages. */
  lemma MeanBounds(s: seq<real>, lo: real, hi: real)
    requires s != [] && Within(s, lo, hi)
    ensures lo <= Mean(s) <= hi
  {
    SumBounds(s, lo, hi);
    QuotientBounds(Sum(s), |s| as real, lo, hi);
  }

  lemma QuotientBounds(x: real, n: real, lo: real, hi: real)
    requires n > 0.0 && n * lo <= x <= n * hi
    ensures lo <= x / n <= hi
  {
    var q := x / n;
    assert (q - lo) * n == x - n * lo;
    assert (hi - q) * n == n * hi - x;
  }

  /** The mean lies between the minimum and the maximum. */
  lemma MeanBetweenMinMax(s: seq<real>)
    requires s != []
    ensures Min(s) <= Mean(s) <= Max(s)
  {
    MeanBounds(s, Min(s), Max(s));
  }

  lemma MeanSingleton(x: real)
    ensures Mean([x]) == x
  {
    assert Sum([x]) == x + Sum([]);
  }

  lemma {:induction false} SumZero(s: seq<real>)
    requires forall i :: 0 <= i < |s| ==> s[i] == 0.0
    ensures Sum(s) == 0.0
  {
    if s != [] {
      SumZero(s[1..]);
    }
  }
}
