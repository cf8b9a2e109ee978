/**
 * Sums and means of lists of numbers, as the views compute them with
 * `reduce((a, b) => a + b, 0)` and a division by the length, and the facts
 * about real division the bounds on those means rest on.
 *
 * Means are exact rationals (`real`); the browser computes them in floating point.
 */
module Numbers {

  /** `s.reduce((a, b) => a + b, 0)`. */
  function Sum(s: seq<int>): int {
    if s == [] then 0 else Sum(s[..|s| - 1]) + s[|s| - 1]
  }

  /** The mean of a list of integers, or 0 for an empty one. */
  function Mean(s: seq<int>): real {
    if s == [] then 0.0 else Sum(s) as real / |s| as real
  }

  function SumReal(s: seq<real>): real {
    if s == [] then 0.0 else SumReal(s[..|s| - 1]) + s[|s| - 1]
  }

  /** The mean of a list of reals, or 0 for an empty one. */
  function MeanReal(s: seq<real>): real {
    if s == [] then 0.0 else SumReal(s) / |s| as real
  }

  lemma {:induction false} SumBounds(s: seq<int>, lo: int, hi: int)
    requires forall i :: 0 <= i < |s| ==> lo <= s[i] <= hi
    ensures |s| * lo <= Sum(s) <= |s| * hi
  {
    if s != [] {
      SumBounds(s[..|s| - 1], lo, hi);
      assert |s| * lo == (|s| - 1) * lo + lo && |s| * hi == (|s| - 1) * hi + hi;
    }
  }

  /** The mean of values within [lo, hi] is within [lo, hi]. */
  lemma MeanBounds(s: seq<int>, lo: int, hi: int)
    requires s != []
    requires forall i :: 0 <= i < |s| ==> lo <= s[i] <= hi
    ensures lo as real <= Mean(s) <= hi as real
  {
    SumBounds(s, lo, hi);
    QuotientWithin(Sum(s), |s|, lo, hi);
  }

  /** A total between count * lo and count * hi, divided by the count, lies in [lo, hi]. */
  lemma QuotientWithin(total: int, count: int, lo: int, hi: int)
    requires 0 < count && count * lo <= total <= count * hi
    ensures lo as real <= total as real / count as real <= hi as real
  {
    ProductAsReal(count, lo);
    ProductAsReal(count, hi);
    var n := count as real;
    var t := total as real;
    RatioWithin(t / n, t, n, lo as real, hi as real);
  }

  lemma ProductAsReal(a: int, b: int)
    ensures (a * b) as real == a as real * b as real
  {
  }

  lemma {:induction false} SumRealBounds(s: seq<real>, lo: real, hi: real)
    requires forall i :: 0 <= i < |s| ==> lo <= s[i] <= hi
    ensures |s| as real * lo <= SumReal(s) <= |s| as real * hi
  {
    if s != [] {
      SumRealBounds(s[..|s| - 1], lo, hi);
    }
  }

  /** The mean of reals within [lo, hi] is within [lo, hi]. */
  lemma MeanRealBounds(s: seq<real>, lo: real, hi: real)
    requires s != []
    requires forall i :: 0 <= i < |s| ==> lo <= s[i] <= hi
    ensures lo <= MeanReal(s) <= hi
  {
    SumRealBounds(s, lo, hi);
    var n := |s| as real;
    RatioWithin(SumReal(s) / n, SumReal(s), n, lo, hi);
  }

  lemma {:induction false} SumRealPositive(s: seq<real>)
    requires forall i :: 0 <= i < |s| ==> s[i] > 0.0
    ensures s != [] ==> SumReal(s) > 0.0
  {
    if |s| > 1 {
      SumRealPositive(s[..|s| - 1]);
    }
  }

  lemma {:induction false} SumPositive(s: seq<int>)
    requires forall i :: 0 <= i < |s| ==> s[i] > 0
    ensures s != [] ==> Sum(s) > 0
  {
    if |s| > 1 {
      SumPositive(s[..|s| - 1]);
    }
  }

  /** The mean of positive reals is positive. */
  lemma MeanRealPositive(s: seq<real>)
    requires forall i :: 0 <= i < |s| ==> s[i] > 0.0
    ensures s != [] ==> MeanReal(s) > 0.0
  {
    if s != [] {
      SumRealPositive(s);
      QuotientPositive(SumReal(s), |s| as real);
    }
  }

  /** The mean of positive integers is positive. */
  lemma MeanPositive(s: seq<int>)
    requires forall i :: 0 <= i < |s| ==> s[i] > 0
    ensures s != [] ==> Mean(s) > 0.0
  {
    if s != [] {
      SumPositive(s);
      QuotientPositive(Sum(s) as real, |s| as real);
    }
  }

  // ---------------------------------------------------------------- real division

  /** A positive number divided by a positive number is positive. */
  lemma QuotientPositive(t: real, n: real)
    requires 0.0 < t && 0.0 < n
    ensures t / n > 0.0
  {
    var m := t / n;
    assert m * n == t;
    if m < 0.0 {
      ScaleStrict(m, 0.0, n);
    }
  }

  /** Any m with m * n == t, for t between n * lo and n * hi, lies in [lo, hi]. */
  lemma RatioWithin(m: real, t: real, n: real, lo: real, hi: real)
    requires 0.0 < n && n * lo <= t <= n * hi && m * n == t
    ensures lo <= m <= hi
  {
    if m < lo {
      ScaleStrict(m, lo, n);
    }
    if m > hi {
      ScaleStrict(hi, m, n);
    }
  }

  /** Multiplying by a positive number keeps a strict order. */
  lemma ScaleStrict(a: real, b: real, n: real)
    requires a < b && 0.0 < n
    ensures a * n < b * n
  {
    assert (b - a) * n == b * n - a * n;
    assert (b - a) * n > 0.0;
  }

  /** Dividing n * q by a positive n gives q back. */
  lemma DivCancel(q: real, n: real)
    requires 0.0 < n
    ensures (n * q) / n == q
  {
    var m := (n * q) / n;
    assert m * n == q * n;
    if m < q {
      ScaleStrict(m, q, n);
    }
    if m > q {
      ScaleStrict(q, m, n);
    }
  }
}
