/**
 * Running baseline statistics (backend/src/anomaly_detection.rs) against the
 * two-pass definitions of mean and squared deviation, over the reals.
 */
module Welford {

  const MIN_SAMPLES_FOR_DETECTION: nat := 5
  const EPSILON: real := 1.0 / 4503599627370496.0

  // ---------------------------------------------------------------------
  // Two passes over all points
  // ---------------------------------------------------------------------

  function Sum(xs: seq<real>): real {
    if xs == [] then 0.0 else Sum(xs[..|xs| - 1]) + xs[|xs| - 1]
  }

  function Mean(xs: seq<real>): real {
    if xs == [] then 0.0 else Sum(xs) / |xs| as real
  }

  function Square(x: real): real {
    x * x
  }

  /** Sum of squared deviations from `center`. */
  function Deviation(xs: seq<real>, center: real): real {
    if xs == [] then 0.0
    else Deviation(xs[..|xs| - 1], center) + Square(xs[|xs| - 1] - center)
  }

  function Variance(xs: seq<real>): real {
    if |xs| < 2 then 0.0 else Deviation(xs, Mean(xs)) / (|xs| - 1) as real
  }

  /** `r` is the non-negative square root of `x`. */
  predicate IsRoot(r: real, x: real) {
    r >= 0.0 && r * r == x
  }

  /** There is one root at most, and zero has one. */
  lemma RootIsUnique(r: real, r': real, x: real)
    requires IsRoot(r, x) && IsRoot(r', x)
    ensures r == r' && IsRoot(0.0, 0.0)
  {
    var d, sum := r - r', r + r';
    assert d * sum == 0.0;
    assert d == 0.0 || sum == 0.0;
  }

  // ---------------------------------------------------------------------
  // Algebra
  // ---------------------------------------------------------------------

  lemma SquareNonNegative(x: real)
    ensures Square(x) >= 0.0
  {
  }

  lemma {:induction false} DeviationNonNegative(xs: seq<real>, center: real)
    ensures Deviation(xs, center) >= 0.0
  {
    if xs != [] {
      DeviationNonNegative(xs[..|xs| - 1], center);
      SquareNonNegative(xs[|xs| - 1] - center);
    }
  }

  /** How much the points exceed `a` in total. */
  function Excess(xs: seq<real>, a: real): real {
    if xs == [] then 0.0 else Excess(xs[..|xs| - 1], a) + (xs[|xs| - 1] - a)
  }

  function Total(count: nat, mean: real): real {
    count as real * mean
  }

  lemma TotalStep(count: nat, mean: real)
    ensures Total(0, mean) == 0.0 && Total(count + 1, mean) == Total(count, mean) + mean
  {
    assert (count + 1) as real == count as real + 1.0;
  }

  lemma {:induction false} ExcessIs(xs: seq<real>, a: real)
    ensures Excess(xs, a) == Sum(xs) - Total(|xs|, a)
  {
    hide Total;
    TotalStep(if xs == [] then 0 else |xs| - 1, a);
    if xs != [] {
      ExcessIs(xs[..|xs| - 1], a);
    }
  }

  /** A deviation after the center moved down by `d`, for `n` points exceeding the old center by `e`. */
  function Moved(deviation: real, d: real, e: real, n: real): real {
    deviation + 2.0 * (d * e) + n * Square(d)
  }

  lemma MovePoint(u: real, d: real, deviation: real, e: real, n: real)
    ensures Moved(deviation, d, e, n) + Square(u + d) == Moved(deviation + Square(u), d, e + u, n + 1.0)
  {
    assert Square(u + d) == Square(u) + 2.0 * (d * u) + Square(d) by {
      assert (u + d) * (u + d) == u * (u + d) + d * (u + d);
    }
    assert d * (e + u) == d * e + d * u;
    assert (n + 1.0) * Square(d) == n * Square(d) + Square(d);
  }

  lemma {:induction false} DeviationMoves(xs: seq<real>, a: real, b: real)
    ensures Deviation(xs, b) == Moved(Deviation(xs, a), a - b, Excess(xs, a), |xs| as real)
  {
    if xs != [] {
      hide Square, Moved;
      var init, x := xs[..|xs| - 1], xs[|xs| - 1];
      DeviationMoves(init, a, b);
      MovePoint(x - a, a - b, Deviation(init, a), Excess(init, a), |init| as real);
      assert x - b == (x - a) + (a - b);
      assert |xs| as real == |init| as real + 1.0;
    }
  }

  /** The online update of the mean, `count` points having been seen before. */
  function NextMean(count: nat, mean: real, value: real): real {
    mean + (value - mean) / (count + 1) as real
  }

  function NextM2(m2: real, mean: real, mean': real, value: real): real {
    m2 + (value - mean) * (value - mean')
  }

  /** With `step` the change of the mean, every deviation in the update is a multiple of it. */
  lemma StepIdentity(k: nat, mean: real, value: real, m2: real)
    ensures
      var mean' := NextMean(k, mean, value);
      Moved(m2, mean - mean', 0.0, k as real) + Square(value - mean') == NextM2(m2, mean, mean', value)
  {
    var n := k as real;
    assert (k + 1) as real == n + 1.0;
    var step := (value - mean) / (n + 1.0);
    assert value - mean == n * step + step by { assert (n + 1.0) * step == value - mean; }
    assert (n * step + step) * (n * step) == Square(n * step) + n * Square(step) by {
      assert step * (n * step) == n * (step * step);
    }
    assert Square(mean - (mean + step)) == Square(step);
  }

  lemma NewTotal(k: nat, mean: real, value: real)
    ensures Total(k + 1, NextMean(k, mean, value)) == Total(k, mean) + value
  {
    var n := (k + 1) as real;
    var step := (value - mean) / n;
    assert n * step == value - mean;
    assert n * (mean + step) == n * mean + n * step;
    TotalStep(k, mean);
  }

  /** One online update turns the statistics of `xs` into those of `xs + [value]`. */
  lemma UpdateIsExact(xs: seq<real>, mean: real, m2: real, value: real)
    requires Total(|xs|, mean) == Sum(xs) && m2 == Deviation(xs, mean)
    ensures
      var mean' := NextMean(|xs|, mean, value);
      && Total(|xs| + 1, mean') == Sum(xs + [value])
      && NextM2(m2, mean, mean', value) == Deviation(xs + [value], mean')
  {
    hide Square, Moved, NextMean, NextM2, Total;
    assert (xs + [value])[..|xs|] == xs;
    ExcessIs(xs, mean);
    DeviationMoves(xs, mean, NextMean(|xs|, mean, value));
    StepIdentity(|xs|, mean, value, m2);
    NewTotal(|xs|, mean, value);
  }

  lemma MeanIsUnique(xs: seq<real>, mean: real)
    requires Total(|xs|, mean) == Sum(xs) && (xs == [] ==> mean == 0.0)
    ensures mean == Mean(xs)
  {
  }

  lemma MeanTimesCount(xs: seq<real>)
    ensures Total(|xs|, Mean(xs)) == Sum(xs)
  {
  }

  // ---------------------------------------------------------------------
  // The baseline
  // ---------------------------------------------------------------------

  class Baseline {
    var count: nat
    var mean: real
    var m2: real
    ghost var points: seq<real>

    ghost predicate Valid()
      reads this
    {
      && count == |points|
      && mean == Mean(points)
      && m2 == Deviation(points, mean)
    }

    constructor ()
      ensures Valid() && points == []
    {
      count, mean, m2, points := 0, 0.0, 0.0, [];
    }

    /** The argument of the square root in `std_dev`; zero below two points. */
    method SampleVariance() returns (v: real)
      requires Valid()
      ensures v == Variance(points) && v >= 0.0
      ensures |points| >= 2 ==> v * (|points| - 1) as real == Deviation(points, Mean(points))
      ensures |points| < 2 ==> v == 0.0
    {
      DeviationNonNegative(points, mean);
      v := if count < 2 then 0.0 else m2 / (count - 1) as real;
    }

    /**
     * Score `value` against the points before it, then take it in. `stdDev` is
     * the square root of the variance so far.
     */
    method Observe(value: real, stdDev: real) returns (z: real)
      requires Valid() && IsRoot(stdDev, Variance(points))
      modifies this
      ensures Valid() && points == old(points) + [value]
      ensures |old(points)| >= 5 && stdDev > 1.0 / 4503599627370496.0 ==> z * stdDev == value - Mean(old(points))
      ensures |old(points)| >= 5 && stdDev > 1.0 / 4503599627370496.0 ==>
        var d := value - Mean(old(points));
        z * z * Variance(old(points)) == d * d && (z >= 0.0 <==> d >= 0.0)
      ensures |old(points)| < 5 || stdDev <= 1.0 / 4503599627370496.0 ==> z == 0.0
    {
      z := if count >= MIN_SAMPLES_FOR_DETECTION && stdDev > EPSILON then (value - mean) / stdDev else 0.0;
      TakeIn(value);
    }

    method TakeIn(value: real)
      requires Valid()
      modifies this
      ensures Valid() && points == old(points) + [value]
    {
      hide Mean, Deviation, Total, Sum;
      MeanTimesCount(points);
      UpdateIsExact(points, mean, m2, value);
      count := count + 1;
      var delta := value - mean;
      mean := mean + delta / count as real;
      var delta2 := value - mean;
      m2 := m2 + delta * delta2;
      points := points + [value];
      MeanIsUnique(points, mean);
    }
  }

  /** The streaming fields after a sequence of observations. */
  datatype Stats = Stats(count: nat, mean: real, m2: real)

  function Streamed(xs: seq<real>): Stats {
    if xs == [] then Stats(0, 0.0, 0.0)
    else
      var before := Streamed(xs[..|xs| - 1]);
      var mean := NextMean(before.count, before.mean, xs[|xs| - 1]);
      Stats(before.count + 1, mean, NextM2(before.m2, before.mean, mean, xs[|xs| - 1]))
  }

  /** Streaming equals two-pass on every finite sequence, and the spread is never negative. */
  lemma {:induction false} StreamingIsTwoPass(xs: seq<real>)
    ensures
      var s := Streamed(xs);
      && s.count == |xs|
      && s.mean == Mean(xs) && Total(s.count, s.mean) == Sum(xs)
      && s.m2 == Deviation(xs, Mean(xs)) && s.m2 >= 0.0
  {
    if xs != [] {
      hide NextMean, NextM2, Mean, Deviation, Total, Sum;
      var init, x := xs[..|xs| - 1], xs[|xs| - 1];
      StreamingIsTwoPass(init);
      var before := Streamed(init);
      UpdateIsExact(init, before.mean, before.m2, x);
      assert init + [x] == xs;
      MeanIsUnique(xs, Streamed(xs).mean);
      DeviationNonNegative(xs, Mean(xs));
    }
  }
}
