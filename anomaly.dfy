/** The anomaly column of app.py:58-62: each month's mean temperature against
    the mean and the sample standard deviation (ddof=1) of all the monthly
    mean temperatures, with strict comparisons and High tested first. */
module Anomalies {
  import opened Monthly
  import opened Stats

  datatype Anomaly = High | Low | Normal

  /** A monthly row with the anomaly column added. */
  datatype LabelledMonth = LabelledMonth(row: MonthRow, anomaly: Anomaly)

  /** The monthly rows of a labelled table, without their labels. */
  function Unlabelled(r: seq<LabelledMonth>): (rows: seq<MonthRow>)
    ensures |rows| == |r| && forall i :: 0 <= i < |r| ==> rows[i] == r[i].row
  {
    seq(|r|, i requires 0 <= i < |r| => r[i].row)
  }

  lemma SquareNonNegative(e: real)
    ensures e * e >= 0.0
  {
  }

  /** The sum of squared deviations from `c`: never negative. */
  function SquaredDeviations(xs: seq<real>, c: real): (r: real)
    ensures r >= 0.0
  {
    if |xs| == 0 then 0.0
    else
      SquareNonNegative(xs[0] - c);
      (xs[0] - c) * (xs[0] - c) + SquaredDeviations(xs[1..], c)
  }

  /** Values that all equal `c` deviate from it by nothing. */
  lemma {:induction false} SquaredDeviationsOfConstant(xs: seq<real>, c: real)
    requires forall i :: 0 <= i < |xs| ==> xs[i] == c
    ensures SquaredDeviations(xs, c) == 0.0
  {
    if |xs| > 0 {
      SquaredDeviationsOfConstant(xs[1..], c);
    }
  }

  lemma ConstantDeviations(xs: seq<real>)
    requires |xs| > 0
    ensures (forall i :: 0 <= i < |xs| ==> xs[i] == xs[0]) ==> SquaredDeviations(xs, Mean(xs)) == 0.0
  {
    if forall i :: 0 <= i < |xs| ==> xs[i] == xs[0] {
      MeanOfConstant(xs, xs[0]);
      SquaredDeviationsOfConstant(xs, xs[0]);
    }
  }

  /** The square of `Series.std()` (app.py:59): squared deviations from the
      mean over n - 1. It is never negative, and it is zero when every value
      is the same. */
  function SampleVariance(xs: seq<real>): (v: real)
    requires |xs| >= 2
    ensures v >= 0.0
    ensures (forall i :: 0 <= i < |xs| ==> xs[i] == xs[0]) ==> v == 0.0
  {
    ConstantDeviations(xs);
    SquaredDeviations(xs, Mean(xs)) / ((|xs| - 1) as real)
  }

  /** The labelling lambda of app.py:61 as written, given a standard
      deviation: Normal exactly inside the closed band mean +/- std, and for
      a non-negative std, High lies above the mean and Low below it. */
  function ThresholdLabel(x: real, mean: real, std: real): (r: Anomaly)
    ensures r == Normal <==> mean - std <= x <= mean + std
    ensures std >= 0.0 && r == High ==> x > mean
    ensures std >= 0.0 && r == Low ==> x < mean
  {
    if x > mean + std then High else if x < mean - std then Low else Normal
  }

  /** The label of a month whose mean temperature is `x`, among the monthly
      mean temperatures `xs`. With fewer than two months the standard
      deviation is NaN and both comparisons are false. Otherwise the
      comparisons against mean +/- std are decided on squares, so no square
      root is taken. */
  function Classify(xs: seq<real>, x: real): (a: Anomaly)
    ensures |xs| < 2 ==> a == Normal
    ensures a == High ==> |xs| >= 2 && x > Mean(xs)
    ensures a == Low ==> |xs| >= 2 && x < Mean(xs)
  {
    if |xs| < 2 then Normal
    else
      var d, v := x - Mean(xs), SampleVariance(xs);
      if d > 0.0 && d * d > v then High
      else if d < 0.0 && d * d > v then Low
      else Normal
  }

  lemma ProductPositive(p: real, q: real)
    requires p > 0.0 && q > 0.0
    ensures p * q > 0.0
  {
  }

  lemma ProductNonNegative(p: real, q: real)
    requires p >= 0.0 && q >= 0.0
    ensures p * q >= 0.0
  {
  }

  /** For a non-negative bound, exceeding it is exceeding zero and exceeding it
      in square. */
  lemma ExceedsInSquare(a: real, s: real)
    requires s >= 0.0
    ensures a > s <==> a > 0.0 && a * a > s * s
  {
    assert a * a - s * s == (a - s) * (a + s);
    if a > s {
      ProductPositive(a - s, a + s);
    } else if a > 0.0 {
      ProductNonNegative(s - a, a + s);
    }
  }

  /** The square-free test is the source's test: for the standard deviation
      `std` (the non-negative root of the sample variance), Classify gives the
      label the lambda of app.py:61 gives. */
  lemma ClassifyIsThresholdLabel(xs: seq<real>, x: real, std: real)
    requires |xs| >= 2 && std >= 0.0 && std * std == SampleVariance(xs)
    ensures Classify(xs, x) == ThresholdLabel(x, Mean(xs), std)
  {
    var m := Mean(xs);
    ExceedsInSquare(x - m, std);
    ExceedsInSquare(m - x, std);
    assert (m - x) * (m - x) == (x - m) * (x - m);
  }

  /** A month exactly one standard deviation above or below the mean is
      Normal: the comparisons are strict. */
  lemma BoundaryIsNormal(xs: seq<real>, std: real)
    requires |xs| >= 2 && std >= 0.0 && std * std == SampleVariance(xs)
    ensures Classify(xs, Mean(xs) + std) == Normal
    ensures Classify(xs, Mean(xs) - std) == Normal
  {
  }

  /** When every month has the same mean temperature (std = 0), every month
      is Normal. */
  lemma ConstantIsNormal(xs: seq<real>, c: real)
    requires forall i :: 0 <= i < |xs| ==> xs[i] == c
    ensures forall i :: 0 <= i < |xs| ==> Classify(xs, xs[i]) == Normal
  {
    if |xs| > 0 {
      MeanOfConstant(xs, c);
    }
  }

  /** Some month is at or below the mean and some month at or above it, so
      the months are never all High and never all Low. */
  lemma NotAllOneSide(xs: seq<real>)
    requires |xs| > 0
    ensures exists i :: 0 <= i < |xs| && Classify(xs, xs[i]) != High
    ensures exists i :: 0 <= i < |xs| && Classify(xs, xs[i]) != Low
  {
    var i :| 0 <= i < |xs| && xs[i] <= Mean(xs);
    var j :| 0 <= j < |xs| && xs[j] >= Mean(xs);
    assert Classify(xs, xs[i]) != High;
    assert Classify(xs, xs[j]) != Low;
  }

  function Temperatures(rows: seq<MonthRow>): (ts: seq<real>)
    ensures |ts| == |rows| && forall i :: 0 <= i < |rows| ==> ts[i] == rows[i].temperature
  {
    seq(|rows|, i requires 0 <= i < |rows| => rows[i].temperature)
  }

  /** app.py:60-62: the monthly table with the anomaly column added. Every
      month keeps its place and its means; its label is decided by all the
      monthly mean temperatures together. */
  function AddAnomaly(rows: seq<MonthRow>): (r: seq<LabelledMonth>)
    ensures Unlabelled(r) == rows
    ensures forall i :: 0 <= i < |r| ==> r[i].anomaly == Classify(Temperatures(rows), rows[i].temperature)
  {
    var ts := Temperatures(rows);
    var r := seq(|rows|, i requires 0 <= i < |rows| => LabelledMonth(rows[i], Classify(ts, rows[i].temperature)));
    assert Unlabelled(r) == rows;
    r
  }

  /** Monthly means 10, 20 and 30: mean 20, sample standard deviation 10, so
      January and March sit exactly on the bounds and every month is Normal. */
  lemma ThreeMonthExample()
    ensures Mean([10.0, 20.0, 30.0]) == 20.0
    ensures SampleVariance([10.0, 20.0, 30.0]) == 10.0 * 10.0
    ensures forall x :: x in [10.0, 20.0, 30.0] ==> Classify([10.0, 20.0, 30.0], x) == Normal
  {
  }
}
