/** The arithmetic pandas applies to a numeric column here: the sum and the
    mean (`Series.mean()`, used per group at app.py:55 and over the monthly
    temperatures at app.py:58). */
module Stats {

  function Total(xs: seq<real>): real
  {
    if |xs| == 0 then 0.0 else xs[0] + Total(xs[1..])
  }

  lemma {:induction false} TotalConcat(a: seq<real>, b: seq<real>)
    ensures Total(a + b) == Total(a) + Total(b)
  {
    if |a| > 0 {
      assert (a + b)[1..] == a[1..] + b;
      TotalConcat(a[1..], b);
    } else {
      assert a + b == b;
    }
  }

  lemma {:induction false} TotalOfConstant(xs: seq<real>, c: real)
    requires forall i :: 0 <= i < |xs| ==> xs[i] == c
    ensures Total(xs) == (|xs| as real) * c
  {
    if |xs| > 0 {
      TotalOfConstant(xs[1..], c);
      assert (|xs| as real) * c == ((|xs| - 1) as real) * c + c;
    }
  }

  lemma {:induction false} TotalAbove(xs: seq<real>, c: real)
    requires |xs| > 0 && forall i :: 0 <= i < |xs| ==> xs[i] > c
    ensures Total(xs) > (|xs| as real) * c
  {
    if |xs| > 1 {
      TotalAbove(xs[1..], c);
      assert (|xs| as real) * c == ((|xs| - 1) as real) * c + c;
    }
  }

  lemma {:induction false} TotalBelow(xs: seq<real>, c: real)
    requires |xs| > 0 && forall i :: 0 <= i < |xs| ==> xs[i] < c
    ensures Total(xs) < (|xs| as real) * c
  {
    if |xs| > 1 {
      TotalBelow(xs[1..], c);
      assert (|xs| as real) * c == ((|xs| - 1) as real) * c + c;
    }
  }

  lemma {:induction false} TotalBounds(xs: seq<real>, lo: real, hi: real)
    requires forall i :: 0 <= i < |xs| ==> lo <= xs[i] <= hi
    ensures (|xs| as real) * lo <= Total(xs) <= (|xs| as real) * hi
  {
    if |xs| > 0 {
      TotalBounds(xs[1..], lo, hi);
      assert (|xs| as real) * lo == ((|xs| - 1) as real) * lo + lo;
      assert (|xs| as real) * hi == ((|xs| - 1) as real) * hi + hi;
    }
  }

  /** The mean is attained from both sides: some value is at or below it and
      some value at or above it. */
  function Mean(xs: seq<real>): (r: real)
    requires |xs| > 0
    ensures exists i :: 0 <= i < |xs| && xs[i] <= r
    ensures exists i :: 0 <= i < |xs| && xs[i] >= r
  {
    var r := Total(xs) / (|xs| as real);
    assert Total(xs) == (|xs| as real) * r;
    if forall i :: 0 <= i < |xs| ==> xs[i] > r then
      TotalAbove(xs, r);
      r
    else if forall i :: 0 <= i < |xs| ==> xs[i] < r then
      TotalBelow(xs, r);
      r
    else
      r
  }

  lemma DivBounds(s: real, n: real, lo: real, hi: real)
    requires n > 0.0 && n * lo <= s <= n * hi
    ensures lo <= s / n <= hi
  {
  }

  /** Bounds on every value bound the mean. */
  lemma MeanBounds(xs: seq<real>, lo: real, hi: real)
    requires |xs| > 0
    requires forall i :: 0 <= i < |xs| ==> lo <= xs[i] <= hi
    ensures lo <= Mean(xs) <= hi
  {
    TotalBounds(xs, lo, hi);
    DivBounds(Total(xs), |xs| as real, lo, hi);
  }

  /** The mean of equal values is that value. */
  lemma MeanOfConstant(xs: seq<real>, c: real)
    requires |xs| > 0 && forall i :: 0 <= i < |xs| ==> xs[i] == c
    ensures Mean(xs) == c
  {
    TotalOfConstant(xs, c);
  }
}
