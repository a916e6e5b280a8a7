/** `df.groupby("month").mean().reset_index()` (app.py:55): one row per
    distinct month key, in ascending key order, holding the mean of each
    metric over exactly that month's days. */
module Monthly {
  import opened DailyTable
  import TextOrder
  import Stats

  datatype Metric = Temperature | Rainfall | Solar

  datatype MonthRow = MonthRow(month: string, temperature: real, rainfall: real, solar: real)

  function Reading(d: Day, m: Metric): real
  {
    match m
    case Temperature => d.temperature
    case Rainfall => d.rainfall
    case Solar => d.solar
  }

  function MonthsOf(days: seq<Day>): (ks: seq<string>)
    ensures |ks| == |days| && forall i :: 0 <= i < |days| ==> ks[i] == days[i].month
  {
    seq(|days|, i requires 0 <= i < |days| => days[i].month)
  }

  function RowMonths(rows: seq<MonthRow>): (ks: seq<string>)
    ensures |ks| == |rows| && forall i :: 0 <= i < |rows| ==> ks[i] == rows[i].month
  {
    seq(|rows|, i requires 0 <= i < |rows| => rows[i].month)
  }

  /** The readings of metric `m`, one per day, in table order. */
  function Column(days: seq<Day>, m: Metric): (xs: seq<real>)
    ensures |xs| == |days| && forall i :: 0 <= i < |days| ==> xs[i] == Reading(days[i], m)
  {
    seq(|days|, i requires 0 <= i < |days| => Reading(days[i], m))
  }

  lemma ColumnConcat(a: seq<Day>, b: seq<Day>, m: Metric)
    ensures Column(a + b, m) == Column(a, m) + Column(b, m)
  {
  }

  /** The days of month `k`, in table order: every day whose key is `k`, as
      often as it occurs in the table, and no other day. */
  function InMonth(days: seq<Day>, k: string): (r: seq<Day>)
    ensures forall d {:trigger multiset(r)[d]} :: multiset(r)[d] == if d.month == k then multiset(days)[d] else 0
    ensures forall d :: d in r <==> d in days && d.month == k
    ensures |r| <= |days|
  {
    if |days| == 0 then []
    else
      assert days == [days[0]] + days[1..];
      (if days[0].month == k then [days[0]] else []) + InMonth(days[1..], k)
  }

  lemma {:induction false} InMonthConcat(a: seq<Day>, b: seq<Day>, k: string)
    ensures InMonth(a + b, k) == InMonth(a, k) + InMonth(b, k)
  {
    if |a| == 0 {
      assert a + b == b;
    } else {
      assert (a + b)[0] == a[0] && (a + b)[1..] == a[1..] + b;
      InMonthConcat(a[1..], b, k);
    }
  }

  /** A month holds days exactly when its key occurs in the table. */
  lemma MonthNonEmpty(days: seq<Day>, k: string)
    ensures |InMonth(days, k)| > 0 <==> k in MonthsOf(days)
  {
  }

  /** The mean of metric `m` over the days of month `k`: some day of that
      month reads at most the mean and some day at least it. */
  function MonthMean(days: seq<Day>, k: string, m: Metric): (r: real)
    requires k in MonthsOf(days)
    ensures exists d :: d in days && d.month == k && Reading(d, m) <= r
    ensures exists d :: d in days && d.month == k && Reading(d, m) >= r
  {
    var ds := InMonth(days, k);
    MonthNonEmpty(days, k);
    var r := Stats.Mean(Column(ds, m));
    var i :| 0 <= i < |ds| && Column(ds, m)[i] <= r;
    var j :| 0 <= j < |ds| && Column(ds, m)[j] >= r;
    assert ds[i] in ds && ds[j] in ds;
    r
  }

  predicate StrictlyAscending(ks: seq<string>)
  {
    forall i, j :: 0 <= i < j < |ks| ==> TextOrder.Less(ks[i], ks[j])
  }

  /** Adds `k` to an ascending list of distinct keys, keeping it so. */
  function Insert(k: string, ks: seq<string>): (r: seq<string>)
    requires StrictlyAscending(ks)
    ensures StrictlyAscending(r)
    ensures forall x :: x in r <==> x == k || x in ks
  {
    if |ks| == 0 then [k]
    else if k == ks[0] then ks
    else if TextOrder.Less(k, ks[0]) then
      assert forall j :: 0 <= j < |ks| ==> TextOrder.Less(k, ks[j]) by {
        forall j | 0 < j < |ks| ensures TextOrder.Less(k, ks[j]) {
          TextOrder.LessTransitive(k, ks[0], ks[j]);
        }
      }
      [k] + ks
    else
      TextOrder.LessTotal(k, ks[0]);
      var rest := Insert(k, ks[1..]);
      assert forall x :: x in rest ==> TextOrder.Less(ks[0], x);
      [ks[0]] + rest
  }

  /** The distinct month keys of the table, ascending. */
  function GroupKeys(ks: seq<string>): (r: seq<string>)
    ensures StrictlyAscending(r)
    ensures forall x :: x in r <==> x in ks
  {
    if |ks| == 0 then []
    else Insert(ks[|ks| - 1], GroupKeys(ks[..|ks| - 1]))
  }

  /** app.py:55. Months come out as distinct keys in ascending order (which
      is chronological, see DateKeys.MonthKeyChronological); a month is
      listed exactly when some day has its key; each value is the sum of that
      metric over that month's days divided by their number. */
  function Aggregate(days: seq<Day>): (r: seq<MonthRow>)
    ensures StrictlyAscending(RowMonths(r))
    ensures forall k :: k in RowMonths(r) <==> k in MonthsOf(days)
    ensures forall i :: 0 <= i < |r| ==>
              var ds := InMonth(days, r[i].month);
              && |ds| > 0
              && r[i].temperature == Stats.Total(Column(ds, Temperature)) / (|ds| as real)
              && r[i].rainfall == Stats.Total(Column(ds, Rainfall)) / (|ds| as real)
              && r[i].solar == Stats.Total(Column(ds, Solar)) / (|ds| as real)
  {
    var ks := GroupKeys(MonthsOf(days));
    var r := seq(|ks|, i requires 0 <= i < |ks| =>
               MonthRow(ks[i], MonthMean(days, ks[i], Temperature),
                        MonthMean(days, ks[i], Rainfall), MonthMean(days, ks[i], Solar)));
    assert RowMonths(r) == ks;
    forall i | 0 <= i < |r| ensures |InMonth(days, r[i].month)| > 0 {
      MonthNonEmpty(days, r[i].month);
    }
    r
  }

  /** A strictly ascending list has no repeats, so it has as many entries as
      distinct values. */
  lemma {:induction false} AscendingCard(ks: seq<string>)
    requires StrictlyAscending(ks)
    ensures |ks| == |set x | x in ks|
  {
    if |ks| > 0 {
      AscendingCard(ks[1..]);
      TextOrder.LessIrreflexive(ks[0]);
      assert (set x | x in ks) == {ks[0]} + (set x | x in ks[1..]);
      assert ks[0] !in (set x | x in ks[1..]);
    }
  }

  lemma SameMonths(days: seq<Day>, ks: seq<string>)
    requires forall x :: x in ks <==> x in MonthsOf(days)
    ensures (set x | x in ks) == (set d | d in days :: d.month)
  {
    forall x ensures x in ks <==> x in (set d | d in days :: d.month) {
      if x in MonthsOf(days) {
        var i :| 0 <= i < |days| && MonthsOf(days)[i] == x;
        assert days[i] in days;
      }
      if x in (set d | d in days :: d.month) {
        var d :| d in days && d.month == x;
        var i :| 0 <= i < |days| && days[i] == d;
        assert MonthsOf(days)[i] == x;
      }
    }
  }

  /** The monthly table has one row per distinct month key of the daily
      table: no more and no fewer. */
  lemma AggregateRowCount(days: seq<Day>)
    ensures |Aggregate(days)| == |set d | d in days :: d.month|
  {
    var ks := RowMonths(Aggregate(days));
    AscendingCard(ks);
    SameMonths(days, ks);
  }

  /** Removing a day of another month changes nothing about month `k`: its
      days, and hence every mean the monthly table holds for it. */
  lemma OtherMonthIrrelevant(days: seq<Day>, i: nat, k: string)
    requires i < |days| && days[i].month != k
    ensures InMonth(days[..i] + days[i + 1..], k) == InMonth(days, k)
  {
    var a, b := days[..i], days[i + 1..];
    var db := [days[i]] + b;
    assert days == a + db;
    assert db[0] == days[i] && db[1..] == b;
    assert InMonth(db, k) == InMonth(b, k);
    InMonthConcat(a, db, k);
    InMonthConcat(a, b, k);
  }

  /** Every monthly mean lies between the smallest and largest reading of
      that month. */
  lemma MeanWithinReadings(days: seq<Day>, k: string, m: Metric, lo: real, hi: real)
    requires k in MonthsOf(days)
    requires forall d :: d in days && d.month == k ==> lo <= Reading(d, m) <= hi
    ensures lo <= MonthMean(days, k, m) <= hi
  {
    var ds := InMonth(days, k);
    MonthNonEmpty(days, k);
    forall i | 0 <= i < |ds| ensures lo <= Column(ds, m)[i] <= hi {
      assert ds[i] in ds;
      assert ds[i] in days && ds[i].month == k;
    }
    Stats.MeanBounds(Column(ds, m), lo, hi);
  }
}
