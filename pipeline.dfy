/** The whole computation of app.py:37-62: from the decoded NASA POWER
    response to the labelled monthly table, or to the error that stops it. */
module Pipeline {
  import opened Wrappers
  import opened DateKeys
  import opened DailyTable
  import opened Monthly
  import opened Anomalies
  import Stats

  function Run(p: Payload): (r: Result<seq<LabelledMonth>, Error>)
    ensures p.properties.None? ==> r == Failure(MissingProperties(p))
  {
    var cols :- Lookup(p);
    var rows :- BuildRows(cols);
    var days :- ParseRows(rows);
    Success(AddAnomaly(Aggregate(days)))
  }

  /** Whether a raw key lies in month `k`: its year digits, a hyphen and its
      month digits spell `k`. */
  predicate InKeyMonth(key: string, k: string)
  {
    |key| >= 6 && key[..4] + "-" + key[4..6] == k
  }

  /** The values at the positions whose key lies in month `k`, in order. */
  function Pick(keys: seq<string>, vals: seq<real>, k: string): seq<real>
    requires |keys| == |vals|
  {
    if |keys| == 0 then []
    else (if InKeyMonth(keys[0], k) then [vals[0]] else []) + Pick(keys[1..], vals[1..], k)
  }

  /** A parsed day lies in month `k` exactly when its raw key does. */
  lemma DayMonthIsKeyMonth(day: Day, row: RawRow, k: string)
    requires ParsedFrom(day, row)
    ensures day.month == k <==> InKeyMonth(row.key, k)
  {
  }

  /** Given keys that lie in month `k` exactly where the days do, the
      readings of month `k`'s days are the readings picked at those keys, in
      the same order. */
  lemma {:induction false} InMonthIsPick(days: seq<Day>, keys: seq<string>, k: string, m: Metric)
    requires |keys| == |days|
    requires forall i :: 0 <= i < |days| ==> (days[i].month == k <==> InKeyMonth(keys[i], k))
    ensures Column(InMonth(days, k), m) == Pick(keys, Column(days, m), k)
  {
    if |days| > 0 {
      var head, rest := if days[0].month == k then [days[0]] else [], InMonth(days[1..], k);
      var vals := Column(days, m);
      assert vals[1..] == Column(days[1..], m);
      assert forall i :: 0 <= i < |days[1..]| ==> days[1..][i] == days[i + 1] && keys[1..][i] == keys[i + 1];
      InMonthIsPick(days[1..], keys[1..], k, m);
      assert InMonth(days, k) == head + rest;
      ColumnConcat(head, rest, m);
      assert Column(head, m) == if InKeyMonth(keys[0], k) then [vals[0]] else [];
      assert Pick(keys, vals, k) == Column(head, m) + Pick(keys[1..], vals[1..], k);
    }
  }

  /** A run yields a table exactly when the payload has "properties",
      "parameter" and the three parameters, the three have equally many
      readings, and every T2M key is a date. */
  lemma RunSucceeds(p: Payload)
    ensures Run(p).Success? <==>
              && Lookup(p).Success?
              && |Lookup(p).value.rain| == |Lookup(p).value.t2m|
              && |Lookup(p).value.solar| == |Lookup(p).value.t2m|
              && forall i :: 0 <= i < |Lookup(p).value.t2m| ==> ParseKey(Lookup(p).value.t2m[i].0).Some?
  {
  }

  /** Which error stops a run: the first failed lookup; otherwise unequal
      column lengths; otherwise a T2M key that is not a date. In each case no
      table is produced. */
  lemma RunErrors(p: Payload)
    ensures Lookup(p).Failure? ==> Run(p) == Failure(Lookup(p).error)
    ensures Lookup(p).Success? ==>
              var c := Lookup(p).value;
              (|c.rain| != |c.t2m| || |c.solar| != |c.t2m|) ==> Run(p) == Failure(LengthMismatch)
    ensures Lookup(p).Success? ==>
              var c := Lookup(p).value;
              (&& |c.rain| == |c.t2m| && |c.solar| == |c.t2m|
               && exists i :: 0 <= i < |c.t2m| && ParseKey(c.t2m[i].0).None?) ==>
                && Run(p).Failure? && Run(p).error.BadDateKey?
                && Run(p).error.key in KeysOf(c.t2m)
                && ParseKey(Run(p).error.key).None?
  {
  }

  /** The intermediate tables of a successful run. */
  lemma RunSteps(p: Payload)
    requires Run(p).Success?
    ensures Lookup(p).Success?
    ensures BuildRows(Lookup(p).value).Success?
    ensures ParseRows(BuildRows(Lookup(p).value).value).Success?
    ensures Run(p).value == AddAnomaly(Aggregate(ParseRows(BuildRows(Lookup(p).value).value).value))
  {
  }

  /** The days of a table are in month `k` exactly when some T2M key is. */
  lemma DayMonthsAreKeyMonths(c: Columns, rows: seq<RawRow>, days: seq<Day>, k: string)
    requires BuildRows(c) == Success(rows) && ParseRows(rows) == Success(days)
    ensures k in MonthsOf(days) <==> exists j :: 0 <= j < |c.t2m| && InKeyMonth(c.t2m[j].0, k)
  {
    if k in MonthsOf(days) {
      var j :| 0 <= j < |days| && days[j].month == k;
      DayMonthIsKeyMonth(days[j], rows[j], k);
      assert rows[j].key == KeysOf(c.t2m)[j];
    }
    if exists j :: 0 <= j < |c.t2m| && InKeyMonth(c.t2m[j].0, k) {
      var j :| 0 <= j < |c.t2m| && InKeyMonth(c.t2m[j].0, k);
      assert rows[j].key == KeysOf(c.t2m)[j];
      DayMonthIsKeyMonth(days[j], rows[j], k);
      assert MonthsOf(days)[j] == k;
    }
  }

  /** The months of the labelled table built from parsed columns. */
  lemma TableMonths(c: Columns, rows: seq<RawRow>, days: seq<Day>)
    requires BuildRows(c) == Success(rows) && ParseRows(rows) == Success(days)
    ensures var out := RowMonths(Unlabelled(AddAnomaly(Aggregate(days))));
            && StrictlyAscending(out)
            && forall k :: k in out <==> exists j :: 0 <= j < |c.t2m| && InKeyMonth(c.t2m[j].0, k)
  {
    forall k ensures k in MonthsOf(days) <==>
                       exists j :: 0 <= j < |c.t2m| && InKeyMonth(c.t2m[j].0, k) {
      DayMonthsAreKeyMonths(c, rows, days, k);
    }
  }

  /** The months of a successful run: ascending (so chronological), and
      exactly the months of the T2M keys, none synthesized. */
  lemma RunMonths(p: Payload)
    requires Run(p).Success?
    ensures StrictlyAscending(RowMonths(Unlabelled(Run(p).value)))
    ensures forall k :: k in RowMonths(Unlabelled(Run(p).value)) <==>
              exists j :: 0 <= j < |Lookup(p).value.t2m| && InKeyMonth(Lookup(p).value.t2m[j].0, k)
  {
    RunSteps(p);
    var c := Lookup(p).value;
    var rows := BuildRows(c).value;
    TableMonths(c, rows, ParseRows(rows).value);
  }

  /** The days of a table carry, position by position, the readings of the
      columns they came from, and lie in the months of the T2M keys. */
  lemma DaysAreColumns(c: Columns, rows: seq<RawRow>, days: seq<Day>, k: string)
    requires BuildRows(c) == Success(rows) && ParseRows(rows) == Success(days)
    ensures Column(days, Temperature) == ValuesOf(c.t2m)
    ensures Column(days, Rainfall) == ValuesOf(c.rain)
    ensures Column(days, Solar) == ValuesOf(c.solar)
    ensures forall j :: 0 <= j < |days| ==> (days[j].month == k <==> InKeyMonth(KeysOf(c.t2m)[j], k))
  {
    forall j | 0 <= j < |days| ensures days[j].month == k <==> InKeyMonth(KeysOf(c.t2m)[j], k) {
      DayMonthIsKeyMonth(days[j], rows[j], k);
      assert rows[j].key == KeysOf(c.t2m)[j];
    }
  }

  /** Each monthly value of a successful run is the sum of that parameter's
      readings at the positions whose T2M key lies in the month, divided by
      their number: readings are matched to dates by position alone. */
  lemma RunMeans(p: Payload, i: nat)
    requires Run(p).Success? && i < |Run(p).value|
    ensures var c := Lookup(p).value;
            var row := Run(p).value[i].row;
            var keys := KeysOf(c.t2m);
            var ts := Pick(keys, ValuesOf(c.t2m), row.month);
            var rs := Pick(keys, ValuesOf(c.rain), row.month);
            var ss := Pick(keys, ValuesOf(c.solar), row.month);
            && |ts| > 0 && |rs| == |ts| && |ss| == |ts|
            && row.temperature == Stats.Total(ts) / (|ts| as real)
            && row.rainfall == Stats.Total(rs) / (|rs| as real)
            && row.solar == Stats.Total(ss) / (|ss| as real)
  {
    RunSteps(p);
    var c := Lookup(p).value;
    var rows := BuildRows(c).value;
    var days := ParseRows(rows).value;
    var monthly := Aggregate(days);
    var k := monthly[i].month;
    assert Run(p).value[i].row == monthly[i];
    DaysAreColumns(c, rows, days, k);
    var keys := KeysOf(c.t2m);
    InMonthIsPick(days, keys, k, Temperature);
    InMonthIsPick(days, keys, k, Rainfall);
    InMonthIsPick(days, keys, k, Solar);
  }

  /** One run's labels: the anomaly of each month is decided by the monthly
      mean temperatures of that same run. */
  lemma RunLabels(p: Payload, i: nat)
    requires Run(p).Success? && i < |Run(p).value|
    ensures var r := Run(p).value;
            r[i].anomaly == Classify(Temperatures(Unlabelled(r)), r[i].row.temperature)
  {
    RunSteps(p);
  }
}
