/** The daily table of app.py:37-52: the payload's parameter maps turned into
    rows by position, each row's key parsed as a date and given its month key. */
module DailyTable {
  import opened Wrappers
  import opened DateKeys

  /** One parameter's readings as the decoded JSON object holds them: day key
      to value, in the order the payload lists them. */
  type Readings = seq<(string, real)>

  const T2M := "T2M"
  const PRECTOTCORR := "PRECTOTCORR"
  const ALLSKY_SFC_SW_DWN := "ALLSKY_SFC_SW_DWN"

  /** The part of the decoded response the script looks at: an optional
      "properties" object, holding an optional "parameter" object, holding a
      map from parameter name to readings. */
  datatype Properties = Properties(parameter: Option<map<string, Readings>>)
  datatype Payload = Payload(properties: Option<Properties>)

  datatype Error =
    | MissingProperties(shown: Payload)  // the script shows the payload and stops
    | MissingKey(key: string)            // a failed index into the payload
    | LengthMismatch                     // the columns differ in length
    | BadDateKey(key: string)            // a key that is not a date

  /** The three parameters' readings: temperature, rainfall, solar. */
  datatype Columns = Columns(t2m: Readings, rain: Readings, solar: Readings)

  /** The row built at app.py:45-50, before its date is parsed. */
  datatype RawRow = RawRow(key: string, temperature: real, rainfall: real, solar: real)

  /** A row after app.py:51-52: its date parsed and its month key added. */
  datatype Day = Day(date: Date, month: string, temperature: real, rainfall: real, solar: real)

  function KeysOf(r: Readings): (ks: seq<string>)
    ensures |ks| == |r| && forall i :: 0 <= i < |r| ==> ks[i] == r[i].0
  {
    seq(|r|, i requires 0 <= i < |r| => r[i].0)
  }

  function ValuesOf(r: Readings): (vs: seq<real>)
    ensures |vs| == |r| && forall i :: 0 <= i < |r| ==> vs[i] == r[i].1
  {
    seq(|r|, i requires 0 <= i < |r| => r[i].1)
  }

  /** The lookups of app.py:37-49, in the order Python evaluates them. */
  function Lookup(p: Payload): (r: Result<Columns, Error>)
    ensures p.properties.None? <==> r == Failure(MissingProperties(p))
    ensures r.Success? <==>
              && p.properties.Some?
              && p.properties.value.parameter.Some?
              && T2M in p.properties.value.parameter.value
              && PRECTOTCORR in p.properties.value.parameter.value
              && ALLSKY_SFC_SW_DWN in p.properties.value.parameter.value
    ensures r.Success? ==>
              var params := p.properties.value.parameter.value;
              r.value == Columns(params[T2M], params[PRECTOTCORR], params[ALLSKY_SFC_SW_DWN])
    ensures r.Failure? && p.properties.Some? ==>
              r.error.MissingKey? && r.error.key in {"parameter", T2M, PRECTOTCORR, ALLSKY_SFC_SW_DWN}
  {
    match p.properties
    case None => Failure(MissingProperties(p))
    case Some(props) =>
      match props.parameter
      case None => Failure(MissingKey("parameter"))
      case Some(params) =>
        if T2M !in params then Failure(MissingKey(T2M))
        else if PRECTOTCORR !in params then Failure(MissingKey(PRECTOTCORR))
        else if ALLSKY_SFC_SW_DWN !in params then Failure(MissingKey(ALLSKY_SFC_SW_DWN))
        else Success(Columns(params[T2M], params[PRECTOTCORR], params[ALLSKY_SFC_SW_DWN]))
  }

  /** The table of app.py:45-50: columns "date" and "temperature" from the
      T2M readings, "rainfall" and "solar" from the other two, matched by
      position only. Columns of different lengths make no table. */
  function BuildRows(c: Columns): (r: Result<seq<RawRow>, Error>)
    ensures r.Failure? <==> |c.rain| != |c.t2m| || |c.solar| != |c.t2m|
    ensures r.Failure? ==> r.error == LengthMismatch
    ensures r.Success? ==>
              && |r.value| == |c.t2m|
              && KeysOf(c.t2m) == seq(|r.value|, i requires 0 <= i < |r.value| => r.value[i].key)
              && ValuesOf(c.t2m) == seq(|r.value|, i requires 0 <= i < |r.value| => r.value[i].temperature)
              && ValuesOf(c.rain) == seq(|r.value|, i requires 0 <= i < |r.value| => r.value[i].rainfall)
              && ValuesOf(c.solar) == seq(|r.value|, i requires 0 <= i < |r.value| => r.value[i].solar)
  {
    if |c.rain| != |c.t2m| || |c.solar| != |c.t2m| then
      Failure(LengthMismatch)
    else
      Success(seq(|c.t2m|, i requires 0 <= i < |c.t2m| =>
                RawRow(c.t2m[i].0, c.t2m[i].1, c.rain[i].1, c.solar[i].1)))
  }

  /** A parsed row keeps its readings, carries the date its key names, and
      the month key of that date. */
  predicate ParsedFrom(day: Day, row: RawRow)
  {
    && ValidDate(day.date)
    && FormatKey(day.date) == row.key
    && day.month == MonthKey(day.date)
    && day.temperature == row.temperature
    && day.rainfall == row.rainfall
    && day.solar == row.solar
  }

  predicate KeysParse(rows: seq<RawRow>)
  {
    forall i :: 0 <= i < |rows| ==> ParseKey(rows[i].key).Some?
  }

  /** The position of the first key that is not a date. */
  function FirstBadKey(rows: seq<RawRow>): (i: nat)
    requires !KeysParse(rows)
    ensures i < |rows| && ParseKey(rows[i].key).None?
    ensures forall j :: 0 <= j < i ==> ParseKey(rows[j].key).Some?
  {
    if ParseKey(rows[0].key).None? then 0
    else
      assert !KeysParse(rows[1..]) by {
        var k :| 0 <= k < |rows| && ParseKey(rows[k].key).None?;
        assert rows[1..][k - 1] == rows[k];
      }
      FirstBadKey(rows[1..]) + 1
  }

  /** app.py:51-52: parse every key; the first key that is not a date stops
      the run and no row survives. */
  function ParseRows(rows: seq<RawRow>): (r: Result<seq<Day>, Error>)
    ensures r.Success? <==> KeysParse(rows)
    ensures r.Success? ==>
              |r.value| == |rows| && forall i :: 0 <= i < |rows| ==> ParsedFrom(r.value[i], rows[i])
    ensures r.Failure? ==> r.error == BadDateKey(rows[FirstBadKey(rows)].key)
  {
    if |rows| == 0 then Success([])
    else
      match ParseKey(rows[0].key)
      case None => Failure(BadDateKey(rows[0].key))
      case Some(d) =>
        var rest := ParseRows(rows[1..]);
        if rest.Failure? then
          assert FirstBadKey(rows) == FirstBadKey(rows[1..]) + 1;
          Failure(rest.error)
        else
          var r := rows[0];
          Success([Day(d, MonthKey(d), r.temperature, r.rainfall, r.solar)] + rest.value)
  }
}
