# Climate dashboard: daily-to-monthly pipeline

A Dafny model of the computation at the heart of the Streamlit climate
dashboard (`app.py:37-62`). The script takes the decoded NASA POWER daily
response for one city and year and:

1. stops, showing the payload, when it has no `properties` key;
2. builds a daily table from the `T2M` (temperature), `PRECTOTCORR`
   (rainfall) and `ALLSKY_SFC_SW_DWN` (solar) parameter maps, pairing the
   i-th `T2M` key with the i-th value of each map (by position, not by date);
3. parses every `YYYYMMDD` key as a calendar date (ISO 8601:2004 section
   4.1.2.2, proleptic Gregorian leap years) and derives its `YYYY-MM` month
   key (the reduced-accuracy form of section 4.1.2.3);
4. groups the days by month key, in ascending key order, and averages each
   metric over each month;
5. labels each month High, Low or Normal by comparing its mean temperature
   with the mean plus or minus the sample standard deviation (ddof=1) of all
   monthly means, with strict comparisons and High tested first.

Every step is a whole-table expression, so the model is pure functions over
sequences. The columns the script adds in place (`date`, `month`, `anomaly`)
become new row types: `RawRow` becomes `Day`, and a `MonthRow` paired with
its label becomes a `LabelledMonth`. Readings are `real`.

Files and modules:

- `wrappers.dfy` (`Wrappers`): `Option` and `Result`.
- `text_order.dfy` (`TextOrder`): Python's `<` on `str`, which pandas uses to sort group keys.
- `date_keys.dfy` (`DateKeys`): date-key parsing, month keys and their order.
- `daily_table.dfy` (`DailyTable`): payload lookups, the positional daily table and date parsing.
- `stats.dfy` (`Stats`): the sum and mean of a numeric column.
- `monthly.dfy` (`Monthly`): group-by-month means.
- `anomaly.dfy` (`Anomalies`): sample variance and the labels.
- `pipeline.dfy` (`Pipeline`): the whole run, with end-to-end lemmas.

Errors are values of `DailyTable.Error`:

- `MissingProperties(payload)`: the `st.error`/`st.json`/`st.stop` branch, carrying the payload shown.
- `MissingKey(name)`: the `KeyError` of a failed index.
- `LengthMismatch`: the `ValueError` pandas raises for columns of different lengths.
- `BadDateKey(key)`: the first key `pd.to_datetime` cannot parse.

The standard deviation is never computed. The model compares squared
deviations with the sample variance instead. `Anomalies.ClassifyIsThresholdLabel`
proves this gives the label of the source's lambda for the non-negative
root of the variance. With fewer than two months, pandas' `std()` is NaN.
Both comparisons against NaN are false, so every month is Normal; the model
states that case explicitly.

Where the code and a tidier design differ, the model follows the code:

- Readings are aligned by position, not by date.
- Missing readings get no special handling. Every value, including any
  upstream fill value, is averaged as it is.
- Only a missing `properties` key gets the diagnostic stop. A missing
  `parameter` or metric key fails at indexing.
- Date keys must fit the timestamp range of pandas before 3.0,
  1677-09-22 to 2262-04-11. Those versions store every parsed date as
  nanoseconds in a 64-bit integer, and `pd.to_datetime` refuses anything
  outside it.

## Model

| member | source | states |
|---|---|---|
| `DateKeys.ParseKey` | app.py:51 | an accepted key names a valid Gregorian date inside pandas' range, and that date written as `YYYYMMDD` is the key |
| `DateKeys.ParseKeyExact` | app.py:51 | a key parses to a date exactly when that date is valid and is written as that key (round trip both ways) |
| `DateKeys.LeapDayAccepted` | app.py:51 | 29 February is accepted in 2024 and in 2000 |
| `DateKeys.NonLeapDayRefused` | app.py:51 | 29 February is refused in 2023 and in 1900 |
| `DateKeys.RangeEdge` | app.py:51 | 1677-09-22 is accepted and 1677-09-21 is refused (pandas' timestamp range) |
| `DateKeys.MonthKey` | app.py:52 | a valid date's month key is seven characters with `-` at the fifth; its first four characters read back as the year and its last two as the month |
| `DateKeys.MonthKeyOfKey` | app.py:52 | a parsed day's month key is the key's year digits, `-`, and its month digits |
| `DateKeys.MonthKeySame` | app.py:52 | two days share a month key iff they share year and month |
| `DateKeys.MonthKeyChronological` | app.py:52-55 | string order of month keys, which groupby sorts by, is chronological (year, month) order |
| `DailyTable.Lookup` | app.py:37-49 | no `properties` gives the diagnostic stop with the payload; otherwise a missing `parameter`/metric key fails; success iff all keys are present, returning their readings |
| `DailyTable.BuildRows` | app.py:45-50 | the table fails iff the rainfall or solar column length differs from T2M's; otherwise its date, temperature, rainfall and solar columns are the T2M keys and the three maps' values, by position |
| `DailyTable.FirstBadKey` | app.py:51 | the position of the first key that does not parse; every earlier key parses |
| `DailyTable.ParseRows` | app.py:51-52 | succeeds iff every key parses; then each day carries its row's readings, the date its key names and that date's month key; otherwise the error names the first bad key |
| `Stats.Mean` | app.py:55-58 | the mean of a non-empty column is attained from both sides: some value is at most it and some value at least it |
| `Stats.MeanBounds` | app.py:55-58 | bounds on every value of a column bound its mean |
| `Stats.MeanOfConstant` | app.py:55-58 | the mean of equal values is that value |
| `Monthly.InMonth` | app.py:55 | the days of a month are exactly the table's days with that month key, each as many times as it occurs in the table |
| `Monthly.MonthNonEmpty` | app.py:55 | a month has days iff its key occurs in the daily table |
| `Monthly.MonthMean` | app.py:55 | a month's mean of a metric lies between readings of that month: some day of the month reads at most it and some day at least it |
| `Monthly.Insert` | app.py:55 | inserting a key into an ascending list of distinct keys keeps it ascending and adds exactly that key |
| `Monthly.GroupKeys` | app.py:55 | the group keys are strictly ascending and are exactly the keys that occur |
| `Monthly.Aggregate` | app.py:55 | monthly rows are strictly ascending by month, one per month key that occurs and no others; each metric is the sum over exactly that month's days divided by their count |
| `Monthly.AggregateRowCount` | app.py:55 | the number of monthly rows equals the number of distinct month keys among the days |
| `Monthly.OtherMonthIrrelevant` | app.py:55 | removing a day of another month leaves a month's days, and so its means, unchanged |
| `Monthly.MeanWithinReadings` | app.py:55 | a monthly mean lies between the smallest and largest reading of that month |
| `Anomalies.SampleVariance` | app.py:59 | the square of `std()` (ddof=1) is never negative, and it is zero when all monthly temperatures are equal |
| `Anomalies.ThresholdLabel` | app.py:61 | the lambda's label is Normal exactly inside the closed band mean ± std; for a non-negative std, High lies above the mean and Low below it |
| `Anomalies.Classify` | app.py:58-61 | fewer than two months gives Normal; High implies above the mean; Low implies below it |
| `Anomalies.ClassifyIsThresholdLabel` | app.py:58-61 | for the non-negative root of the sample variance, the squared-deviation test gives the lambda's label: High iff above mean+std, else Low iff below mean−std, else Normal |
| `Anomalies.BoundaryIsNormal` | app.py:61 | a month exactly at mean+std or mean−std is Normal |
| `Anomalies.ConstantIsNormal` | app.py:58-61 | when all monthly temperatures are equal (std 0), every month is Normal |
| `Anomalies.NotAllOneSide` | app.py:58-61 | some month is not High and some month is not Low |
| `Anomalies.AddAnomaly` | app.py:60-62 | labelling keeps every monthly row unchanged and in order, and gives each the label computed from all the monthly temperatures |
| `Anomalies.ThreeMonthExample` | app.py:58-61 | monthly means 10, 20, 30 have mean 20 and sample variance 100, and all three are Normal |
| `Pipeline.Run` | app.py:37-62 | a payload without `properties` stops with the payload shown and no table |
| `Pipeline.RunSucceeds` | app.py:37-51 | a run yields a table iff the lookups succeed, the three columns have equal length and every T2M key parses |
| `Pipeline.RunErrors` | app.py:37-51 | a failed lookup, unequal lengths or an unparsable T2M key each stop the run with that error |
| `Pipeline.RunMonths` | app.py:45-55 | the output months are strictly ascending and are exactly the `YYYY-MM` prefixes of the T2M keys |
| `Pipeline.DaysAreColumns` | app.py:45-52 | the days' temperature, rainfall and solar columns are the three maps' values by position, and each day is in a month iff its T2M key is |
| `Pipeline.InMonthIsPick` | app.py:52-55 | when the days' months follow the keys, a month's readings are the values picked at the keys of that month, in order |
| `Pipeline.RunMeans` | app.py:45-55 | each output value is the sum of that map's values at the positions whose T2M key falls in the month, divided by their count |
| `Pipeline.RunLabels` | app.py:58-62 | each month's label is decided by that run's monthly mean temperatures |

## Left out

- The HTTP request and JSON decoding (`app.py:34-35`) and the URL built from the city and year (`app.py:21-32`). The model starts from the decoded payload.
- Other payload content. Only the `properties` → `parameter` → metric path is modelled. The payload a failed run shows is that modelled part.
- Payload value types. The model takes every reading to be a number; values of other JSON types are not modelled.
- Duplicate keys in a JSON object. A parameter's readings are any sequence of (key, value) pairs.
- The Streamlit page, selectboxes, error display and charts (`app.py:8-19`, `app.py:68-90`). `st.stop` becomes an error result.
- The CSV export and download button (`app.py:65-66`).
- Floating point. Readings are exact reals, so there is no rounding and no NaN propagation beyond the fewer-than-two-months case.
- The mean of the datetime `date` column that `groupby().mean()` also produces. Only the three metric means are modelled.
- The emoji in the labels. The labels are `High | Low | Normal`.
- `DateKeys.ParseKey`: accepts exactly eight ASCII digits. pandas infers a format from the first key and could accept other spellings of a date (such as `2023-01-01`) that the model refuses. NASA POWER daily keys are always `YYYYMMDD`.
- `Anomalies.SampleVariance`: states that equal temperatures give zero variance, not the converse (zero variance only for equal temperatures); the labels need only the first.
- Idempotence: running the pipeline twice on one payload gives one result, because every member is a function. No lemma is stated for it.
- `climate_data.py`: the NOAA/NASA download, unit conversion, merge and plotting script is not part of this model.
