/** The day keys of a NASA POWER daily payload ("YYYYMMDD", the basic format of
    a calendar date in ISO 8601:2004 section 4.1.2.2) as `pd.to_datetime`
    accepts them, and the month keys ("YYYY-MM", the reduced-accuracy form of
    section 4.1.2.3) that `to_period("M").astype(str)` derives from them. */
module DateKeys {
  import opened Wrappers
  import TextOrder

  datatype Date = Date(year: int, month: int, day: int)

  /** Proleptic Gregorian leap-year rule. */
  predicate IsLeapYear(y: int)
  {
    (y % 4 == 0 && y % 100 != 0) || y % 400 == 0
  }

  function DaysInMonth(y: int, m: int): int
    requires 1 <= m <= 12
  {
    if m == 2 then (if IsLeapYear(y) then 29 else 28)
    else if m == 4 || m == 6 || m == 9 || m == 11 then 30
    else 31
  }

  /** Chronological order of calendar days. */
  predicate Before(a: Date, b: Date)
  {
    a.year < b.year
    || (a.year == b.year && a.month < b.month)
    || (a.year == b.year && a.month == b.month && a.day < b.day)
  }

  /** pandas before 3.0 holds a parsed date as nanoseconds since 1970-01-01
      in a signed 64-bit integer: the first whole day that fits is 1677-09-22
      (the smallest value falls at 00:12:43 on 1677-09-21) and the last is
      2262-04-11. A key outside these days fails to parse. */
  predicate InTimestampRange(d: Date)
  {
    Before(Date(1677, 9, 21), d) && Before(d, Date(2262, 4, 12))
  }

  predicate ValidDate(d: Date)
  {
    1 <= d.month <= 12 && 1 <= d.day <= DaysInMonth(d.year, d.month) && InTimestampRange(d)
  }

  predicate IsDigit(c: char)
  {
    '0' <= c <= '9'
  }

  predicate AllDigits(s: string)
  {
    forall i :: 0 <= i < |s| ==> IsDigit(s[i])
  }

  function DigitValue(c: char): (n: nat)
    requires IsDigit(c)
    ensures n < 10
  {
    (c as int) - ('0' as int)
  }

  function Digit(n: nat): (c: char)
    requires n < 10
    ensures IsDigit(c) && DigitValue(c) == n
  {
    (('0' as int) + n) as char
  }

  /** The value of two decimal digits. */
  function Num2(s: string): (n: nat)
    requires |s| == 2 && AllDigits(s)
    ensures n < 100
  {
    10 * DigitValue(s[0]) + DigitValue(s[1])
  }

  /** The value of four decimal digits. */
  function Num4(s: string): (n: nat)
    requires |s| == 4 && AllDigits(s)
    ensures n < 10000
  {
    100 * Num2(s[..2]) + Num2(s[2..])
  }

  /** `n` written with exactly two digits; reading them back gives `n`. */
  function Pad2(n: nat): (s: string)
    requires n < 100
    ensures |s| == 2 && AllDigits(s) && Num2(s) == n
  {
    [Digit(n / 10), Digit(n % 10)]
  }

  /** `n` written with exactly four digits; reading them back gives `n`. */
  function Pad4(n: nat): (s: string)
    requires n < 10000
    ensures |s| == 4 && AllDigits(s) && Num4(s) == n
  {
    var s := Pad2(n / 100) + Pad2(n % 100);
    assert s[..2] == Pad2(n / 100) && s[2..] == Pad2(n % 100);
    s
  }

  lemma Pad2OfNum2(s: string)
    requires |s| == 2 && AllDigits(s)
    ensures Pad2(Num2(s)) == s
  {
    var n := Num2(s);
    assert n / 10 == DigitValue(s[0]) && n % 10 == DigitValue(s[1]);
  }

  lemma Pad4OfNum4(s: string)
    requires |s| == 4 && AllDigits(s)
    ensures Pad4(Num4(s)) == s
  {
    var n := Num4(s);
    var hi, lo := Num2(s[..2]), Num2(s[2..]);
    assert n / 100 == hi && n % 100 == lo;
    Pad2OfNum2(s[..2]);
    Pad2OfNum2(s[2..]);
    assert s == s[..2] + s[2..];
  }

  /** The key a valid date is written as: YYYYMMDD. */
  function FormatKey(d: Date): (s: string)
    requires ValidDate(d)
    ensures |s| == 8 && AllDigits(s)
  {
    Pad4(d.year) + Pad2(d.month) + Pad2(d.day)
  }

  /** `pd.to_datetime` on one key (app.py:51): eight digits naming a real
      calendar day inside pandas' timestamp range, or nothing. */
  function ParseKey(s: string): (r: Option<Date>)
    ensures r.Some? ==> ValidDate(r.value) && FormatKey(r.value) == s
  {
    if |s| == 8 && AllDigits(s) then
      var d := Date(Num4(s[..4]), Num2(s[4..6]), Num2(s[6..]));
      if ValidDate(d) then
        Pad4OfNum4(s[..4]);
        Pad2OfNum2(s[4..6]);
        Pad2OfNum2(s[6..]);
        assert s == s[..4] + s[4..6] + s[6..];
        Some(d)
      else None
    else None
  }

  /** A key parses to `d` exactly when `d` is a valid date written as that key:
      every valid date round-trips, and nothing else is accepted. */
  lemma ParseKeyExact(s: string, d: Date)
    ensures ParseKey(s) == Some(d) <==> ValidDate(d) && FormatKey(d) == s
  {
    if ValidDate(d) && FormatKey(d) == s {
      assert s[..4] == Pad4(d.year) && s[4..6] == Pad2(d.month) && s[6..] == Pad2(d.day);
    }
  }

  /** 29 February exists in 2024 (divisible by 4) and in 2000 (by 400). */
  lemma LeapDayAccepted()
    ensures ParseKey("20240229") == Some(Date(2024, 2, 29))
    ensures ParseKey("20000229") == Some(Date(2000, 2, 29))
  {
    assert Pad2(20) == "20" && Pad2(24) == "24" && Pad2(0) == "00";
    assert Pad4(2024) == "2024" && Pad4(2000) == "2000";
    LeapDayKey(2024, "2024");
    LeapDayKey(2000, "2000");
    assert "2024" + "0229" == "20240229" && "2000" + "0229" == "20000229";
  }

  lemma LeapDayKey(y: nat, digits: string)
    requires y == 2024 || y == 2000
    requires Pad4(y) == digits
    ensures ParseKey(digits + "0229") == Some(Date(y, 2, 29))
  {
    var d := Date(y, 2, 29);
    assert ValidDate(d);
    assert Pad2(2) == "02" && Pad2(29) == "29";
    assert FormatKey(d) == digits + "0229";
    ParseKeyExact(digits + "0229", d);
  }

  /** 29 February does not exist in 2023 or in 1900 (divisible by 100, not
      by 400). */
  lemma NonLeapDayRefused()
    ensures ParseKey("20230229") == None
    ensures ParseKey("19000229") == None
  {
    var a, b := "20230229", "19000229";
    assert AllDigits(a) && AllDigits(b);
    assert a[..4] == "2023" && a[4..6] == "02" && a[6..] == "29";
    assert b[..4] == "1900" && b[4..6] == "02" && b[6..] == "29";
    assert Num4("2023") == 2023 && Num4("1900") == 1900 by {
      assert "2023"[..2] == "20" && "2023"[2..] == "23";
      assert "1900"[..2] == "19" && "1900"[2..] == "00";
    }
    assert !ValidDate(Date(2023, 2, 29)) && !ValidDate(Date(1900, 2, 29));
  }

  /** The first day pandas can hold is accepted, the day before is not. */
  lemma RangeEdge()
    ensures ParseKey("16770921") == None
    ensures ParseKey("16770922") == Some(Date(1677, 9, 22))
  {
    var a := "16770921";
    assert a[..4] == "1677" && a[4..6] == "09" && a[6..] == "21";
    assert Pad4(1677) == "1677" && Pad2(9) == "09" && Pad2(22) == "22";
    ParseKeyExact("16770922", Date(1677, 9, 22));
  }

  /** The month key "YYYY-MM" of a date (app.py:52): its first four
      characters read back as the year and its last two as the month. */
  function MonthKey(d: Date): (s: string)
    requires ValidDate(d)
    ensures |s| == 7 && s[4] == '-'
    ensures AllDigits(s[..4]) && Num4(s[..4]) == d.year
    ensures AllDigits(s[5..]) && Num2(s[5..]) == d.month
  {
    var s := Pad4(d.year) + "-" + Pad2(d.month);
    assert s[..4] == Pad4(d.year) && s[5..] == Pad2(d.month);
    s
  }

  /** The month key of a parsed day is the key's year digits, a hyphen and
      its month digits. */
  lemma MonthKeyOfKey(s: string)
    requires ParseKey(s).Some?
    ensures MonthKey(ParseKey(s).value) == s[..4] + "-" + s[4..6]
  {
  }

  lemma DigitOrder(x: nat, y: nat)
    requires x < 10 && y < 10
    ensures TextOrder.Less([Digit(x)], [Digit(y)]) <==> x < y
  {
  }

  /** Numbers compare as their (tens, units) pairs compare. */
  lemma DivModOrder10(x: nat, y: nat)
    ensures x < y <==> x / 10 < y / 10 || (x / 10 == y / 10 && x % 10 < y % 10)
  {
  }

  /** Numbers compare as their (hundreds, last two digits) pairs compare. */
  lemma DivModOrder100(x: nat, y: nat)
    ensures x < y <==> x / 100 < y / 100 || (x / 100 == y / 100 && x % 100 < y % 100)
  {
  }

  /** Two-digit strings sort as their values do. */
  lemma Pad2Order(x: nat, y: nat)
    requires x < 100 && y < 100
    ensures TextOrder.Less(Pad2(x), Pad2(y)) <==> x < y
  {
    assert Pad2(x) == [Digit(x / 10)] + [Digit(x % 10)];
    assert Pad2(y) == [Digit(y / 10)] + [Digit(y % 10)];
    TextOrder.LessConcat([Digit(x / 10)], [Digit(x % 10)], [Digit(y / 10)], [Digit(y % 10)]);
    DigitOrder(x / 10, y / 10);
    DigitOrder(x % 10, y % 10);
    DivModOrder10(x, y);
  }

  /** Four-digit strings sort as their values do. */
  lemma Pad4Order(x: nat, y: nat)
    requires x < 10000 && y < 10000
    ensures TextOrder.Less(Pad4(x), Pad4(y)) <==> x < y
  {
    TextOrder.LessConcat(Pad2(x / 100), Pad2(x % 100), Pad2(y / 100), Pad2(y % 100));
    Pad2Order(x / 100, y / 100);
    Pad2Order(x % 100, y % 100);
    DivModOrder100(x, y);
  }

  /** Two days share a month key exactly when they share year and month. */
  lemma MonthKeySame(a: Date, b: Date)
    requires ValidDate(a) && ValidDate(b)
    ensures MonthKey(a) == MonthKey(b) <==> a.year == b.year && a.month == b.month
  {
    if MonthKey(a) == MonthKey(b) {
      assert MonthKey(a)[..4] == Pad4(a.year) && MonthKey(b)[..4] == Pad4(b.year);
      assert MonthKey(a)[5..] == Pad2(a.month) && MonthKey(b)[5..] == Pad2(b.month);
    }
  }

  /** Month keys sort chronologically: the string order pandas sorts groups by
      is the order of (year, month). */
  lemma MonthKeyChronological(a: Date, b: Date)
    requires ValidDate(a) && ValidDate(b)
    ensures TextOrder.Less(MonthKey(a), MonthKey(b))
            <==> a.year < b.year || (a.year == b.year && a.month < b.month)
  {
    var ya, yb := Pad4(a.year), Pad4(b.year);
    var ma, mb := Pad2(a.month), Pad2(b.month);
    assert MonthKey(a) == ya + ("-" + ma) && MonthKey(b) == yb + ("-" + mb);
    TextOrder.LessConcat(ya, "-" + ma, yb, "-" + mb);
    TextOrder.LessConcat("-", ma, "-", mb);
    TextOrder.LessIrreflexive("-");
    Pad4Order(a.year, b.year);
    Pad2Order(a.month, b.month);
  }
}
