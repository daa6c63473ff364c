/**
 * Calendar dates as both scripts format them with `strftime` and as `_generate_markdown` checks
 * them with `datetime.strptime(s, '%Y-%m-%d')`.
 */
module Dates {
  import opened Wrappers
  import opened PyStr

  datatype Date = Date(year: nat, month: nat, day: nat)

  /** What `datetime.now()` supplies: a date and a time of day. */
  datatype Timestamp = Timestamp(date: Date, hour: nat, minute: nat, second: nat)

  predicate IsLeapYear(y: nat) {
    y % 4 == 0 && (y % 100 != 0 || y % 400 == 0)
  }

  function DaysInMonth(y: nat, m: nat): (n: nat)
    requires 1 <= m <= 12
    ensures 28 <= n <= 31
  {
    if m == 2 then (if IsLeapYear(y) then 29 else 28)
    else if m == 4 || m == 6 || m == 9 || m == 11 then 30
    else 31
  }

  /** The dates `datetime.date` accepts. */
  predicate ValidDate(d: Date) {
    1 <= d.year <= 9999 && 1 <= d.month <= 12 && 1 <= d.day <= DaysInMonth(d.year, d.month)
  }

  predicate ValidTimestamp(t: Timestamp) {
    ValidDate(t.date) && t.hour < 24 && t.minute < 60 && t.second < 60
  }

  function Digit(n: nat): (c: char)
    requires n < 10
    ensures IsAsciiDigit(c)
  {
    ('0' as int + n) as char
  }

  predicate AllDigits(s: string) {
    forall i :: 0 <= i < |s| ==> IsAsciiDigit(s[i])
  }

  /** The number a string of decimal digits denotes. */
  function DigitsValue(s: string): nat
    requires AllDigits(s)
    decreases |s|
  {
    if s == [] then 0 else DigitsValue(s[..|s| - 1]) * 10 + (s[|s| - 1] as int - '0' as int)
  }

  function Pow10(k: nat): (p: nat)
    ensures p >= 1
  {
    if k == 0 then 1 else 10 * Pow10(k - 1)
  }

  /** `n` in decimal, zero-padded to at least `width` digits (the `%Y`, `%m`, `%d`, `%H` ... fields). */
  function Decimal(n: nat, width: nat): (r: string)
    ensures AllDigits(r) && DigitsValue(r) == n
    ensures |r| >= 1 && |r| >= width
    ensures 1 <= width && n < Pow10(width) ==> |r| == width
    decreases n + width
  {
    var last := [Digit(n % 10)];
    if n < 10 && width <= 1 then last
    else
      var w := if width == 0 then 0 else width - 1;
      var front := Decimal(n / 10, w);
      var r := front + last;
      assert r[..|r| - 1] == front;
      r
  }

  /** `strftime('%Y-%m-%d')`. */
  function FormatIsoDate(d: Date): string {
    Decimal(d.year, 4) + "-" + Decimal(d.month, 2) + "-" + Decimal(d.day, 2)
  }

  /** `strftime('%Y%m%d')`. */
  function FormatCompactDate(d: Date): string {
    Decimal(d.year, 4) + Decimal(d.month, 2) + Decimal(d.day, 2)
  }

  /** `strftime('%Y%m%d-%H%M%S')`. */
  function FormatCompactDateTime(t: Timestamp): string {
    FormatCompactDate(t.date) + "-" + Decimal(t.hour, 2) + Decimal(t.minute, 2) + Decimal(t.second, 2)
  }

  /** The alternatives `1[0-2]|0[1-9]|[1-9]` that `strptime` accepts for `%m`. */
  predicate IsMonthToken(m: string) {
    || (|m| == 2 && m[0] == '1' && '0' <= m[1] <= '2')
    || (|m| == 2 && m[0] == '0' && '1' <= m[1] <= '9')
    || (|m| == 1 && '1' <= m[0] <= '9')
  }

  /** The alternatives `3[01]|[12]\d|0[1-9]|[1-9]| [1-9]` that `strptime` accepts for `%d`. */
  predicate IsDayToken(d: string) {
    || (|d| == 2 && d[0] == '3' && (d[1] == '0' || d[1] == '1'))
    || (|d| == 2 && (d[0] == '1' || d[0] == '2') && IsAsciiDigit(d[1]))
    || (|d| == 2 && d[0] == '0' && '1' <= d[1] <= '9')
    || (|d| == 1 && '1' <= d[0] <= '9')
    || (|d| == 2 && d[0] == ' ' && '1' <= d[1] <= '9')
  }

  /** The value of a day token; the form ` 5` has a leading blank. */
  function DayValue(d: string): nat
    requires IsDayToken(d)
  {
    if d[0] == ' ' then DigitsValue(d[1..]) else DigitsValue(d)
  }

  function TwoDigitValue(a: char, b: char): nat
    requires IsAsciiDigit(a) && IsAsciiDigit(b)
  {
    (a as int - '0' as int) * 10 + (b as int - '0' as int)
  }

  lemma DigitsValueTwo(s: string)
    requires |s| == 2 && AllDigits(s)
    ensures DigitsValue(s) == TwoDigitValue(s[0], s[1])
  {
    var f := s[..1];
    assert f[..0] == [] && f[0] == s[0];
    assert DigitsValue(f) == s[0] as int - '0' as int;
  }

  lemma DigitsValueFour(s: string)
    requires |s| == 4 && AllDigits(s)
    ensures DigitsValue(s) == TwoDigitValue(s[0], s[1]) * 100 + TwoDigitValue(s[2], s[3])
  {
    var f := s[..3];
    var g := f[..2];
    assert g == s[..2];
    DigitsValueTwo(g);
    assert DigitsValue(f) == DigitsValue(g) * 10 + (s[2] as int - '0' as int);
  }

  lemma DigitsValueOne(s: string)
    requires |s| == 1 && AllDigits(s)
    ensures DigitsValue(s) == s[0] as int - '0' as int
  {
    assert s[..0] == [];
  }

  /** A month token denotes a month. */
  lemma MonthTokenRange(m: string)
    requires IsMonthToken(m)
    ensures AllDigits(m) && 1 <= DigitsValue(m) <= 12
  {
    if |m| == 2 { DigitsValueTwo(m); } else { DigitsValueOne(m); }
  }

  /** A day token denotes a day number of at most 31. */
  lemma DayTokenRange(d: string)
    requires IsDayToken(d)
    ensures 1 <= DayValue(d) <= 31
  {
    if d[0] == ' ' {
      DigitsValueOne(d[1..]);
    } else if |d| == 2 {
      DigitsValueTwo(d);
    } else {
      DigitsValueOne(d);
    }
  }

  /**
   * `datetime.strptime(s, '%Y-%m-%d')`: four digits, `-`, a month token, `-`, a day token, the
   * whole string consumed, then the date must exist (year 0 and February 30 are refused).
   * A month token is one or two characters and has no `-`, so the second hyphen sits at index
   * 6 or 7, whichever the text has.
   */
  function ParseIsoDate(s: string): (r: Option<Date>)
    ensures r.Some? ==> ValidDate(r.value)
  {
    if |s| < 8 || !AllDigits(s[..4]) || s[4] != '-' then None
    else
      var k := if s[6] == '-' then 6 else 7;
      if s[k] != '-' || !IsMonthToken(s[5..k]) || !IsDayToken(s[k + 1..]) then None
      else
        MonthTokenRange(s[5..k]);
        DigitsValueFour(s[..4]);
        var d := Date(DigitsValue(s[..4]), DigitsValue(s[5..k]), DayValue(s[k + 1..]));
        if 1 <= d.year && d.day <= DaysInMonth(d.year, d.month) then
          DayTokenRange(s[k + 1..]);
          Some(d)
        else None
  }

  lemma TwoDigitsOf(n: nat)
    requires n < 100
    ensures Decimal(n, 2) == [Digit(n / 10), Digit(n % 10)]
  {
    assert Decimal(n / 10, 1) == [Digit(n / 10)];
  }

  /** Where the fields of a formatted date sit. */
  lemma FormattedFields(y: string, m: string, dd: string)
    requires |y| == 4 && |m| == 2 && |dd| == 2
    ensures var s := y + "-" + m + "-" + dd;
      && |s| == 10 && s[..4] == y && s[4] == '-' && s[6] == m[1]
      && s[7] == '-' && s[5..7] == m && s[8..] == dd
  {
    var s := y + "-" + m + "-" + dd;
    assert s[5..7] == m by {
      assert s[5] == m[0] && s[6] == m[1];
    }
  }

  /** `strptime` reads back every date `strftime('%Y-%m-%d')` writes. */
  lemma ParseFormattedDate(d: Date)
    requires ValidDate(d)
    ensures ParseIsoDate(FormatIsoDate(d)) == Some(d)
  {
    var y, m, dd := Decimal(d.year, 4), Decimal(d.month, 2), Decimal(d.day, 2);
    FormattedFields(y, m, dd);
    TwoDigitsOf(d.month);
    TwoDigitsOf(d.day);
    assert IsMonthToken(m);
    assert IsDayToken(dd);
    assert DayValue(dd) == d.day;
  }

  lemma LeapDayAccepted()
    ensures ParseIsoDate("2024-02-29") == Some(Date(2024, 2, 29))
  {
    var s := "2024-02-29";
    assert s[..4] == "2024" && s[5..7] == "02" && s[8..] == "29";
    DigitsValueFour(s[..4]);
    DigitsValueTwo("02");
    DigitsValueTwo("29");
  }

  lemma NonLeapDayRefused()
    ensures ParseIsoDate("2023-02-29") == None
  {
    var s := "2023-02-29";
    assert s[..4] == "2023" && s[5..7] == "02" && s[8..] == "29";
    DigitsValueFour(s[..4]);
    DigitsValueTwo("02");
    DigitsValueTwo("29");
  }

  /** `strptime` also takes single-digit months and days. */
  lemma ShortFieldsAccepted()
    ensures ParseIsoDate("2024-1-5") == Some(Date(2024, 1, 5))
  {
    var s := "2024-1-5";
    assert s[..4] == "2024" && s[5..6] == "1" && s[7..] == "5";
    DigitsValueFour(s[..4]);
    DigitsValueOne("1");
    DigitsValueOne("5");
  }

  lemma YearZeroRefused()
    ensures ParseIsoDate("0000-01-01") == None
  {
    var s := "0000-01-01";
    assert s[..4] == "0000" && s[5..7] == "01" && s[8..] == "01";
    DigitsValueFour(s[..4]);
  }
}
