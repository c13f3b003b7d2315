/**
 * Calendar dates as pandas sees them after `pd.to_datetime(..., errors='coerce')` on a
 * `YYYY-MM-DD` string: a proleptic Gregorian date, represented by its day number
 * (days since 1970-01-01), restricted to the range of a nanosecond `Timestamp`.
 */
module Calendar {
  import opened Wrappers
  import opened Text

  predicate IsLeapYear(y: int) {
    y % 4 == 0 && (y % 100 != 0 || y % 400 == 0)
  }

  function DaysInMonth(y: int, m: int): int
    requires 1 <= m <= 12
  {
    if m == 2 then (if IsLeapYear(y) then 29 else 28)
    else if m == 4 || m == 6 || m == 9 || m == 11 then 30
    else 31
  }

  predicate ValidDate(y: int, m: int, d: int) {
    1 <= m <= 12 && 1 <= d <= DaysInMonth(y, m)
  }

  /** Days from 0001-01-01 to the first of January of year `y`. */
  function DaysBeforeYear(y: int): int {
    var p := y - 1;
    365 * p + p / 4 - p / 100 + p / 400
  }

  /** Days from the first of January of year `y` to the first of month `m`. */
  function DaysBeforeMonth(y: int, m: int): int
    requires 1 <= m <= 13
  {
    if m == 1 then 0 else DaysBeforeMonth(y, m - 1) + DaysInMonth(y, m - 1)
  }

  /** The number of days from 0001-01-01 to 1970-01-01. */
  const EpochOffset: int := 719162

  /** Days since 1970-01-01 of the date `y`-`m`-`d`. */
  function DayNumber(y: int, m: int, d: int): int
    requires 1 <= m <= 12
  {
    DaysBeforeYear(y) + DaysBeforeMonth(y, m) + d - 1 - EpochOffset
  }

  /** First and last whole days a nanosecond `Timestamp` can hold (1677-09-22 and 2262-04-11);
      an ISO date outside them is coerced to NaT. */
  const MinDay: int := -106751
  const MaxDay: int := 106751

  lemma TimestampBounds()
    ensures DayNumber(1970, 1, 1) == 0
    ensures DayNumber(1677, 9, 22) == MinDay && DayNumber(1677, 9, 21) == MinDay - 1
    ensures DayNumber(2262, 4, 11) == MaxDay && DayNumber(2262, 4, 12) == MaxDay + 1
  {
  }

  /** The calendar day after a valid date. */
  function NextDate(y: int, m: int, d: int): (int, int, int)
    requires ValidDate(y, m, d)
  {
    if d < DaysInMonth(y, m) then (y, m, d + 1)
    else if m < 12 then (y, m + 1, 1)
    else (y + 1, 1, 1)
  }

  lemma DaysInYear(y: int)
    ensures DaysBeforeMonth(y, 13) == if IsLeapYear(y) then 366 else 365
  {
    var leap := if IsLeapYear(y) then 1 else 0;
    assert DaysBeforeMonth(y, 2) == 31;
    assert DaysBeforeMonth(y, 3) == 59 + leap;
    assert DaysBeforeMonth(y, 4) == 90 + leap;
    assert DaysBeforeMonth(y, 5) == 120 + leap;
    assert DaysBeforeMonth(y, 6) == 151 + leap;
    assert DaysBeforeMonth(y, 7) == 181 + leap;
    assert DaysBeforeMonth(y, 8) == 212 + leap;
    assert DaysBeforeMonth(y, 9) == 243 + leap;
    assert DaysBeforeMonth(y, 10) == 273 + leap;
    assert DaysBeforeMonth(y, 11) == 304 + leap;
    assert DaysBeforeMonth(y, 12) == 334 + leap;
  }

  lemma StepDiv4(p: int)
    ensures (p + 1) / 4 == p / 4 + (if (p + 1) % 4 == 0 then 1 else 0)
  {
  }

  lemma StepDiv100(p: int)
    ensures (p + 1) / 100 == p / 100 + (if (p + 1) % 100 == 0 then 1 else 0)
  {
  }

  lemma StepDiv400(p: int)
    ensures (p + 1) / 400 == p / 400 + (if (p + 1) % 400 == 0 then 1 else 0)
  {
  }

  lemma YearLength(y: int)
    ensures DaysBeforeYear(y + 1) == DaysBeforeYear(y) + if IsLeapYear(y) then 366 else 365
  {
    LeapDaysStep(y);
    assert DaysBeforeYear(y + 1) == 365 * y + y / 4 - y / 100 + y / 400;
    assert DaysBeforeYear(y) == 365 * (y - 1) + (y - 1) / 4 - (y - 1) / 100 + (y - 1) / 400;
  }

  /** The leap days counted up to year `y` grow by one exactly when `y` is a leap year. */
  lemma LeapDaysStep(y: int)
    ensures y / 4 - y / 100 + y / 400 == (y - 1) / 4 - (y - 1) / 100 + (y - 1) / 400 + if IsLeapYear(y) then 1 else 0
  {
    var p := y - 1;
    StepDiv4(p);
    StepDiv100(p);
    StepDiv400(p);
    DivisibleBy400(y);
    DivisibleBy100(y);
  }

  lemma DivisibleBy400(y: int)
    ensures y % 400 == 0 ==> y % 100 == 0
  {
    if y % 400 == 0 {
      var q := y / 400;
      assert y == 100 * (4 * q);
    }
  }

  lemma DivisibleBy100(y: int)
    ensures y % 100 == 0 ==> y % 4 == 0
  {
    if y % 100 == 0 {
      var q := y / 100;
      assert y == 4 * (25 * q);
    }
  }

  /** Day numbers count calendar days: the next date is exactly one day later. */
  lemma NextDateIsNextDay(y: int, m: int, d: int)
    requires ValidDate(y, m, d)
    ensures var (y', m', d') := NextDate(y, m, d);
            ValidDate(y', m', d') && DayNumber(y', m', d') == DayNumber(y, m, d) + 1
  {
    if d == DaysInMonth(y, m) && m == 12 {
      DaysInYear(y);
      YearLength(y);
    }
  }

  /** The text `YYYY-MM-DD` of a date whose year has four digits. */
  function FormatIsoDate(y: nat, m: nat, d: nat): string
    requires y < 10000 && m < 100 && d < 100
  {
    Padded(y, 4) + "-" + Padded(m, 2) + "-" + Padded(d, 2)
  }

  /** `pd.to_datetime(s, errors='coerce')` for the `YYYY-MM-DD` shape: the day number of a valid
      date within the `Timestamp` range, and `None` (NaT) for anything else. */
  function ParseIsoDate(s: string): (r: Option<int>)
    ensures r.Some? ==> MinDay <= r.value <= MaxDay
  {
    if |s| == 10 && s[4] == '-' && s[7] == '-' && AllDigits(s[..4]) && AllDigits(s[5..7]) && AllDigits(s[8..]) then
      var y, m, d := DigitsValue(s[..4]), DigitsValue(s[5..7]), DigitsValue(s[8..]);
      if ValidDate(y, m, d) && MinDay <= DayNumber(y, m, d) <= MaxDay then Some(DayNumber(y, m, d)) else None
    else None
  }

  /** Formatting a date in range and parsing the text back gives that date's day number. */
  lemma ParseFormatIsoDate(y: nat, m: nat, d: nat)
    requires y < 10000 && ValidDate(y, m, d) && MinDay <= DayNumber(y, m, d) <= MaxDay
    ensures ParseIsoDate(FormatIsoDate(y, m, d)) == Some(DayNumber(y, m, d))
  {
    var s := FormatIsoDate(y, m, d);
    assert s[..4] == Padded(y, 4);
    assert s[5..7] == Padded(m, 2);
    assert s[8..] == Padded(d, 2);
  }

  /** Every text the parser accepts is the formatted form of the date it returns. */
  lemma ParsedIsFormatted(s: string)
    requires ParseIsoDate(s).Some?
    ensures |s| == 10 && AllDigits(s[..4]) && AllDigits(s[5..7]) && AllDigits(s[8..])
    ensures var y, m, d := DigitsValue(s[..4]), DigitsValue(s[5..7]), DigitsValue(s[8..]);
            y < 10000 && ValidDate(y, m, d) && s == FormatIsoDate(y, m, d)
            && ParseIsoDate(s) == Some(DayNumber(y, m, d))
  {
    ParsedFields(s);
    DigitFieldsFormatted(s);
  }

  /** What the parser checks of a text it accepts. */
  lemma ParsedFields(s: string)
    requires ParseIsoDate(s).Some?
    ensures |s| == 10 && s[4] == '-' && s[7] == '-'
    ensures AllDigits(s[..4]) && AllDigits(s[5..7]) && AllDigits(s[8..])
    ensures var y, m, d := DigitsValue(s[..4]), DigitsValue(s[5..7]), DigitsValue(s[8..]);
            ValidDate(y, m, d) && ParseIsoDate(s) == Some(DayNumber(y, m, d))
  {
  }

  /** A text of the shape `DDDD-DD-DD` is the formatted form of its three digit fields. */
  lemma DigitFieldsFormatted(s: string)
    requires |s| == 10 && s[4] == '-' && s[7] == '-'
    requires AllDigits(s[..4]) && AllDigits(s[5..7]) && AllDigits(s[8..])
    ensures var y, m, d := DigitsValue(s[..4]), DigitsValue(s[5..7]), DigitsValue(s[8..]);
            y < 10000 && m < 100 && d < 100 && s == FormatIsoDate(y, m, d)
  {
    var a, b, c := s[..4], s[5..7], s[8..];
    PaddedOfValue(a);
    PaddedOfValue(b);
    PaddedOfValue(c);
    assert Pow10(2) == 100 && Pow10(4) == 10000 by {
      assert Pow10(1) == 10;
      assert Pow10(3) == 1000;
    }
    assert s == a + "-" + b + "-" + c by {
      forall k | 0 <= k < 10 ensures s[k] == (a + "-" + b + "-" + c)[k] {
      }
    }
  }
}
