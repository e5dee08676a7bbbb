/** Fixed-format times "YYYY-MM-DD HH:MM" and the day arithmetic the server does with them.
    Python's `datetime.strptime(t, "%Y-%m-%d %H:%M")` becomes the predicate WellFormedTime (the
    inputs on which the parse succeeds) and the numbers DateOrdinal and TimeValue (what the parsed
    value is compared by). DateOrdinal counts days as Python's `date.toordinal()` does:
    0001-01-01 is day 1 of the proleptic Gregorian calendar. */
module Calendar {

  predicate IsDigit(c: char) {
    '0' <= c <= '9'
  }

  function Digit(c: char): int {
    (c as int) - ('0' as int)
  }

  /** The two-digit number at positions i and i + 1. */
  function TwoDigits(s: string, i: nat): int
    requires i + 1 < |s|
  {
    10 * Digit(s[i]) + Digit(s[i + 1])
  }

  predicate IsLeapYear(y: int) {
    y % 4 == 0 && (y % 100 != 0 || y % 400 == 0)
  }

  function DaysInMonth(y: int, m: int): int {
    if m == 2 then (if IsLeapYear(y) then 29 else 28)
    else if m == 4 || m == 6 || m == 9 || m == 11 then 30
    else 31
  }

  function DaysInYear(y: int): int {
    if IsLeapYear(y) then 366 else 365
  }

  function YearOf(d: string): int
    requires |d| >= 4
  {
    1000 * Digit(d[0]) + 100 * Digit(d[1]) + 10 * Digit(d[2]) + Digit(d[3])
  }

  function MonthOf(d: string): int
    requires |d| >= 7
  {
    TwoDigits(d, 5)
  }

  function DayOf(d: string): int
    requires |d| >= 10
  {
    TwoDigits(d, 8)
  }

  /** "YYYY-MM-DD" naming a real day from year 1 on (the dates Python's date type accepts). */
  predicate WellFormedDate(d: string) {
    && |d| == 10
    && IsDigit(d[0]) && IsDigit(d[1]) && IsDigit(d[2]) && IsDigit(d[3])
    && d[4] == '-' && IsDigit(d[5]) && IsDigit(d[6])
    && d[7] == '-' && IsDigit(d[8]) && IsDigit(d[9])
    && 1 <= YearOf(d)
    && 1 <= MonthOf(d) <= 12
    && 1 <= DayOf(d) <= DaysInMonth(YearOf(d), MonthOf(d))
  }

  /** "YYYY-MM-DD HH:MM" with a well-formed date, an hour up to 23 and a minute up to 59. */
  predicate WellFormedTime(t: string) {
    && |t| == 16
    && WellFormedDate(t[..10])
    && t[10] == ' '
    && IsDigit(t[11]) && IsDigit(t[12])
    && t[13] == ':' && IsDigit(t[14]) && IsDigit(t[15])
    && TwoDigits(t, 11) <= 23
    && TwoDigits(t, 14) <= 59
  }

  /** Days in the years before year y (Python's `_days_before_year`). */
  function DaysBeforeYear(y: int): int {
    var p := y - 1;
    p * 365 + p / 4 - p / 100 + p / 400
  }

  /** Days in the months of year y before month m (Python's `_days_before_month`). */
  function DaysBeforeMonth(y: int, m: int): (r: int)
    requires 1 <= m <= 12
    ensures 0 <= r
  {
    if m == 1 then 0 else DaysBeforeMonth(y, m - 1) + DaysInMonth(y, m - 1)
  }

  /** The day number of the date "YYYY-MM-DD" at the start of `d`; meaningful for well-formed dates. */
  function DateOrdinal(d: string): int {
    if |d| < 10 then 0
    else
      var y, m := YearOf(d), MonthOf(d);
      DaysBeforeYear(y) + (if 1 <= m <= 12 then DaysBeforeMonth(y, m) else 0) + DayOf(d)
  }

  /** The parsed value of a time, in minutes; it orders times as Python's datetime does. */
  function TimeValue(t: string): int
    requires |t| >= 16
  {
    DateOrdinal(t[..10]) * 1440 + TwoDigits(t, 11) * 60 + TwoDigits(t, 14)
  }

  function Abs(x: int): nat {
    if x < 0 then -x else x
  }

  /** `abs((parse(t).date() - parse(date + " 00:00").date()).days)`. */
  function DayDistance(t: string, date: string): nat {
    Abs(DateOrdinal(t) - DateOrdinal(date))
  }

  /** Python's `s.startswith(prefix)`. */
  predicate StartsWith(s: string, prefix: string) {
    prefix <= s
  }

  /** A year contributes its own length to the count of days before the next one. */
  lemma DaysBeforeNextYear(y: int)
    requires y >= 1
    ensures DaysBeforeYear(y + 1) == DaysBeforeYear(y) + DaysInYear(y)
  {
    var p := y - 1;
    assert y / 4 - p / 4 == (if y % 4 == 0 then 1 else 0);
    assert y / 100 - p / 100 == (if y % 100 == 0 then 1 else 0);
    assert y / 400 - p / 400 == (if y % 400 == 0 then 1 else 0);
  }

  /** Every day of an earlier year comes before the first day of a later one. */
  lemma {:induction false} DaysBeforeYearMonotone(a: int, b: int)
    requires 1 <= a < b
    ensures DaysBeforeYear(a) + DaysInYear(a) <= DaysBeforeYear(b)
    decreases b - a
  {
    DaysBeforeNextYear(a);
    if a + 1 < b {
      DaysBeforeYearMonotone(a + 1, b);
    }
  }

  /** Every day of an earlier month comes before the first day of a later one. */
  lemma {:induction false} DaysBeforeMonthMonotone(y: int, a: int, b: int)
    requires 1 <= a < b <= 12
    ensures DaysBeforeMonth(y, a) + DaysInMonth(y, a) <= DaysBeforeMonth(y, b)
    decreases b - a
  {
    if a + 1 < b {
      DaysBeforeMonthMonotone(y, a + 1, b);
    }
  }

  /** The months of a year add up to its length. */
  lemma MonthsFillYear(y: int)
    ensures DaysBeforeMonth(y, 12) + DaysInMonth(y, 12) == DaysInYear(y)
  {
    assert DaysBeforeMonth(y, 2) == 31;
    assert DaysBeforeMonth(y, 3) == 31 + DaysInMonth(y, 2);
    assert DaysBeforeMonth(y, 4) == DaysBeforeMonth(y, 3) + 31;
    assert DaysBeforeMonth(y, 5) == DaysBeforeMonth(y, 3) + 61;
    assert DaysBeforeMonth(y, 6) == DaysBeforeMonth(y, 3) + 92;
    assert DaysBeforeMonth(y, 7) == DaysBeforeMonth(y, 3) + 122;
    assert DaysBeforeMonth(y, 8) == DaysBeforeMonth(y, 3) + 153;
    assert DaysBeforeMonth(y, 9) == DaysBeforeMonth(y, 3) + 184;
    assert DaysBeforeMonth(y, 10) == DaysBeforeMonth(y, 3) + 214;
    assert DaysBeforeMonth(y, 11) == DaysBeforeMonth(y, 3) + 245;
    assert DaysBeforeMonth(y, 12) == DaysBeforeMonth(y, 3) + 275;
  }

  /** A well-formed date's day number falls within its year. */
  lemma OrdinalWithinYear(d: string)
    requires WellFormedDate(d)
    ensures DaysBeforeYear(YearOf(d)) < DateOrdinal(d) <= DaysBeforeYear(YearOf(d)) + DaysInYear(YearOf(d))
  {
    var y, m := YearOf(d), MonthOf(d);
    MonthsFillYear(y);
    if m < 12 {
      DaysBeforeMonthMonotone(y, m, 12);
    }
    assert DateOrdinal(d) == DaysBeforeYear(y) + DaysBeforeMonth(y, m) + DayOf(d);
  }

  /** Dates in different years have different day numbers. */
  lemma SameOrdinalSameYear(d1: string, d2: string)
    requires WellFormedDate(d1) && WellFormedDate(d2)
    requires DateOrdinal(d1) == DateOrdinal(d2)
    ensures YearOf(d1) == YearOf(d2)
  {
    var y1, y2 := YearOf(d1), YearOf(d2);
    OrdinalWithinYear(d1);
    OrdinalWithinYear(d2);
    if y1 < y2 {
      DaysBeforeYearMonotone(y1, y2);
    } else if y2 < y1 {
      DaysBeforeYearMonotone(y2, y1);
    }
  }

  /** Within one year, different months or days give different day numbers. */
  lemma SameOrdinalSameMonthAndDay(d1: string, d2: string)
    requires WellFormedDate(d1) && WellFormedDate(d2)
    requires YearOf(d1) == YearOf(d2)
    requires DateOrdinal(d1) == DateOrdinal(d2)
    ensures MonthOf(d1) == MonthOf(d2) && DayOf(d1) == DayOf(d2)
  {
    var y, m1, m2 := YearOf(d1), MonthOf(d1), MonthOf(d2);
    assert DateOrdinal(d1) == DaysBeforeYear(y) + DaysBeforeMonth(y, m1) + DayOf(d1);
    assert DateOrdinal(d2) == DaysBeforeYear(y) + DaysBeforeMonth(y, m2) + DayOf(d2);
    if m1 < m2 {
      DaysBeforeMonthMonotone(y, m1, m2);
    } else if m2 < m1 {
      DaysBeforeMonthMonotone(y, m2, m1);
    }
  }

  lemma DigitsDetermineChars(c1: char, c2: char)
    requires Digit(c1) == Digit(c2)
    ensures c1 == c2
  {
    assert c1 as int == c2 as int;
  }

  /** A well-formed date is determined by its year, month and day. */
  lemma SameFieldsSameDate(d1: string, d2: string)
    requires WellFormedDate(d1) && WellFormedDate(d2)
    requires YearOf(d1) == YearOf(d2) && MonthOf(d1) == MonthOf(d2) && DayOf(d1) == DayOf(d2)
    ensures d1 == d2
  {
    assert Digit(d1[0]) == Digit(d2[0]) && Digit(d1[1]) == Digit(d2[1]);
    assert Digit(d1[2]) == Digit(d2[2]) && Digit(d1[3]) == Digit(d2[3]);
    assert Digit(d1[5]) == Digit(d2[5]) && Digit(d1[6]) == Digit(d2[6]);
    assert Digit(d1[8]) == Digit(d2[8]) && Digit(d1[9]) == Digit(d2[9]);
    forall i | 0 <= i < 10 ensures d1[i] == d2[i] {
      if i != 4 && i != 7 {
        DigitsDetermineChars(d1[i], d2[i]);
      }
    }
  }

  /** Two well-formed dates with the same day number are the same date. */
  lemma DateOrdinalInjective(d1: string, d2: string)
    requires WellFormedDate(d1) && WellFormedDate(d2)
    requires DateOrdinal(d1) == DateOrdinal(d2)
    ensures d1 == d2
  {
    SameOrdinalSameYear(d1, d2);
    SameOrdinalSameMonthAndDay(d1, d2);
    SameFieldsSameDate(d1, d2);
  }

  /** Days between a well-formed time and a well-formed date, positive off that date. */
  lemma DayDistanceOtherDay(t: string, date: string)
    requires WellFormedTime(t) && WellFormedDate(date)
    requires !StartsWith(t, date)
    ensures DayDistance(t, date) >= 1
  {
    var d := t[..10];
    assert DateOrdinal(t) == DateOrdinal(d);
    if DateOrdinal(d) == DateOrdinal(date) {
      DateOrdinalInjective(d, date);
    }
  }
}
