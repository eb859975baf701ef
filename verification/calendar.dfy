/**
 * The proleptic Gregorian calendar of Python's `datetime`, the day count
 * behind spreadsheet serial dates, and the RFC 3339 `full-date` and
 * `partial-time` shapes that `strftime('%Y-%m-%d')` and
 * `strftime('%H:%M:%S')` produce.
 */
module Calendar {
  import opened Strings

  predicate IsLeap(y: int) {
    y % 4 == 0 && (y % 100 != 0 || y % 400 == 0)
  }

  /** Days in month `m` of year `y`, as restricted by section 5.7 of RFC 3339. */
  function DaysInMonth(y: int, m: int): int
    requires 1 <= m <= 12
  {
    if m == 2 then (if IsLeap(y) then 29 else 28)
    else if m == 4 || m == 6 || m == 9 || m == 11 then 30
    else 31
  }

  function DaysInYear(y: int): int {
    if IsLeap(y) then 366 else 365
  }

  datatype Date = Date(year: int, month: int, day: int)

  /** A date `datetime.date` accepts: years 1 to 9999 and a day that exists in its month. */
  predicate ValidDate(d: Date) {
    1 <= d.year <= 9999 && 1 <= d.month <= 12 && 1 <= d.day <= DaysInMonth(d.year, d.month)
  }

  type CivilDate = d: Date | ValidDate(d) witness Date(1, 1, 1)

  datatype Time = Time(hour: int, minute: int, second: int)

  predicate ValidTime(t: Time) {
    0 <= t.hour <= 23 && 0 <= t.minute <= 59 && 0 <= t.second <= 59
  }

  type ClockTime = t: Time | ValidTime(t) witness Time(0, 0, 0)

  const Midnight: ClockTime := Time(0, 0, 0)

  // ---------------------------------------------------------------- day numbers

  /** Days from 0001-01-01 to the first day of year `y`. */
  function DaysBeforeYear(y: int): (n: int)
    requires y >= 1
    ensures n >= 365 * (y - 1)
  {
    var p := y - 1;
    assert p / 4 >= p / 100 by {
      assert p / 100 * 100 <= p;
      assert p / 100 * 4 * 25 <= p;
    }
    365 * p + p / 4 - p / 100 + p / 400
  }

  lemma {:induction false} DaysBeforeNextYear(y: int)
    requires y >= 1
    ensures DaysBeforeYear(y + 1) == DaysBeforeYear(y) + DaysInYear(y)
  {
    var p := y - 1;
    QuotientStep4(p);
    QuotientStep100(p);
    QuotientStep400(p);
    LeapDivisors(y);
  }

  /** Moving from `p` to `p + 1` raises `p / 4` exactly when `p + 1` is a multiple of 4. */
  lemma {:induction false} QuotientStep4(p: int)
    requires p >= 0
    ensures (p + 1) / 4 == p / 4 + (if (p + 1) % 4 == 0 then 1 else 0)
  {
  }

  lemma {:induction false} QuotientStep100(p: int)
    requires p >= 0
    ensures (p + 1) / 100 == p / 100 + (if (p + 1) % 100 == 0 then 1 else 0)
  {
  }

  lemma {:induction false} QuotientStep400(p: int)
    requires p >= 0
    ensures (p + 1) / 400 == p / 400 + (if (p + 1) % 400 == 0 then 1 else 0)
  {
  }

  /** A multiple of 400 is one of 100, and a multiple of 100 is one of 4. */
  lemma {:induction false} LeapDivisors(y: int)
    ensures y % 400 == 0 ==> y % 100 == 0
    ensures y % 100 == 0 ==> y % 4 == 0
  {
    if y % 400 == 0 {
      assert y == 400 * (y / 400);
    }
    if y % 100 == 0 {
      assert y == 100 * (y / 100);
    }
  }

  lemma {:induction false} DaysBeforeYearMonotone(y: int, z: int)
    requires 1 <= y <= z
    ensures DaysBeforeYear(y) + 365 * (z - y) <= DaysBeforeYear(z)
    decreases z - y
  {
    if y < z {
      DaysBeforeNextYear(y);
      DaysBeforeYearMonotone(y + 1, z);
    }
  }

  /** Days from the first of the year to the first of month `m`. */
  function DaysBeforeMonth(y: int, m: int): (n: nat)
    requires 1 <= m <= 12
  {
    [0, 31, 59, 90, 120, 151, 181, 212, 243, 273, 304, 334][m - 1] + (if m > 2 && IsLeap(y) then 1 else 0)
  }

  lemma {:induction false} DaysBeforeNextMonth(y: int, m: int)
    requires 1 <= m < 12
    ensures DaysBeforeMonth(y, m + 1) == DaysBeforeMonth(y, m) + DaysInMonth(y, m)
  {
  }

  lemma {:induction false} DaysBeforeMonthBound(y: int, m: int)
    requires 1 <= m <= 12
    ensures DaysBeforeMonth(y, m) + DaysInMonth(y, m) <= DaysInYear(y)
    ensures DaysBeforeMonth(y, 12) + DaysInMonth(y, 12) == DaysInYear(y)
  {
  }

  /** The number of days from 0001-01-01 to `d` (`d.toordinal() - 1`). */
  function Ordinal(d: CivilDate): (k: nat)
    ensures DaysBeforeYear(d.year) <= k < DaysBeforeYear(d.year) + DaysInYear(d.year)
  {
    DaysBeforeMonthBound(d.year, d.month);
    DaysBeforeYear(d.year) + DaysBeforeMonth(d.year, d.month) + d.day - 1
  }

  /** Counts `k` days into year `y`, starting at month `m`. */
  function FromMonth(y: int, m: int, k: nat): Date
    requires 1 <= m <= 12
    decreases 12 - m
  {
    if m == 12 || k < DaysInMonth(y, m) then Date(y, m, k + 1)
    else FromMonth(y, m + 1, k - DaysInMonth(y, m))
  }

  /** Counts `k` days forward from the first of January of year `y`. */
  function FromYear(y: int, k: nat): Date
    requires y >= 1
    decreases k
  {
    if k < DaysInYear(y) then FromMonth(y, 1, k)
    else FromYear(y + 1, k - DaysInYear(y))
  }

  /** The date `k` days after 0001-01-01 (`date.fromordinal(k + 1)`). */
  function FromOrdinal(k: nat): Date {
    FromYear(1, k)
  }

  /** The number of days representable by a `datetime.date`. */
  const OrdinalLimit := DaysBeforeYear(10000)

  lemma {:induction false} FromMonthCorrect(y: int, m: int, k: nat)
    requires 1 <= y <= 9999 && 1 <= m <= 12
    requires DaysBeforeMonth(y, m) + k < DaysInYear(y)
    ensures var d := FromMonth(y, m, k);
      ValidDate(d) && d.year == y && m <= d.month
      && DaysBeforeMonth(y, d.month) + d.day - 1 == DaysBeforeMonth(y, m) + k
    decreases 12 - m
  {
    DaysBeforeMonthBound(y, m);
    if !(m == 12 || k < DaysInMonth(y, m)) {
      DaysBeforeNextMonth(y, m);
      FromMonthCorrect(y, m + 1, k - DaysInMonth(y, m));
    }
  }

  lemma {:induction false} FromYearCorrect(y: int, k: nat)
    requires y >= 1
    requires DaysBeforeYear(y) + k < OrdinalLimit
    ensures ValidDate(FromYear(y, k))
    ensures Ordinal(FromYear(y, k)) == DaysBeforeYear(y) + k
    decreases k
  {
    if y > 9999 {
      DaysBeforeYearMonotone(10000, y);
      assert false;
    }
    if k < DaysInYear(y) {
      FromMonthCorrect(y, 1, k);
    } else {
      DaysBeforeNextYear(y);
      FromYearCorrect(y + 1, k - DaysInYear(y));
    }
  }

  lemma {:induction false} FromMonthOfDate(d: CivilDate, m: int)
    requires 1 <= m <= d.month
    requires DaysBeforeMonth(d.year, m) <= DaysBeforeMonth(d.year, d.month)
    ensures FromMonth(d.year, m, DaysBeforeMonth(d.year, d.month) + d.day - 1 - DaysBeforeMonth(d.year, m)) == d
    decreases d.month - m
  {
    var k := DaysBeforeMonth(d.year, d.month) + d.day - 1 - DaysBeforeMonth(d.year, m);
    if m < d.month {
      MonthsBetween(d.year, m, d.month);
      DaysBeforeNextMonth(d.year, m);
      FromMonthOfDate(d, m + 1);
    }
  }

  lemma {:induction false} MonthsBetween(y: int, m: int, n: int)
    requires 1 <= m < n <= 12
    ensures DaysBeforeMonth(y, n) >= DaysBeforeMonth(y, m) + DaysInMonth(y, m)
    decreases n - m
  {
    DaysBeforeNextMonth(y, m);
    if m + 1 < n {
      MonthsBetween(y, m, n - 1);
      DaysBeforeNextMonth(y, n - 1);
    }
  }

  /** The days of years `y` up to, not including, `z`, counted one year at a time. */
  function YearSpan(y: int, z: int): (n: nat)
    requires 1 <= y <= z
    decreases z - y
  {
    if y == z then 0 else DaysInYear(y) + YearSpan(y + 1, z)
  }

  /** The year-at-a-time count agrees with the closed formula. */
  lemma {:induction false} YearSpanIsDifference(y: int, z: int)
    requires 1 <= y <= z
    ensures YearSpan(y, z) == DaysBeforeYear(z) - DaysBeforeYear(y)
    decreases z - y
  {
    if y < z {
      DaysBeforeNextYear(y);
      YearSpanIsDifference(y + 1, z);
    }
  }

  /** Days from the first of January of its year to `d`. */
  function DayOfYear(d: CivilDate): nat {
    DaysBeforeMonth(d.year, d.month) + d.day - 1
  }

  lemma {:induction false} FromYearOfDate(d: CivilDate, y: int)
    requires 1 <= y <= d.year
    ensures FromYear(y, YearSpan(y, d.year) + DayOfYear(d)) == d
    decreases d.year - y
  {
    var k := YearSpan(y, d.year) + DayOfYear(d);
    if y < d.year {
      assert k == DaysInYear(y) + (YearSpan(y + 1, d.year) + DayOfYear(d));
      FromYearSkip(y, k);
      FromYearOfDate(d, y + 1);
    } else {
      DaysBeforeMonthBound(d.year, d.month);
      FromYearLast(y, k);
      FromMonthOfDate(d, 1);
    }
  }

  lemma {:induction false} FromYearSkip(y: int, k: nat)
    requires y >= 1 && k >= DaysInYear(y)
    ensures FromYear(y, k) == FromYear(y + 1, k - DaysInYear(y))
  {
  }

  lemma {:induction false} FromYearLast(y: int, k: nat)
    requires y >= 1 && k < DaysInYear(y)
    ensures FromYear(y, k) == FromMonth(y, 1, k)
  {
  }

  lemma {:induction false} OrdinalRoundTrip(d: CivilDate)
    ensures Ordinal(d) < OrdinalLimit
    ensures FromOrdinal(Ordinal(d)) == d
  {
    DaysBeforeNextYear(d.year);
    DaysBeforeYearMonotone(d.year + 1, 10000);
    YearSpanIsDifference(1, d.year);
    FromYearOfDate(d, 1);
  }

  lemma {:induction false} FromOrdinalRoundTrip(k: nat)
    requires k < OrdinalLimit
    ensures ValidDate(FromOrdinal(k))
    ensures Ordinal(FromOrdinal(k)) == k
  {
    FromYearCorrect(1, k);
  }

  // ---------------------------------------------------------------- rendering

  /** `strftime('%Y-%m-%d')`, with the year zero-padded to four digits. */
  function RenderDate(d: CivilDate): (s: string)
    ensures IsFullDate(s) && ReadFullDate(s) == d
  {
    var s := Pad4(d.year) + "-" + Pad2(d.month) + "-" + Pad2(d.day);
    assert s[..4] == Pad4(d.year) && s[5..7] == Pad2(d.month) && s[8..] == Pad2(d.day);
    s
  }

  /** `strftime('%H:%M:%S')`. */
  function RenderTime(t: ClockTime): (s: string)
    ensures IsPartialTime(s) && ReadPartialTime(s) == t
  {
    var s := Pad2(t.hour) + ":" + Pad2(t.minute) + ":" + Pad2(t.second);
    assert s[..2] == Pad2(t.hour) && s[3..5] == Pad2(t.minute) && s[6..] == Pad2(t.second);
    s
  }

  /**
   * RFC 3339 section 5.6 `full-date` (`4DIGIT "-" 2DIGIT "-" 2DIGIT`) with the
   * month in 01..12 and the day of month restricted as in section 5.7.
   */
  predicate IsFullDate(s: string) {
    && |s| == 10 && s[4] == '-' && s[7] == '-'
    && AllDigits(s[..4]) && AllDigits(s[5..7]) && AllDigits(s[8..])
    && 1 <= DigitsValue(s[5..7]) <= 12
    && 1 <= DigitsValue(s[8..]) <= DaysInMonth(DigitsValue(s[..4]), DigitsValue(s[5..7]))
  }

  function ReadFullDate(s: string): Date
    requires IsFullDate(s)
  {
    Date(DigitsValue(s[..4]), DigitsValue(s[5..7]), DigitsValue(s[8..]))
  }

  /**
   * RFC 3339 section 5.6 `partial-time` without fraction: hour 00..23,
   * minute 00..59, second 00..60.
   */
  predicate IsPartialTime(s: string) {
    && |s| == 8 && s[2] == ':' && s[5] == ':'
    && AllDigits(s[..2]) && AllDigits(s[3..5]) && AllDigits(s[6..])
    && DigitsValue(s[..2]) <= 23 && DigitsValue(s[3..5]) <= 59 && DigitsValue(s[6..]) <= 60
  }

  function ReadPartialTime(s: string): Time
    requires IsPartialTime(s)
  {
    Time(DigitsValue(s[..2]), DigitsValue(s[3..5]), DigitsValue(s[6..]))
  }
}
