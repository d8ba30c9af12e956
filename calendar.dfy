/**
 * Proleptic Gregorian civil dates, the day count from 1970-01-01 that
 * ECMAScript time values are built on, and the two pieces of the JavaScript
 * `Date` object the modelled code uses: the `new Date(year, monthIndex, day)`
 * constructor (with its day rollover) and `toISOString`.
 */
module Calendar {
  import opened Strings

  /** A calendar date; month is 1..12 (JavaScript's `getMonth() + 1`), day is 1..31. */
  datatype Date = Date(year: int, month: int, day: int)

  predicate IsLeapYear(y: int) {
    y % 4 == 0 && (y % 100 != 0 || y % 400 == 0)
  }

  function DaysInYear(y: int): int {
    if IsLeapYear(y) then 366 else 365
  }

  function DaysInMonth(y: int, m: int): (n: int)
    requires 1 <= m <= 12
    ensures 28 <= n <= 31
    ensures n == 29 <==> m == 2 && IsLeapYear(y)
  {
    if m == 2 then (if IsLeapYear(y) then 29 else 28)
    else if m == 4 || m == 6 || m == 9 || m == 11 then 30
    else 31
  }

  predicate ValidDate(d: Date) {
    1 <= d.month <= 12 && 1 <= d.day <= DaysInMonth(d.year, d.month)
  }

  /** A date that exists in the calendar, as every JavaScript `Date` denotes one. */
  type CivilDate = d: Date | ValidDate(d) witness Date(1970, 1, 1)

  /** Chronological order of dates: year, then month, then day. */
  predicate Before(a: Date, b: Date) {
    a.year < b.year || (a.year == b.year && (a.month < b.month || (a.month == b.month && a.day < b.day)))
  }

  predicate NotAfter(a: Date, b: Date) {
    Before(a, b) || a == b
  }

  const MonthStarts: seq<int> := [0, 31, 59, 90, 120, 151, 181, 212, 243, 273, 304, 334, 365]

  /** Days of year `y` before the first of month `m` (`m == 13` gives the length of the year). */
  function DaysBeforeMonth(y: int, m: int): int
    requires 1 <= m <= 13
  {
    MonthStarts[m - 1] + (if m > 2 && IsLeapYear(y) then 1 else 0)
  }

  lemma MonthStep(y: int, m: int)
    requires 1 <= m <= 12
    ensures DaysBeforeMonth(y, m + 1) == DaysBeforeMonth(y, m) + DaysInMonth(y, m)
  {
  }

  /** Days from 1970-01-01 to the first of January of year `y` (negative before 1970). */
  function DaysBeforeYear(y: int): int {
    365 * (y - 1970) + ((y - 1) / 4 - 492) - ((y - 1) / 100 - 19) + ((y - 1) / 400 - 4)
  }

  /** The closed form above counts exactly the days of each year. */
  lemma YearStep(y: int)
    ensures DaysBeforeYear(y + 1) == DaysBeforeYear(y) + DaysInYear(y)
  {
    QuotientStep4(y);
    QuotientStep100(y);
    QuotientStep400(y);
  }

  /** The count of multiples of 4 up to `y` grows by one exactly at a multiple of 4. */
  lemma QuotientStep4(y: int)
    ensures y / 4 - (y - 1) / 4 == if y % 4 == 0 then 1 else 0
  {
    var q, r := (y - 1) / 4, (y - 1) % 4;
    assert y == 4 * q + r + 1;
    if r == 3 {
      assert y == 4 * (q + 1);
    }
  }

  lemma QuotientStep100(y: int)
    ensures y / 100 - (y - 1) / 100 == if y % 100 == 0 then 1 else 0
  {
    var q, r := (y - 1) / 100, (y - 1) % 100;
    assert y == 100 * q + r + 1;
    if r == 99 {
      assert y == 100 * (q + 1);
    }
  }

  lemma QuotientStep400(y: int)
    ensures y / 400 - (y - 1) / 400 == if y % 400 == 0 then 1 else 0
  {
    var q, r := (y - 1) / 400, (y - 1) % 400;
    assert y == 400 * q + r + 1;
    if r == 399 {
      assert y == 400 * (q + 1);
    }
  }

  lemma {:induction false} YearsIncrease(a: int, b: int)
    requires a < b
    ensures DaysBeforeYear(a) + DaysInYear(a) <= DaysBeforeYear(b)
    decreases b - a
  {
    YearStep(a);
    if a + 1 < b {
      YearsIncrease(a + 1, b);
      YearStep(a + 1);
    }
  }

  /** The day number of a date: days since 1970-01-01, the day of time value 0. */
  function DayNumber(d: Date): int
    requires ValidDate(d)
  {
    DaysBeforeYear(d.year) + DaysBeforeMonth(d.year, d.month) + d.day - 1
  }

  lemma DayNumberInYear(d: Date)
    requires ValidDate(d)
    ensures DaysBeforeYear(d.year) <= DayNumber(d) < DaysBeforeYear(d.year) + DaysInYear(d.year)
    ensures DaysBeforeYear(d.year) + DaysBeforeMonth(d.year, d.month) <= DayNumber(d)
              < DaysBeforeYear(d.year) + DaysBeforeMonth(d.year, d.month + 1)
  {
    MonthStep(d.year, d.month);
  }

  lemma MonthsIncrease(y: int, a: int, b: int)
    requires 1 <= a < b <= 12
    ensures DaysBeforeMonth(y, a + 1) <= DaysBeforeMonth(y, b)
  {
  }

  /** Chronological order is the order of day numbers, so it is the order of time values. */
  lemma {:induction false} BeforeIsDayOrder(a: Date, b: Date)
    requires ValidDate(a) && ValidDate(b)
    ensures Before(a, b) <==> DayNumber(a) < DayNumber(b)
    ensures a == b <==> DayNumber(a) == DayNumber(b)
  {
    DayNumberInYear(a);
    DayNumberInYear(b);
    if a.year < b.year {
      YearsIncrease(a.year, b.year);
    } else if b.year < a.year {
      YearsIncrease(b.year, a.year);
    } else if a.month < b.month {
      MonthsIncrease(a.year, a.month, b.month);
    } else if b.month < a.month {
      MonthsIncrease(a.year, b.month, a.month);
    }
  }

  function SearchYearUp(y: int, z: int): (r: int)
    requires DaysBeforeYear(y) <= z
    ensures DaysBeforeYear(r) <= z < DaysBeforeYear(r + 1)
    decreases z - DaysBeforeYear(y)
  {
    YearStep(y);
    if z < DaysBeforeYear(y + 1) then y else SearchYearUp(y + 1, z)
  }

  function SearchYearDown(y: int, z: int): (r: int)
    requires z < DaysBeforeYear(y)
    ensures DaysBeforeYear(r) <= z < DaysBeforeYear(r + 1)
    decreases DaysBeforeYear(y) - z
  {
    YearStep(y - 1);
    if DaysBeforeYear(y - 1) <= z then y - 1 else SearchYearDown(y - 1, z)
  }

  /** The year in which day number `z` falls; 146097 days make 400 Gregorian years. */
  function YearOfDay(z: int): (y: int)
    ensures DaysBeforeYear(y) <= z < DaysBeforeYear(y + 1)
  {
    var guess := 1970 + z * 400 / 146097;
    if z < DaysBeforeYear(guess) then SearchYearDown(guess, z) else SearchYearUp(guess, z)
  }

  function MonthOfDay(y: int, r: int, m: int): (d: Date)
    requires 1 <= m <= 12 && DaysBeforeMonth(y, m) <= r < DaysInYear(y)
    ensures ValidDate(d) && d.year == y && d.month >= m
    ensures DaysBeforeMonth(y, d.month) + d.day - 1 == r
    decreases 12 - m
  {
    MonthStep(y, m);
    if m == 12 || r < DaysBeforeMonth(y, m + 1) then Date(y, m, r - DaysBeforeMonth(y, m) + 1)
    else MonthOfDay(y, r, m + 1)
  }

  /** The civil date of day number `z`: the unique valid date whose day number is `z`. */
  function CivilFromDays(z: int): (d: CivilDate)
    ensures DayNumber(d) == z
  {
    var y := YearOfDay(z);
    YearStep(y);
    MonthOfDay(y, z - DaysBeforeYear(y), 1)
  }

  /** The two directions of the correspondence between dates and day numbers. */
  lemma CivilFromDayNumber(d: Date)
    requires ValidDate(d)
    ensures CivilFromDays(DayNumber(d)) == d
  {
    BeforeIsDayOrder(d, CivilFromDays(DayNumber(d)));
  }

  /**
   * `new Date(year, month - 1, day)` for a day of 1..31: the first of that month
   * moved forward `day - 1` days, so a day past the end of the month rolls into
   * the next one (the 29th of February of a common year is the 1st of March).
   */
  function MakeDate(y: int, m: int, d: int): (r: CivilDate)
    requires 1 <= m <= 12 && 1 <= d <= 31
    ensures DayNumber(r) == DayNumber(Date(y, m, 1)) + d - 1
    ensures d <= DaysInMonth(y, m) ==> r == Date(y, m, d)
    ensures d > DaysInMonth(y, m) ==> m < 12 && r == Date(y, m + 1, d - DaysInMonth(y, m))
  {
    MonthStep(y, m);
    if d <= DaysInMonth(y, m) then Date(y, m, d)
    else
      assert m < 12;
      MonthStep(y, m + 1);
      Date(y, m + 1, d - DaysInMonth(y, m))
  }

  /** Milliseconds in a day, and the largest magnitude of a valid ECMAScript time value. */
  const MsPerDay: int := 86400000
  const MaxTimeValue: int := 8640000000000000

  /** The time value is inside the range of `Date`; outside it the time is NaN. */
  predicate InDateRange(t: int) {
    -MaxTimeValue <= t <= MaxTimeValue
  }

  /** The UTC calendar date of time value `t` (milliseconds since 1970-01-01T00:00:00Z). */
  function UtcDate(t: int): (d: CivilDate)
    ensures DayNumber(d) * MsPerDay <= t < (DayNumber(d) + 1) * MsPerDay
  {
    CivilFromDays(t / MsPerDay)
  }

  /** The year field of `toISOString`: four digits, or a sign and six digits outside 0..9999. */
  function IsoYear(y: int): string {
    if 0 <= y <= 9999 then ZeroPad(y, 4)
    else (if y < 0 then "-" else "+") + ZeroPad(if y < 0 then -y else y, 6)
  }

  /** `new Date(t).toISOString()`, `YYYY-MM-DDTHH:mm:ss.sssZ`, in UTC. */
  function IsoString(t: int): (s: string)
    requires InDateRange(t)
    ensures |s| >= 10
  {
    var d := UtcDate(t);
    IsoYear(d.year) + "-" + ZeroPad(d.month, 2) + "-" + ZeroPad(d.day, 2) + IsoTimeOfDay(t % MsPerDay)
  }

  /** The time part `THH:mm:ss.sssZ` of `toISOString`, for the milliseconds into the day. */
  function IsoTimeOfDay(ms: int): string
    requires 0 <= ms < MsPerDay
  {
    "T" + ZeroPad(ms / 3600000, 2) + ":" + ZeroPad(ms / 60000 % 60, 2)
    + ":" + ZeroPad(ms / 1000 % 60, 2) + "." + ZeroPad(ms % 1000, 3) + "Z"
  }

  /** The extended calendar date `YYYY-MM-DD` of ISO 8601 with a four-digit year. */
  function IsoCalendarDate(d: Date): string
    requires 0 <= d.year && 1 <= d.month && 1 <= d.day
  {
    ZeroPad(d.year, 4) + "-" + ZeroPad(d.month, 2) + "-" + ZeroPad(d.day, 2)
  }

  /** The text the pattern `^\d{4}-\d{2}-\d{2}$` accepts. */
  predicate IsIsoDateShape(s: string) {
    && |s| == 10
    && IsDigit(s[0]) && IsDigit(s[1]) && IsDigit(s[2]) && IsDigit(s[3]) && s[4] == '-'
    && IsDigit(s[5]) && IsDigit(s[6]) && s[7] == '-' && IsDigit(s[8]) && IsDigit(s[9])
  }

  /** A valid date with a year of at most four digits prints in that shape, and reads back. */
  lemma IsoCalendarDateShape(d: Date)
    requires ValidDate(d) && 0 <= d.year <= 9999
    ensures IsIsoDateShape(IsoCalendarDate(d))
    ensures var s := IsoCalendarDate(d);
      ParseDecimal(s[..4]) == d.year && ParseDecimal(s[5..7]) == d.month && ParseDecimal(s[8..]) == d.day
  {
    DecimalLength(d.year, 4);
    DecimalLength(d.month, 2);
    DecimalLength(d.day, 2);
    var s := IsoCalendarDate(d);
    var y, m, dd := ZeroPad(d.year, 4), ZeroPad(d.month, 2), ZeroPad(d.day, 2);
    assert s[..4] == y && s[5..7] == m && s[8..] == dd;
    ZeroPadParses(d.year, 4);
    ZeroPadParses(d.month, 2);
    ZeroPadParses(d.day, 2);
  }

  /** The first ten characters of `toISOString` are the UTC date, when its year has four digits. */
  lemma IsoStringDatePrefix(t: int)
    requires InDateRange(t) && 0 <= UtcDate(t).year <= 9999
    ensures IsoString(t)[..10] == IsoCalendarDate(UtcDate(t))
  {
    var d := UtcDate(t);
    DecimalLength(d.year, 4);
    DecimalLength(d.month, 2);
    DecimalLength(d.day, 2);
    var p := IsoCalendarDate(d);
    assert |p| == 10;
    assert IsoString(t) == p + IsoTimeOfDay(t % MsPerDay);
  }
}
