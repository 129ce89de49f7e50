/**
  The proleptic Gregorian calendar of ECMA-262, section 21.4.1, restricted to
  times at or after the epoch, and the `Date` operations the cron search uses.
  Months are numbered from 0, days of the month from 1, weekdays from Sunday = 0.
*/
module Calendar {

  const MS_PER_MINUTE := 60_000
  const MS_PER_HOUR := 3_600_000
  const MS_PER_DAY := 86_400_000

  // Largest time value of a Date; anything above it is NaN.
  const MAX_TIME := 8_640_000_000_000_000

  // A year of the model: nothing before the epoch is ever reached.
  type Year = y: int | 1970 <= y witness 1970

  predicate IsLeap(y: int) {
    y % 4 == 0 && (y % 100 != 0 || y % 400 == 0)
  }

  function YearDays(leap: bool): int {
    if leap then 366 else 365
  }

  // Day number of 1 January of year `y`.
  function DayFromYear(y: Year): nat {
    if y == 1970 then 0 else DayFromYear(y - 1) + YearDays(IsLeap(y - 1))
  }

  lemma Quarters(x: int)
    ensures (x - 1968) / 4 - (x - 1969) / 4 == if x % 4 == 0 then 1 else 0
  {
  }

  lemma Centuries(x: int)
    ensures (x - 1900) / 100 - (x - 1901) / 100 == if x % 100 == 0 then 1 else 0
  {
  }

  lemma Quadricentennials(x: int)
    ensures (x - 1600) / 400 - (x - 1601) / 400 == if x % 400 == 0 then 1 else 0
  {
  }

  lemma LeapRule(y: int)
    ensures YearDays(IsLeap(y))
         == 365 + (if y % 4 == 0 then 1 else 0) - (if y % 100 == 0 then 1 else 0) + (if y % 400 == 0 then 1 else 0)
  {
  }

  // DayFromYear as ECMA-262, section 21.4.1.3, writes it.
  function ClosedForm(y: int): int {
    365 * (y - 1970) + (y - 1969) / 4 - (y - 1901) / 100 + (y - 1601) / 400
  }

  lemma ClosedFormStep(x: int)
    ensures ClosedForm(x + 1) == ClosedForm(x) + YearDays(IsLeap(x))
  {
    LeapRule(x);
    Quarters(x);
    Centuries(x);
    Quadricentennials(x);
  }

  /** Adding up the years gives the closed form of the standard. */
  lemma {:induction false} DayFromYearFormula(y: Year)
    ensures DayFromYear(y) == ClosedForm(y)
  {
    if y > 1970 {
      DayFromYearFormula(y - 1);
      ClosedFormStep(y - 1);
    }
  }

  lemma {:induction false} DayFromYearSpread(a: Year, b: Year)
    requires a <= b
    ensures 365 * (b - a) <= DayFromYear(b) - DayFromYear(a) <= 366 * (b - a)
    decreases b - a
  {
    if a < b {
      DayFromYearSpread(a, b - 1);
    }
  }

  function YearSearch(d: nat, y: Year): (r: Year)
    requires DayFromYear(y) <= d
    ensures y <= r && DayFromYear(r) <= d < DayFromYear(r + 1)
    decreases d - DayFromYear(y)
  {
    if d < DayFromYear(y + 1) then y else YearSearch(d, y + 1)
  }

  // YearFromTime: the largest year that has begun by day `d`.
  function YearOf(d: nat): (r: Year)
    ensures DayFromYear(r) <= d < DayFromYear(r + 1)
  {
    YearSearch(d, 1970)
  }

  lemma YearOfUnique(d: nat, y: Year)
    requires DayFromYear(y) <= d < DayFromYear(y + 1)
    ensures YearOf(d) == y
  {
    var r := YearOf(d);
    if r < y {
      DayFromYearSpread(r + 1, y);
    } else if y < r {
      DayFromYearSpread(y + 1, r);
    }
  }

  function MonthLength(m: int, leap: bool): (n: int)
    requires 0 <= m < 12
    ensures 28 <= n <= 31
  {
    if m == 1 then (if leap then 29 else 28)
    else if m == 3 || m == 5 || m == 8 || m == 10 then 30 else 31
  }

  // Days of a year that precede its month `m`; `m == 12` gives the whole year.
  function DaysBefore(m: nat, leap: bool): nat
    requires m <= 12
  {
    if m == 0 then 0 else DaysBefore(m - 1, leap) + MonthLength(m - 1, leap)
  }

  lemma MonthsFillTheYear(leap: bool)
    ensures DaysBefore(12, leap) == YearDays(leap)
  {
    var l := if leap then 1 else 0;
    assert DaysBefore(1, leap) == 31;
    assert DaysBefore(2, leap) == 59 + l;
    assert DaysBefore(3, leap) == 90 + l;
    assert DaysBefore(4, leap) == 120 + l;
    assert DaysBefore(5, leap) == 151 + l;
    assert DaysBefore(6, leap) == 181 + l;
    assert DaysBefore(7, leap) == 212 + l;
    assert DaysBefore(8, leap) == 243 + l;
    assert DaysBefore(9, leap) == 273 + l;
    assert DaysBefore(10, leap) == 304 + l;
    assert DaysBefore(11, leap) == 334 + l;
  }

  lemma {:induction false} DaysBeforeMonotone(a: nat, b: nat, leap: bool)
    requires a <= b <= 12
    ensures DaysBefore(a, leap) <= DaysBefore(b, leap)
  {
    if a < b {
      DaysBeforeMonotone(a, b - 1, leap);
    }
  }

  lemma InsideTheYear(m: nat, leap: bool)
    requires m <= 12
    ensures DaysBefore(m, leap) <= YearDays(leap)
    ensures m < 12 ==> DaysBefore(m, leap) < YearDays(leap)
  {
    MonthsFillTheYear(leap);
    DaysBeforeMonotone(m, 12, leap);
    if m < 12 {
      DaysBeforeMonotone(m + 1, 12, leap);
    }
  }

  function MonthSearch(rest: nat, leap: bool, m: nat): (r: nat)
    requires m < 12
    requires DaysBefore(m, leap) + rest < YearDays(leap)
    ensures r < 12 && DaysBefore(r, leap) <= DaysBefore(m, leap) + rest < DaysBefore(r + 1, leap)
    decreases rest
  {
    if rest < MonthLength(m, leap) then m
    else
      MonthsFillTheYear(leap);
      MonthSearch(rest - MonthLength(m, leap), leap, m + 1)
  }

  // The month that holds day `n` of a year.
  function MonthInYear(n: nat, leap: bool): (m: nat)
    requires n < YearDays(leap)
    ensures m < 12 && DaysBefore(m, leap) <= n < DaysBefore(m + 1, leap)
  {
    MonthSearch(n, leap, 0)
  }

  lemma MonthInYearUnique(n: nat, leap: bool, m: nat)
    requires m < 12 && DaysBefore(m, leap) <= n < DaysBefore(m + 1, leap)
    ensures n < YearDays(leap) && MonthInYear(n, leap) == m
  {
    InsideTheYear(m + 1, leap);
    var r := MonthInYear(n, leap);
    if r < m {
      DaysBeforeMonotone(r + 1, m, leap);
    } else if m < r {
      DaysBeforeMonotone(m + 1, r, leap);
    }
  }

  datatype Civil = Civil(year: Year, month: nat, date: int)

  // Year, month and day of the month of day number `d`.
  function CivilOf(d: nat): (c: Civil)
    ensures c.year == YearOf(d) && c.month < 12
    ensures 1 <= c.date <= MonthLength(c.month, IsLeap(c.year))
    ensures DayFromYear(c.year) + DaysBefore(c.month, IsLeap(c.year)) + c.date - 1 == d
  {
    var y := YearOf(d);
    var n := d - DayFromYear(y);
    var m := MonthInYear(n, IsLeap(y));
    Civil(y, m, n - DaysBefore(m, IsLeap(y)) + 1)
  }

  // MakeDay: a date past the end of the month carries into the following days.
  function MakeDay(year: Year, month: nat, date: int): int
    requires month < 12
  {
    DayFromYear(year) + DaysBefore(month, IsLeap(year)) + date - 1
  }

  lemma MonthDayInside(m: nat, date: int, leap: bool, n: nat)
    requires m < 12 && 1 <= date <= MonthLength(m, leap)
    requires n == DaysBefore(m, leap) + date - 1
    ensures n < YearDays(leap) && MonthInYear(n, leap) == m
  {
    var length := MonthLength(m, leap);
    assert DaysBefore(m + 1, leap) == DaysBefore(m, leap) + length;
    MonthInYearUnique(n, leap, m);
  }

  lemma CivilOfMakeDay(d: nat, c: Civil)
    requires c.month < 12 && 1 <= c.date <= MonthLength(c.month, IsLeap(c.year))
    requires MakeDay(c.year, c.month, c.date) == d
    ensures CivilOf(d) == c
  {
    MonthDayInside(c.month, c.date, IsLeap(c.year), d - DayFromYear(c.year));
    YearOfUnique(d, c.year);
  }

  /** A day number and its (year, month, date) determine each other. */
  lemma CivilRoundTrip(d: nat, c: Civil)
    requires c.month < 12 && 1 <= c.date <= MonthLength(c.month, IsLeap(c.year))
    ensures CivilOf(d) == c <==> MakeDay(c.year, c.month, c.date) == d
  {
    if MakeDay(c.year, c.month, c.date) == d {
      CivilOfMakeDay(d, c);
    }
  }

  // A Date holds a time value or NaN. The model starts at the epoch, so the
  // lower end of the Date range is never met.
  datatype Date = NaN | Time(ms: nat)

  // new Date(t)
  function NewDate(t: Date): Date {
    if t.Time? && t.ms <= MAX_TIME then t else NaN
  }

  // Date.UTC(year, month, date, hour): a result outside the Date range is NaN.
  function DateUTC(year: Year, month: nat, date: int, hour: int): Date
    requires month < 12
  {
    var t := MakeDay(year, month, date) * MS_PER_DAY + hour * MS_PER_HOUR;
    if 0 <= t <= MAX_TIME then Time(t) else NaN
  }

  function Day(t: nat): nat { t / MS_PER_DAY }

  function UTCDay(t: nat): int { (Day(t) + 4) % 7 }

  function UTCHours(t: nat): int { t % MS_PER_DAY / MS_PER_HOUR }

  function UTCMinutes(t: nat): int { t % MS_PER_HOUR / MS_PER_MINUTE }

  // First day of the month after month `c.month` of `c.year`, as the search asks for it.
  function NextMonthDay(c: Civil): int
    requires c.month < 12
  {
    MakeDay(if c.month == 11 then c.year + 1 else c.year, if c.month == 11 then 0 else c.month + 1, 1)
  }

  /** The jump to the next month goes forward and skips only days of the current month. */
  lemma MonthJumpStaysInside(d: nat, e: nat)
    requires d <= e < NextMonthDay(CivilOf(d))
    ensures CivilOf(e).month == CivilOf(d).month
  {
    var c := CivilOf(d);
    MonthsFillTheYear(IsLeap(c.year));
    CivilRoundTrip(e, Civil(c.year, c.month, e - d + c.date));
  }

  lemma NextMonthLater(d: nat)
    ensures d < NextMonthDay(CivilOf(d))
  {
    MonthsFillTheYear(IsLeap(CivilOf(d).year));
  }

  /** A leap year comes within eight years, also across a skipped century. */
  lemma LeapYearWithinEight(y: Year) returns (r: Year)
    ensures y < r <= y + 8 && IsLeap(r)
  {
    var a := y - y % 4 + 4;
    r := if IsLeap(a) then a else a + 4;
  }
}
