/**
  The documented limit of the cron search: an error if nothing matches within
  one year. Which schedules it is true of, and one that it is not true of.
*/
module CronYear {
  import opened Calendar
  import opened CronSearch

  const YEAR_MS := 366 * MS_PER_DAY

  ghost predicate FiresAfter(p: Schedule, from: nat) {
    exists t: nat :: from < t && Fires(p, t)
  }

  ghost predicate FiresWithinYear(p: Schedule, from: nat) {
    exists t: nat :: from < t <= from + YEAR_MS && Fires(p, t)
  }

  // Day of month restricted, weekday not, and each listed day exceeds each listed
  // month of an ordinary year, but not of a leap year: only 29 February matches.
  ghost predicate OnlyLeapDays(p: Schedule)
    requires p.Valid()
  {
    && p.domRestricted && !p.dowRestricted && !Impossible(p)
    && forall d, m :: d in p.dom && m in p.month ==> d > MonthLength(m - 1, false)
  }

  // ---- every other schedule fires within a year -----------------------------

  lemma {:induction false} DaysBeforeByLeap(m: nat)
    requires m <= 12
    ensures DaysBefore(m, true) == DaysBefore(m, false) + if m >= 2 then 1 else 0
  {
    if m > 0 {
      DaysBeforeByLeap(m - 1);
    }
  }

  lemma DayOfNextYear(y: Year, m: nat, date: int)
    requires m < 12
    ensures MakeDay(y + 1, m, date) <= MakeDay(y, m, date) + 366
  {
    DaysBeforeByLeap(m);
  }

  lemma DayInYear(y: Year, m: nat, date: int)
    requires m < 12 && 1 <= date <= MonthLength(m, false)
    ensures DayFromYear(y) <= MakeDay(y, m, date) < DayFromYear(y + 1) <= DayFromYear(y) + 366
  {
    MonthDayInside(m, date, IsLeap(y), DaysBefore(m, IsLeap(y)) + date - 1);
  }

  // A time of day on day `d`: when it lies in the year after `from`.
  lemma InTheYear(from: nat, first: nat, d: nat, tod: nat, t: nat)
    requires first <= Day(from) && d < first + 366 && tod < MS_PER_DAY && t == d * MS_PER_DAY + tod
    ensures t <= from + YEAR_MS
  {
  }

  lemma AYearLater(from: nat, d: nat, e: nat, tod: nat)
    requires d * MS_PER_DAY + tod <= from && Day(from) < e <= d + 366
    ensures from < e * MS_PER_DAY + tod <= from + YEAR_MS
  {
  }

  ghost predicate MatchesAt(p: Schedule, d: nat, tod: nat) {
    var t := d * MS_PER_DAY + tod;
    Matches(p, t) && t % MS_PER_MINUTE == 0 && Day(t) == d
  }

  // The schedule matches some time of day, the same on every matching day.
  lemma TimeOfDay(p: Schedule) returns (tod: nat)
    requires p.Valid()
    ensures tod < MS_PER_DAY
    ensures forall d: nat :: DateMatches(p, d) ==> MatchesAt(p, d, tod)
  {
    var h := Element(p.hour);
    var mi := Element(p.minute);
    tod := h * MS_PER_HOUR + mi * MS_PER_MINUTE;
    forall d: nat | DateMatches(p, d) ensures MatchesAt(p, d, tod) {
      ComposedFields(d, h, mi, d * MS_PER_DAY + tod);
    }
  }

  // A date of an ordinary year, as a matching day of year `y`.
  lemma MatchingDay(p: Schedule, y: Year, m: nat, date: int) returns (d: nat)
    requires m < 12 && 1 <= date <= MonthLength(m, false) && m + 1 in p.month
    requires DayMatches(date, (MakeDay(y, m, date) + 4) % 7, p)
    ensures d == MakeDay(y, m, date) && DateMatches(p, d)
    ensures DayFromYear(y) <= d < DayFromYear(y + 1) <= DayFromYear(y) + 366
  {
    DayInYear(y, m, date);
    d := MakeDay(y, m, date);
    CivilRoundTrip(d, Civil(y, m, date));
  }

  ghost predicate IsMatchWithinYear(p: Schedule, from: nat, t: nat) {
    from < t <= from + YEAR_MS && t % MS_PER_MINUTE == 0 && Matches(p, t)
  }

  // Of two matching days at most 366 apart, one this year and one the next, the
  // earlier that is not over yet.
  lemma EitherDay(p: Schedule, from: nat, first: nat, d: nat, e: nat, tod: nat) returns (t: nat)
    requires first <= Day(from) < e <= d + 366 && d < first + 366 && tod < MS_PER_DAY
    requires MatchesAt(p, d, tod) && MatchesAt(p, e, tod)
    ensures IsMatchWithinYear(p, from, t)
  {
    t := d * MS_PER_DAY + tod;
    if t > from {
      InTheYear(from, first, d, tod, t);
    } else {
      t := e * MS_PER_DAY + tod;
      AYearLater(from, d, e, tod);
    }
  }

  // One of three matching days, of which the first may be over with the second still to come.
  lemma OneOfThree(p: Schedule, from: nat, first: nat, d0: nat, d: nat, e: nat, tod: nat) returns (t: nat)
    requires first <= Day(from) < e <= d + 366 && d < first + 366 && d0 < first + 366 && tod < MS_PER_DAY
    requires MatchesAt(p, d0, tod) && MatchesAt(p, d, tod) && MatchesAt(p, e, tod)
    ensures IsMatchWithinYear(p, from, t)
  {
    t := d0 * MS_PER_DAY + tod;
    if t > from {
      InTheYear(from, first, d0, tod, t);
    } else {
      t := EitherDay(p, from, first, d, e, tod);
    }
  }

  // A date that matches on every weekday: this year and the next.
  lemma DateThisYearAndNext(p: Schedule, y: Year, m: nat, date: int) returns (d: nat, e: nat)
    requires m < 12 && 1 <= date <= MonthLength(m, false) && m + 1 in p.month
    requires forall w :: 0 <= w <= 6 ==> DayMatches(date, w, p)
    ensures DateMatches(p, d) && DateMatches(p, e)
    ensures d < DayFromYear(y) + 366 && DayFromYear(y + 1) <= e <= d + 366
  {
    d := MatchingDay(p, y, m, date);
    e := MatchingDay(p, y + 1, m, date);
    DayOfNextYear(y, m, date);
  }

  lemma FixedDate(p: Schedule, m: nat, date: int, from: nat) returns (t: nat)
    requires p.Valid() && m < 12 && 1 <= date <= MonthLength(m, false) && m + 1 in p.month
    requires forall w :: 0 <= w <= 6 ==> DayMatches(date, w, p)
    ensures IsMatchWithinYear(p, from, t)
  {
    var y := YearOf(Day(from));
    var tod := TimeOfDay(p);
    var d, e := DateThisYearAndNext(p, y, m, date);
    t := EitherDay(p, from, DayFromYear(y), d, e, tod);
  }

  // The first `w` of a month, as a date.
  lemma FirstWeekday(y: Year, m: nat, w: int) returns (date: int)
    requires m < 12 && 0 <= w <= 6
    ensures 1 <= date <= 7
    ensures (MakeDay(y, m, date) + 4) % 7 == w && (MakeDay(y, m, date + 21) + 4) % 7 == w
  {
    var k := WeekdayInMonth(MakeDay(y, m, 1), w);
    date := k + 1;
  }

  // The first and the fourth `w` of a month, as days.
  lemma FirstAndFourth(p: Schedule, y: Year, m: nat, w: int) returns (d: nat, fourth: nat)
    requires m < 12 && m + 1 in p.month && 0 <= w <= 6
    requires forall date :: DayMatches(date, w, p)
    ensures DateMatches(p, d) && DateMatches(p, fourth) && fourth == d + 21
    ensures MakeDay(y, m, 1) <= d <= MakeDay(y, m, 1) + 6
    ensures DayFromYear(y) <= d && fourth < DayFromYear(y) + 366
  {
    var date := FirstWeekday(y, m, w);
    assert DayMatches(date, w, p) && DayMatches(date + 21, w, p);
    d := MatchingDay(p, y, m, date);
    fourth := MatchingDay(p, y, m, date + 21);
  }

  // The first and fourth this year, and the first of the next year.
  lemma WeekdaysThisYearAndNext(p: Schedule, y: Year, m: nat, w: int) returns (d: nat, fourth: nat, e: nat)
    requires m < 12 && m + 1 in p.month && 0 <= w <= 6
    requires forall date :: DayMatches(date, w, p)
    ensures DateMatches(p, d) && DateMatches(p, fourth) && DateMatches(p, e)
    ensures d < DayFromYear(y) + 366 && fourth < DayFromYear(y) + 366
    ensures DayFromYear(y + 1) <= e <= fourth + 366
  {
    d, fourth := FirstAndFourth(p, y, m, w);
    var next, _ := FirstAndFourth(p, y + 1, m, w);
    DayOfNextYear(y, m, 1);
    e := next;
  }

  lemma FixedWeekday(p: Schedule, m: nat, w: int, from: nat) returns (t: nat)
    requires p.Valid() && m < 12 && m + 1 in p.month && 0 <= w <= 6
    requires forall date :: DayMatches(date, w, p)
    ensures IsMatchWithinYear(p, from, t)
  {
    var y := YearOf(Day(from));
    var tod := TimeOfDay(p);
    var d, fourth, e := WeekdaysThisYearAndNext(p, y, m, w);
    t := OneOfThree(p, from, DayFromYear(y), d, fourth, e, tod);
  }

  lemma MatchWithinYear(p: Schedule, from: nat) returns (t: nat)
    requires p.Valid() && !Impossible(p) && !OnlyLeapDays(p)
    ensures IsMatchWithinYear(p, from, t)
  {
    var m := Element(p.month);
    if p.dowRestricted {
      var w := Element(p.dow);
      t := FixedWeekday(p, m - 1, w, from);
    } else if p.domRestricted {
      var d, m2 :| d in p.dom && m2 in p.month && d <= MonthLength(m2 - 1, false);
      t := FixedDate(p, m2 - 1, d, from);
    } else {
      t := FixedDate(p, m - 1, 1, from);
    }
  }

  // ---- 29 February ----------------------------------------------------------

  // 29 February of 2096 and of 2104, as day numbers.
  const LEAP_DAY_2096 := 46_080
  const LEAP_DAY_2104 := 49_001

  // Day number of 29 February of a leap year, by the closed form.
  function LeapDayNumber(y: Year): int {
    ClosedForm(y) + 59
  }

  lemma MakeLeapDay(y: Year, month: nat)
    requires month == 1
    ensures MakeDay(y, month, 29) == LeapDayNumber(y)
  {
    DayFromYearFormula(y);
    assert DaysBefore(month - 1, IsLeap(y)) == 0;
  }

  lemma LeapDayCivil(y: Year, d: nat)
    requires IsLeap(y) && d == LeapDayNumber(y)
    ensures CivilOf(d) == Civil(y, 1, 29)
  {
    var c := Civil(y, 1, 29);
    MakeLeapDay(y, c.month);
    CivilRoundTrip(d, c);
  }

  // 2100 is not a leap year.
  lemma NoLeapYearBetween(y: int)
    requires IsLeap(y) && 2096 < y
    ensures y >= 2104
  {
  }

  lemma LeapDaysApart(a: Year, b: Year)
    requires LeapDayNumber(a) == LEAP_DAY_2096 && a == 2096 && IsLeap(b)
    requires LeapDayNumber(b) > LEAP_DAY_2096
    ensures LeapDayNumber(b) >= LEAP_DAY_2104
  {
    if b > a {
      NoLeapYearBetween(b);
    }
  }

  // ---- the limit of one year ------------------------------------------------

  lemma OnlyOnLeapDays(p: Schedule, t: nat)
    requires p.Valid() && OnlyLeapDays(p) && Matches(p, t)
    ensures IsLeap(YearOf(Day(t))) && Day(t) == LeapDayNumber(YearOf(Day(t)))
  {
    var c := CivilOf(Day(t));
    assert c.date in p.dom && c.month + 1 in p.month;
    assert c.date > MonthLength(c.month + 1 - 1, false);
    MakeLeapDay(c.year, c.month);
  }

  lemma LeapDayMatches(p: Schedule, y: Year, d: nat)
    requires p.Valid() && OnlyLeapDays(p) && IsLeap(y) && d == LeapDayNumber(y)
    ensures DateMatches(p, d)
  {
    var date, m :| date in p.dom && m in p.month && date <= MonthLength(m - 1, true);
    assert date > MonthLength(m - 1, false);
    LeapDayCivil(y, d);
  }

  // After 29 February 2096 such a schedule fires, but not before 29 February 2104.
  lemma SilentYear(p: Schedule, from: nat, first: Year, next: Year)
    requires p.Valid() && OnlyLeapDays(p) && first == 2096 && next == 2104
    requires from == LEAP_DAY_2096 * MS_PER_DAY + MS_PER_DAY - 1
    ensures FiresAfter(p, from) && !FiresWithinYear(p, from)
  {
    var tod := TimeOfDay(p);
    LeapDayMatches(p, next, LEAP_DAY_2104);
    assert MatchesAt(p, LEAP_DAY_2104, tod);
    assert Fires(p, LEAP_DAY_2104 * MS_PER_DAY + tod);
    forall t: nat | from < t && Fires(p, t) ensures t > from + YEAR_MS {
      OnlyOnLeapDays(p, t);
      LeapDaysApart(first, YearOf(Day(t)));
    }
  }

  lemma FiresInTime(p: Schedule, from: nat)
    requires p.Valid() && !OnlyLeapDays(p) && FiresAfter(p, from)
    ensures FiresWithinYear(p, from)
  {
    var s: nat :| from < s && Fires(p, s);
    if Impossible(p) {
      ImpossibleNeverMatches(p, s);
    }
    var t := MatchWithinYear(p, from);
    if t <= MAX_TIME {
      assert Fires(p, t);
    } else {
      assert s <= from + YEAR_MS;
    }
  }

  /**
    The exact schedules of which the documented limit is true, whatever the start:
    if anything fires later, something fires within a year. It is true of all but
    those that only 29 February satisfies.
  */
  lemma OneYearIffNotOnlyLeapDays(p: Schedule)
    requires p.Valid()
    ensures (forall from: nat :: FiresAfter(p, from) ==> FiresWithinYear(p, from)) <==> !OnlyLeapDays(p)
  {
    if OnlyLeapDays(p) {
      SilentYear(p, LEAP_DAY_2096 * MS_PER_DAY + MS_PER_DAY - 1, 2096, 2104);
    } else {
      forall from: nat | FiresAfter(p, from) ensures FiresWithinYear(p, from) {
        FiresInTime(p, from);
      }
    }
  }

  // "0 0 29 2 *": midnight on 29 February.
  function LeapDaySchedule(): Schedule {
    Schedule({0}, {0}, {29}, {2}, {0, 1, 2, 3, 4, 5, 6}, true, false)
  }

  lemma FiringIsLeapDay(t: nat)
    requires Fires(LeapDaySchedule(), t)
    ensures IsLeap(YearOf(Day(t))) && Day(t) == LeapDayNumber(YearOf(Day(t)))
    ensures t == Day(t) * MS_PER_DAY
  {
    var c := CivilOf(Day(t));
    MakeLeapDay(c.year, c.month);
    Pieces(t);
  }

  lemma FiresOnLeapDay2104(next: nat, y: Year)
    requires next == LEAP_DAY_2104 * MS_PER_DAY && y == 2104
    ensures Fires(LeapDaySchedule(), next)
  {
    ComposedFields(LEAP_DAY_2104, 0, 0, next);
    LeapDayCivil(y, Day(next));
  }

  lemma NoneBetweenLeapDays(t: nat, first: Year)
    requires first == 2096 && Fires(LeapDaySchedule(), t)
    ensures t <= LEAP_DAY_2096 * MS_PER_DAY || t >= LEAP_DAY_2104 * MS_PER_DAY
  {
    FiringIsLeapDay(t);
    if Day(t) > LEAP_DAY_2096 {
      LeapDaysApart(first, YearOf(Day(t)));
    }
  }

  lemma LeapDayGap(from: nat, next: nat)
    requires from == LEAP_DAY_2096 * MS_PER_DAY && next == LEAP_DAY_2104 * MS_PER_DAY
    ensures next in Firings(LeapDaySchedule())
    ensures forall s: nat :: s in Firings(LeapDaySchedule()) ==> s <= from || s >= next
  {
    FiresOnLeapDay2104(next, 2104);
    forall s: nat | s in Firings(LeapDaySchedule()) ensures s <= from || s >= next {
      NoneBetweenLeapDays(s, 2096);
    }
  }

  lemma LeastAfter(p: Schedule, f: iset<nat>, from: nat, t: nat)
    requires f == Firings(p) && from < t && t in f && forall s: nat :: s in f ==> s <= from || s >= t
    ensures IsNext(p, from, t)
  {
  }

  lemma LeapDayScheduleValid()
    ensures LeapDaySchedule().Valid()
  {
  }

  /** From 29 February 2096 the next firing is eight years away, not within one. */
  lemma NextRunBeyondOneYear(from: nat, next: nat)
    requires from == LEAP_DAY_2096 * MS_PER_DAY && next == LEAP_DAY_2104 * MS_PER_DAY
    ensures LeapDaySchedule().Valid() && IsNext(LeapDaySchedule(), from, next)
    ensures next - from > 7 * 366 * MS_PER_DAY
  {
    LeapDayScheduleValid();
    LeapDayGap(from, next);
    LeastAfter(LeapDaySchedule(), Firings(LeapDaySchedule()), from, next);
  }
}
