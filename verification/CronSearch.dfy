/**
  The jumping search for the next firing minute of a cron schedule, and the
  minute-by-minute specification it refines.
*/
module CronSearch {
  import opened Prelude
  import opened Calendar

  datatype Schedule = Schedule(
    minute: set<int>, hour: set<int>, dom: set<int>, month: set<int>, dow: set<int>,
    domRestricted: bool, dowRestricted: bool
  ) {
    // What every parsed expression satisfies.
    ghost predicate Valid() {
      && minute != {} && hour != {} && dom != {} && month != {} && dow != {}
      && (forall v :: v in minute ==> 0 <= v <= 59)
      && (forall v :: v in hour ==> 0 <= v <= 23)
      && (forall v :: v in dom ==> 1 <= v <= 31)
      && (forall v :: v in month ==> 1 <= v <= 12)
      && (forall v :: v in dow ==> 0 <= v <= 6)
    }
  }

  // As many rounds as a leap year has minutes.
  const CAP := 366 * 24 * 60

  // Days within which every satisfiable schedule fires.
  const HORIZON_DAYS := 3_295

  // The rule for days: a restricted field that lists the day is enough, and
  // without any restricted field every day is.
  ghost predicate DayListed(date: int, weekday: int, p: Schedule) {
    || (p.domRestricted && date in p.dom)
    || (p.dowRestricted && weekday in p.dow)
    || (!p.domRestricted && !p.dowRestricted)
  }

  predicate DayMatches(d: int, w: int, p: Schedule): (r: bool)
    ensures r <==> DayListed(d, w, p)
  {
    if p.domRestricted && p.dowRestricted then d in p.dom || w in p.dow
    else if p.domRestricted then d in p.dom
    else if p.dowRestricted then w in p.dow
    else true
  }

  ghost predicate MonthMatches(p: Schedule, d: nat) {
    CivilOf(d).month + 1 in p.month
  }

  ghost predicate DateMatches(p: Schedule, d: nat) {
    MonthMatches(p, d) && DayListed(CivilOf(d).date, (d + 4) % 7, p)
  }

  // The UTC fields of `t` satisfy the schedule.
  ghost predicate Matches(p: Schedule, t: nat) {
    DateMatches(p, Day(t)) && UTCHours(t) in p.hour && UTCMinutes(t) in p.minute
  }

  // A whole minute, representable as a Date, at which the schedule fires.
  ghost predicate Fires(p: Schedule, t: nat) {
    t % MS_PER_MINUTE == 0 && t <= MAX_TIME && Matches(p, t)
  }

  ghost function Firings(p: Schedule): iset<nat> {
    iset t: nat | Fires(p, t)
  }

  /**
    When a schedule fires, in plain fields: a whole minute up to the end of the
    Date range, whose month, hour and minute are listed, and whose day is listed
    by one of the restricted day fields, if any is restricted.
  */
  lemma FiresIff(p: Schedule, t: nat)
    ensures var c, weekday := CivilOf(t / 86_400_000), (t / 86_400_000 + 4) % 7;
      Fires(p, t) <==>
        && t % 60_000 == 0 && t <= 8_640_000_000_000_000
        && c.month + 1 in p.month && t % 86_400_000 / 3_600_000 in p.hour && t % 3_600_000 / 60_000 in p.minute
        && (p.domRestricted && p.dowRestricted ==> c.date in p.dom || weekday in p.dow)
        && (p.domRestricted && !p.dowRestricted ==> c.date in p.dom)
        && (!p.domRestricted && p.dowRestricted ==> weekday in p.dow)
  {
  }

  /** With both day fields restricted the schedule fires when either field alone makes it fire. */
  lemma BothRestricted(p: Schedule)
    requires p.domRestricted && p.dowRestricted
    ensures Firings(p) == Firings(p.(dowRestricted := false)) + Firings(p.(domRestricted := false))
  {
    var byDate, byWeekday := p.(dowRestricted := false), p.(domRestricted := false);
    forall t: nat ensures t in Firings(p) <==> t in Firings(byDate) + Firings(byWeekday) {
      FiresIff(p, t);
      FiresIff(byDate, t);
      FiresIff(byWeekday, t);
    }
  }

  // The least element of `f` after `from`.
  ghost predicate IsLeastAfter(f: iset<nat>, from: nat, t: nat) {
    from < t && t in f && forall s: nat | from < s < t :: s !in f
  }

  // The minute-by-minute specification: the least firing minute after `from`.
  ghost predicate IsNext(p: Schedule, from: nat, t: nat) {
    IsLeastAfter(Firings(p), from, t)
  }

  ghost predicate Quiet(p: Schedule, a: nat, b: nat) {
    forall s: nat | a <= s < b :: !Fires(p, s)
  }

  // No calendar day can ever match: the day of the month is restricted, the
  // weekday is not, and each listed day exceeds each listed month, with
  // February counted as 29 days.
  ghost predicate Impossible(p: Schedule)
    requires p.Valid()
  {
    && p.domRestricted && !p.dowRestricted
    && forall d, m :: d in p.dom && m in p.month ==> d > MonthLength(m - 1, true)
  }

  // ---- every jump stays inside the unit it skips --------------------------

  lemma MonthJumpQuiet(p: Schedule, t: nat)
    requires !MonthMatches(p, Day(t))
    ensures t < NextMonthDay(CivilOf(Day(t))) * MS_PER_DAY
    ensures Quiet(p, t, NextMonthDay(CivilOf(Day(t))) * MS_PER_DAY)
  {
    NextMonthLater(Day(t));
    var next := NextMonthDay(CivilOf(Day(t)));
    forall s: nat | t <= s < next * MS_PER_DAY ensures !Fires(p, s) {
      MonthJumpStaysInside(Day(t), Day(s));
    }
  }

  lemma DayJumpQuiet(p: Schedule, t: nat)
    requires !DateMatches(p, Day(t))
    ensures Quiet(p, t, (Day(t) + 1) * MS_PER_DAY)
  {
    forall s: nat | t <= s < (Day(t) + 1) * MS_PER_DAY ensures !Fires(p, s) {
      assert Day(s) == Day(t);
    }
  }

  lemma SameHour(t: nat, s: nat)
    requires t <= s < Day(t) * MS_PER_DAY + (UTCHours(t) + 1) * MS_PER_HOUR
    ensures Day(s) == Day(t) && UTCHours(s) == UTCHours(t)
  {
  }

  lemma HourJumpQuiet(p: Schedule, t: nat)
    requires UTCHours(t) !in p.hour
    ensures t < Day(t) * MS_PER_DAY + (UTCHours(t) + 1) * MS_PER_HOUR
    ensures Quiet(p, t, Day(t) * MS_PER_DAY + (UTCHours(t) + 1) * MS_PER_HOUR)
  {
    forall s: nat | t <= s < Day(t) * MS_PER_DAY + (UTCHours(t) + 1) * MS_PER_HOUR
      ensures !Fires(p, s)
    {
      SameHour(t, s);
    }
  }

  lemma OneWholeMinute(t: nat, s: nat)
    requires t % MS_PER_MINUTE == 0 && s % MS_PER_MINUTE == 0 && t <= s < t + MS_PER_MINUTE
    ensures s == t
  {
    assert s / MS_PER_MINUTE == t / MS_PER_MINUTE;
  }

  lemma MinuteStepQuiet(p: Schedule, t: nat)
    requires t % MS_PER_MINUTE == 0 && UTCMinutes(t) !in p.minute
    ensures Quiet(p, t, t + MS_PER_MINUTE)
  {
    forall s: nat | t <= s < t + MS_PER_MINUTE ensures !Fires(p, s) {
      if s % MS_PER_MINUTE == 0 {
        OneWholeMinute(t, s);
      }
    }
  }

  // ---- a satisfiable schedule fires within nine years ---------------------

  // The instant of a civil day, hour and minute, and its fields.
  lemma ComposedFields(d: nat, h: int, mi: int, t: int)
    requires 0 <= h < 24 && 0 <= mi < 60
    requires t == d * MS_PER_DAY + h * MS_PER_HOUR + mi * MS_PER_MINUTE
    ensures t >= 0 && t % MS_PER_MINUTE == 0
    ensures Day(t) == d && UTCHours(t) == h && UTCMinutes(t) == mi
  {
    assert t / MS_PER_DAY == d;
    assert t % MS_PER_DAY == h * MS_PER_HOUR + mi * MS_PER_MINUTE;
    assert t == (d * 24 + h) * MS_PER_HOUR + mi * MS_PER_MINUTE;
    assert t % MS_PER_HOUR == mi * MS_PER_MINUTE;
  }

  // A weekday occurs among the first seven days of any month.
  lemma WeekdayInMonth(first: nat, w: int) returns (k: int)
    requires 0 <= w <= 6
    ensures 0 <= k < 7 && (first + k + 4) % 7 == w
  {
    k := (w - (first + 4) % 7) % 7;
  }

  lemma Element(s: set<int>) returns (v: int)
    requires s != {}
    ensures v in s
  {
    if forall x :: x !in s {
      assert false;
    }
    v :| v in s;
  }

  lemma MatchingCivilDay(p: Schedule, y: Year) returns (c: Civil)
    requires p.Valid() && !Impossible(p)
    ensures y < c.year <= y + 8 && c.month < 12
    ensures 1 <= c.date <= MonthLength(c.month, IsLeap(c.year))
    ensures MakeDay(c.year, c.month, c.date) >= 0
    ensures c.month + 1 in p.month
    ensures DayMatches(c.date, (MakeDay(c.year, c.month, c.date) + 4) % 7, p)
  {
    var m := Element(p.month);
    if p.dowRestricted {
      var w := Element(p.dow);
      var k := WeekdayInMonth(MakeDay(y + 1, m - 1, 1), w);
      c := Civil(y + 1, m - 1, k + 1);
    } else if p.domRestricted {
      var d, m2 :| d in p.dom && m2 in p.month && d <= MonthLength(m2 - 1, true);
      var leapYear := LeapYearWithinEight(y);
      c := Civil(leapYear, m2 - 1, d);
    } else {
      c := Civil(y + 1, m - 1, 1);
    }
  }

  lemma MatchWithinHorizon(p: Schedule, start: nat) returns (t: nat)
    requires p.Valid() && !Impossible(p)
    ensures start < t < start + HORIZON_DAYS * MS_PER_DAY
    ensures t % MS_PER_MINUTE == 0 && Matches(p, t)
  {
    var y := YearOf(Day(start));
    var c := MatchingCivilDay(p, y);
    var d := MakeDay(c.year, c.month, c.date);
    CivilRoundTrip(d, c);
    DayFromYearSpread(y, y + 9);
    DayFromYearSpread(y + 1, c.year);
    DayFromYearSpread(c.year + 1, y + 9);
    var h := Element(p.hour);
    var mi := Element(p.minute);
    t := d * MS_PER_DAY + h * MS_PER_HOUR + mi * MS_PER_MINUTE;
    ComposedFields(d, h, mi, t);
    assert Day(start) < d < Day(start) + HORIZON_DAYS - 1;
  }

  lemma ImpossibleNeverMatches(p: Schedule, t: nat)
    requires p.Valid() && Impossible(p)
    ensures !Matches(p, t)
  {
    var c := CivilOf(Day(t));
    if c.month + 1 in p.month && c.date in p.dom {
      assert c.date > MonthLength(c.month + 1 - 1, true);
    }
  }

  /** A schedule never fires exactly when it is impossible by its own fields. */
  lemma NeverFiresIffImpossible(p: Schedule)
    requires p.Valid()
    ensures (forall t: nat :: !Fires(p, t)) <==> Impossible(p)
  {
    if Impossible(p) {
      forall t: nat ensures !Fires(p, t) {
        ImpossibleNeverMatches(p, t);
      }
    } else {
      var t := MatchWithinHorizon(p, 0);
      assert Fires(p, t);
    }
  }

  // ---- the search ---------------------------------------------------------

  function HourIndex(t: nat): nat { t / MS_PER_HOUR }

  lemma Pieces(t: nat)
    requires t % MS_PER_MINUTE == 0
    ensures t == Day(t) * MS_PER_DAY + UTCHours(t) * MS_PER_HOUR + UTCMinutes(t) * MS_PER_MINUTE
    ensures HourIndex(t) == Day(t) * 24 + UTCHours(t)
  {
    var h := t / MS_PER_HOUR;
    assert t % MS_PER_HOUR == UTCMinutes(t) * MS_PER_MINUTE;
    assert h / 24 == Day(t);
    assert h % 24 == UTCHours(t);
  }

  // The budget of rounds: one per hour passed, plus at most 60 minute steps in
  // the hour the search started in and 60 in the hour it ends in.
  ghost function Budget(start: nat, t: nat): int {
    HourIndex(t) - HourIndex(start) + UTCMinutes(t) + if HourIndex(t) > HourIndex(start) then 60 else 0
  }

  // What a round of the search keeps.
  ghost predicate SearchState(p: Schedule, fromMs: nat, start: nat, t: Date, rounds: int) {
    match t
    case NaN => forall s: nat :: fromMs < s ==> !Fires(p, s)
    case Time(ms) =>
      && fromMs < start <= ms && ms % MS_PER_MINUTE == 0
      && (ms <= MAX_TIME + MS_PER_MINUTE || ms == start)
      && Quiet(p, fromMs + 1, ms)
      && rounds <= Budget(start, ms)
      && (HourIndex(ms) > HourIndex(start) && UTCMinutes(ms) > 0 ==>
            DateMatches(p, Day(ms)) && UTCHours(ms) in p.hour)
  }

  // The pairs of a time and a number of rounds the search may have reached.
  ghost function Sound(p: Schedule, fromMs: nat, start: nat): iset<(Date, int)> {
    iset k: (Date, int) | SearchState(p, fromMs, start, k.0, k.1)
  }

  // A computed time outside the Date range is NaN.
  function Clipped(t: nat): Date {
    if t <= MAX_TIME then Time(t) else NaN
  }

  lemma LaterHour(t: nat, next: nat)
    requires t < next && next % MS_PER_HOUR == 0
    ensures HourIndex(t) < HourIndex(next) && next % MS_PER_MINUTE == 0
    ensures UTCMinutes(next) == 0 && UTCMinutes(t) < 60
  {
    assert next == HourIndex(next) * MS_PER_HOUR;
  }

  lemma JumpToHourStart(p: Schedule, fromMs: nat, start: nat, t: nat, next: nat, rounds: int)
    requires SearchState(p, fromMs, start, Time(t), rounds)
    requires !(DateMatches(p, Day(t)) && UTCHours(t) in p.hour)
    requires t < next && next % MS_PER_HOUR == 0 && Quiet(p, t, next)
    ensures (Clipped(next), rounds + 1) in Sound(p, fromMs, start)
  {
    LaterHour(t, next);
    assert Quiet(p, fromMs + 1, next);
  }

  lemma NextMonthTime(c: Civil)
    requires c.month < 12 && NextMonthDay(c) >= 0
    ensures DateUTC(if c.month == 11 then c.year + 1 else c.year, if c.month == 11 then 0 else c.month + 1, 1, 0)
         == Clipped(NextMonthDay(c) * MS_PER_DAY)
  {
  }

  lemma WholeDay(d: nat)
    ensures d * MS_PER_DAY % MS_PER_HOUR == 0
  {
    assert d * MS_PER_DAY == d * 24 * MS_PER_HOUR;
  }

  lemma MonthRound(p: Schedule, fromMs: nat, start: nat, t: nat, rounds: int, c: Civil)
    requires SearchState(p, fromMs, start, Time(t), rounds)
    requires c == CivilOf(Day(t)) && c.month + 1 !in p.month
    ensures (DateUTC(if c.month == 11 then c.year + 1 else c.year, if c.month == 11 then 0 else c.month + 1, 1, 0),
             rounds + 1) in Sound(p, fromMs, start)
  {
    MonthJumpQuiet(p, t);
    WholeDay(NextMonthDay(c));
    JumpToHourStart(p, fromMs, start, t, NextMonthDay(c) * MS_PER_DAY, rounds);
    NextMonthTime(c);
  }

  /** `Date.UTC(Y, Mo, D + 1)` is the first instant of the next day, also at the end of a month. */
  lemma NextDayTime(t: nat, c: Civil)
    requires c == CivilOf(Day(t))
    ensures DateUTC(c.year, c.month, c.date + 1, 0) == Clipped((Day(t) + 1) * MS_PER_DAY)
  {
  }

  lemma DayRound(p: Schedule, fromMs: nat, start: nat, t: nat, rounds: int, c: Civil)
    requires SearchState(p, fromMs, start, Time(t), rounds)
    requires c == CivilOf(Day(t)) && !DateMatches(p, Day(t))
    ensures (DateUTC(c.year, c.month, c.date + 1, 0), rounds + 1) in Sound(p, fromMs, start)
  {
    var next := (Day(t) + 1) * MS_PER_DAY;
    DayJumpQuiet(p, t);
    WholeDay(Day(t) + 1);
    JumpToHourStart(p, fromMs, start, t, next, rounds);
    NextDayTime(t, c);
  }

  /** `Date.UTC(Y, Mo, D, h + 1)` is the end of the current hour, also in the last hour of a day. */
  lemma NextHourTime(t: nat, c: Civil)
    requires c == CivilOf(Day(t))
    ensures DateUTC(c.year, c.month, c.date, UTCHours(t) + 1)
         == Clipped(Day(t) * MS_PER_DAY + (UTCHours(t) + 1) * MS_PER_HOUR)
  {
  }

  lemma WholeHour(d: nat, h: nat)
    ensures (d * MS_PER_DAY + h * MS_PER_HOUR) % MS_PER_HOUR == 0
  {
    assert d * MS_PER_DAY + h * MS_PER_HOUR == (d * 24 + h) * MS_PER_HOUR;
  }

  lemma HourRound(p: Schedule, fromMs: nat, start: nat, t: nat, rounds: int, c: Civil)
    requires SearchState(p, fromMs, start, Time(t), rounds)
    requires c == CivilOf(Day(t)) && UTCHours(t) !in p.hour
    ensures (DateUTC(c.year, c.month, c.date, UTCHours(t) + 1), rounds + 1) in Sound(p, fromMs, start)
  {
    var next := Day(t) * MS_PER_DAY + (UTCHours(t) + 1) * MS_PER_HOUR;
    HourJumpQuiet(p, t);
    WholeHour(Day(t), UTCHours(t) + 1);
    JumpToHourStart(p, fromMs, start, t, next, rounds);
    NextHourTime(t, c);
  }

  lemma NextWholeMinute(t: nat, next: nat)
    requires t % MS_PER_MINUTE == 0 && next == t + MS_PER_MINUTE
    ensures next % MS_PER_MINUTE == 0
  {
  }

  lemma QuietJoin(p: Schedule, a: nat, b: nat, c: nat)
    requires Quiet(p, a, b) && Quiet(p, b, c)
    ensures Quiet(p, a, c)
  {
  }

  lemma QuietMinute(p: Schedule, from: nat, t: nat, next: nat)
    requires t % MS_PER_MINUTE == 0 && next == t + MS_PER_MINUTE
    requires Quiet(p, from, t) && UTCMinutes(t) !in p.minute
    ensures next % MS_PER_MINUTE == 0 && Quiet(p, from, next)
  {
    NextWholeMinute(t, next);
    MinuteStepQuiet(p, t);
    QuietJoin(p, from, t, next);
  }

  lemma SameHourNextMinute(t: nat, next: nat)
    requires t % MS_PER_MINUTE == 0 && UTCMinutes(t) < 59 && next == t + MS_PER_MINUTE
    ensures HourIndex(next) == HourIndex(t)
    ensures UTCMinutes(next) == UTCMinutes(t) + 1
    ensures Day(next) == Day(t) && UTCHours(next) == UTCHours(t)
  {
    Pieces(t);
    ComposedFields(Day(t), UTCHours(t), UTCMinutes(t) + 1, next);
    Pieces(next);
  }

  lemma NextHourByMinute(t: nat, next: nat)
    requires t % MS_PER_MINUTE == 0 && UTCMinutes(t) >= 59 && next == t + MS_PER_MINUTE
    ensures HourIndex(next) == HourIndex(t) + 1
    ensures UTCMinutes(next) == 0 && UTCMinutes(t) == 59
  {
    var h := t / MS_PER_HOUR;
    assert next == (h + 1) * MS_PER_HOUR;
  }

  // Past the first hour, a matching hour is entered at its start, so its last
  // minute is passed without a firing only in the hour the search started in.
  lemma WholeHourChecked(p: Schedule, from: nat, start: nat, t: nat)
    requires p.Valid() && t <= MAX_TIME && t % MS_PER_MINUTE == 0
    requires from <= start <= t && Quiet(p, from, t)
    requires DateMatches(p, Day(t)) && UTCHours(t) in p.hour && UTCMinutes(t) !in p.minute
    requires UTCMinutes(t) == 59
    ensures HourIndex(t) == HourIndex(start)
  {
    if HourIndex(t) > HourIndex(start) {
      var mi := Element(p.minute);
      var d, h := Day(t), UTCHours(t);
      var s := d * MS_PER_DAY + h * MS_PER_HOUR + mi * MS_PER_MINUTE;
      ComposedFields(d, h, mi, s);
      Pieces(t);
      assert start < HourIndex(t) * MS_PER_HOUR <= s < t;
      assert Fires(p, s);
      assert false;
    }
  }

  lemma BudgetStep(p: Schedule, from: nat, start: nat, t: nat, next: nat)
    requires p.Valid() && t <= MAX_TIME && t % MS_PER_MINUTE == 0
    requires from <= start <= t && Quiet(p, from, t)
    requires DateMatches(p, Day(t)) && UTCHours(t) in p.hour && UTCMinutes(t) !in p.minute
    requires next == t + MS_PER_MINUTE
    ensures Budget(start, t) + 1 <= Budget(start, next)
    ensures UTCMinutes(t) >= 59 ==> UTCMinutes(next) == 0
  {
    if UTCMinutes(t) < 59 {
      SameHourNextMinute(t, next);
    } else {
      NextHourByMinute(t, next);
      WholeHourChecked(p, from, start, t);
    }
  }

  lemma StepToNextMinute(p: Schedule, fromMs: nat, start: nat, t: nat, rounds: int)
    requires p.Valid() && t <= MAX_TIME
    requires SearchState(p, fromMs, start, Time(t), rounds)
    requires DateMatches(p, Day(t)) && UTCHours(t) in p.hour && UTCMinutes(t) !in p.minute
    ensures (Time(t + MS_PER_MINUTE), rounds + 1) in Sound(p, fromMs, start)
  {
    var next := t + MS_PER_MINUTE;
    QuietMinute(p, fromMs + 1, t, next);
    BudgetStep(p, fromMs + 1, start, t, next);
    if UTCMinutes(t) < 59 {
      SameHourNextMinute(t, next);
    }
  }

  // Running out of rounds means more than a horizon of silence.
  lemma ExhaustedMeansImpossible(p: Schedule, fromMs: nat, start: nat, t: Date)
    requires p.Valid() && SearchState(p, fromMs, start, t, CAP)
    ensures forall s: nat :: fromMs < s ==> !Fires(p, s)
  {
    if t.Time? {
      if Impossible(p) {
        NeverFiresIffImpossible(p);
      } else {
        var s := MatchWithinHorizon(p, start);
        assert HourIndex(t.ms) - HourIndex(start) >= CAP - 120;
        assert s < t.ms;
        assert s <= MAX_TIME;
        assert Fires(p, s);
        assert false;
      }
    }
  }

  // A time that is no Date is past the last firing.
  lemma PastTheRange(p: Schedule, fromMs: nat, start: nat, t: Date, rounds: int)
    requires SearchState(p, fromMs, start, t, rounds) && NewDate(t).NaN?
    ensures (NaN, rounds + 1) in Sound(p, fromMs, start)
  {
  }

  lemma FirstMinute(p: Schedule, fromMs: nat, start: nat)
    requires start == fromMs / MS_PER_MINUTE * MS_PER_MINUTE + MS_PER_MINUTE
    ensures (Time(start), 0) in Sound(p, fromMs, start)
    ensures start <= fromMs + MS_PER_MINUTE
  {
    forall s: nat | fromMs + 1 <= s < start ensures !Fires(p, s) {
      assert s / MS_PER_MINUTE == fromMs / MS_PER_MINUTE;
    }
  }

  lemma FoundConsequences(p: Schedule, fromMs: nat, start: nat, ms: nat, rounds: int)
    requires p.Valid() && Fires(p, ms)
    requires SearchState(p, fromMs, start, Time(ms), rounds)
    requires start <= fromMs + MS_PER_MINUTE
    ensures IsNext(p, fromMs, ms) && !Impossible(p)
    ensures rounds + 1 < 80_000
  {
    if Impossible(p) {
      ImpossibleNeverMatches(p, ms);
    }
    var s := MatchWithinHorizon(p, start);
    if s < ms {
      assert Fires(p, s);
    }
    assert HourIndex(ms) - HourIndex(start) <= HORIZON_DAYS * 24 + 1;
  }

  lemma NoneLeft(p: Schedule, fromMs: nat)
    requires p.Valid() && forall s: nat :: fromMs < s ==> !Fires(p, s)
    ensures fromMs + HORIZON_DAYS * MS_PER_DAY < MAX_TIME ==> Impossible(p)
  {
    if !Impossible(p) {
      var s := MatchWithinHorizon(p, fromMs);
      if s <= MAX_TIME {
        assert Fires(p, s);
      }
    }
  }

  // One round of the search: the time to look at next, or nothing if `t` matches.
  method Round(p: Schedule, t: Date, ghost fromMs: nat, ghost start: nat, ghost rounds: int)
    returns (next: Option<Date>)
    requires p.Valid() && (t, rounds) in Sound(p, fromMs, start)
    ensures next.Some? ==> (next.value, rounds + 1) in Sound(p, fromMs, start)
    ensures next.None? ==> t.Time? && Fires(p, t.ms)
  {
    var d := NewDate(t);
    if d.NaN? {
      // Every field is NaN, in no set; Date.UTC of NaN is NaN.
      PastTheRange(p, fromMs, start, t, rounds);
      return Some(NaN);
    }
    var ms := d.ms;
    var c := CivilOf(Day(ms));
    if c.month + 1 !in p.month {
      MonthRound(p, fromMs, start, ms, rounds, c);
      var nextMonth := if c.month == 11 then 0 else c.month + 1;
      var nextYear := if c.month == 11 then c.year + 1 else c.year;
      return Some(DateUTC(nextYear, nextMonth, 1, 0));
    }
    if !DayMatches(c.date, UTCDay(ms), p) {
      DayRound(p, fromMs, start, ms, rounds, c);
      return Some(DateUTC(c.year, c.month, c.date + 1, 0));
    }
    if UTCHours(ms) !in p.hour {
      HourRound(p, fromMs, start, ms, rounds, c);
      return Some(DateUTC(c.year, c.month, c.date, UTCHours(ms) + 1));
    }
    if UTCMinutes(ms) !in p.minute {
      StepToNextMinute(p, fromMs, start, ms, rounds);
      return Some(Time(ms + MS_PER_MINUTE));
    }
    return None;
  }

  /**
    The search itself. `None` is the thrown error. The result is the least
    firing minute after `fromMs`; the error means that none is left, which
    away from the end of the Date range happens only for impossible schedules.
    `rounds` counts the loop rounds used: far fewer than `CAP`.
  */
  method SearchFrom(p: Schedule, fromMs: nat) returns (r: Option<nat>, ghost rounds: nat)
    requires p.Valid()
    ensures r.Some? ==> IsNext(p, fromMs, r.value)
    ensures r.Some? ==>
      var t := r.value;
      var c, weekday := CivilOf(t / 86_400_000), (t / 86_400_000 + 4) % 7;
      && t % 60_000 == 0 && t <= 8_640_000_000_000_000
      && c.month + 1 in p.month && t % 86_400_000 / 3_600_000 in p.hour && t % 3_600_000 / 60_000 in p.minute
      && (p.domRestricted && p.dowRestricted ==> c.date in p.dom || weekday in p.dow)
      && (p.domRestricted && !p.dowRestricted ==> c.date in p.dom)
      && (!p.domRestricted && p.dowRestricted ==> weekday in p.dow)
    ensures r.None? <==> forall s: nat :: fromMs < s ==> !Fires(p, s)
    ensures fromMs + HORIZON_DAYS * MS_PER_DAY < MAX_TIME ==> (r.None? <==> Impossible(p))
    ensures r.Some? ==> rounds < 80_000 < CAP
  {
    var start := fromMs / MS_PER_MINUTE * MS_PER_MINUTE + MS_PER_MINUTE;
    var t := Time(start);
    FirstMinute(p, fromMs, start);
    rounds := 0;
    for i := 0 to CAP
      invariant rounds == i && (t, i) in Sound(p, fromMs, start)
    {
      rounds := i + 1;
      var next := Round(p, t, fromMs, start, i);
      if next.None? {
        FoundConsequences(p, fromMs, start, t.ms, i);
        FiresIff(p, t.ms);
        return Some(t.ms), rounds;
      }
      t := next.value;
    }
    ExhaustedMeansImpossible(p, fromMs, start, t);
    NoneLeft(p, fromMs);
    return None, rounds;
  }

  // ---- iterating the search -----------------------------------------------

  // `ts` holds exactly the elements of `f` after `from` up to `last`, in order.
  ghost predicate FirstOnes(f: iset<nat>, from: nat, ts: seq<nat>, last: nat) {
    && last == (if ts == [] then from else ts[|ts| - 1])
    && (forall i, j :: 0 <= i < j < |ts| ==> ts[i] < ts[j])
    && (forall i :: 0 <= i < |ts| ==> from < ts[i] <= last)
    && (forall t: nat | from < t <= last :: t in f <==> t in ts)
  }

  lemma OneMore(f: iset<nat>, from: nat, ts: seq<nat>, last: nat, t: nat)
    requires FirstOnes(f, from, ts, last) && IsLeastAfter(f, last, t)
    ensures FirstOnes(f, from, ts + [t], t)
  {
    forall s: nat | last < s <= t ensures s in f <==> s in ts + [t] {
      assert s !in ts;
    }
  }

  /**
    Calling the search on its own results: the first `n` firings after `fromMs`,
    or all there are, when the search throws.
  */
  method NextRuns(p: Schedule, fromMs: nat, n: nat) returns (ts: seq<nat>, ended: bool)
    requires p.Valid()
    ensures |ts| <= n && (!ended ==> |ts| == n)
    ensures forall i, j :: 0 <= i < j < |ts| ==> ts[i] < ts[j]
    ensures ts != [] ==> forall t: nat | fromMs < t <= ts[|ts| - 1] :: Fires(p, t) <==> t in ts
    ensures ended ==> forall t: nat | fromMs < t :: Fires(p, t) <==> t in ts
    ensures forall i :: 0 <= i < |ts| ==> fromMs < ts[i]
  {
    ts := [];
    var last := fromMs;
    while |ts| < n
      invariant |ts| <= n && FirstOnes(Firings(p), fromMs, ts, last)
    {
      var t, _ := SearchFrom(p, last);
      if t.None? {
        return ts, true;
      }
      OneMore(Firings(p), fromMs, ts, last, t.value);
      ts, last := ts + [t.value], t.value;
    }
    return ts, false;
  }
}
