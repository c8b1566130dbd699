/** The search of the cron engine (`Crontab.dates`, `Crontab.date_times`,
    `next_cron_occurrence`): nested loops over years, listed months, the padded month grid,
    listed hours and listed minutes, proved to find the least matching minute. */
module CronSearch {
  import opened Calendar

  datatype Crontab = Crontab(
    minutes: seq<int>, hours: seq<int>, daysOfMonth: seq<int>, months: seq<int>, daysOfWeek: seq<int>,
    domStar: bool, dowStar: bool)

  /** A UTC minute. */
  datatype Moment = Moment(date: Date, hour: int, minute: int)

  /** A UTC datetime: a minute and the microseconds elapsed in it. */
  datatype Instant = Instant(minute: Moment, micros: int)

  datatype Option<T> = None | Some(value: T)

  /** `YearOutOfRange` is the ValueError of `date(year=10000, ...)`, re-raised as
      InvalidExpression; `Overflow` is the OverflowError of adding a minute at the end of time. */
  datatype SearchError = YearOutOfRange | Overflow
  datatype Outcome = Found(moment: Moment) | NotFound(error: SearchError)

  // ---------------------------------------------------------------------------------
  // What it means to match, and what "least" means
  // ---------------------------------------------------------------------------------

  predicate Increasing(s: seq<int>) {
    forall i, j :: 0 <= i < j < |s| ==> s[i] < s[j]
  }

  predicate InRange(s: seq<int>, lo: int, hi: int) {
    forall i :: 0 <= i < |s| ==> lo <= s[i] <= hi
  }

  /** What the field parser guarantees of a Crontab. */
  predicate WellFormed(c: Crontab) {
    && Increasing(c.minutes) && InRange(c.minutes, 0, 59)
    && Increasing(c.hours) && InRange(c.hours, 0, 23)
    && Increasing(c.daysOfMonth) && InRange(c.daysOfMonth, 1, 31)
    && Increasing(c.months) && InRange(c.months, 1, 12)
    && Increasing(c.daysOfWeek) && InRange(c.daysOfWeek, 0, 6)
  }

  function CronWeekday(weekday: int): int {
    (weekday + 1) % 7
  }

  /** The day rule of cron: an unrestricted weekday leaves the day of month to decide, an
      unrestricted day of month leaves the weekday to decide, otherwise either suffices. */
  predicate DayMatches(c: Crontab, day: int, weekday: int) {
    if c.dowStar then day in c.daysOfMonth
    else if c.domStar then CronWeekday(weekday) in c.daysOfWeek
    else day in c.daysOfMonth || CronWeekday(weekday) in c.daysOfWeek
  }

  predicate DateMatches(c: Crontab, d: Date)
    requires ValidDate(d)
  {
    d.month in c.months && DayMatches(c, d.day, Weekday(d))
  }

  predicate ValidMoment(t: Moment) {
    ValidDate(t.date) && 0 <= t.hour <= 23 && 0 <= t.minute <= 59
  }

  predicate Matches(c: Crontab, t: Moment) {
    ValidMoment(t) && DateMatches(c, t.date) && t.hour in c.hours && t.minute in c.minutes
  }

  /** The schedule fires at a minute: the month, the hour and the minute are listed, and so is the day of the month or
      the weekday, whichever the expression restricts; day numbers divisible by seven are Sundays. */
  ghost predicate Fires(c: Crontab, t: Moment) {
    && 1 <= t.date.year <= 9999 && t.date.month in c.months && t.hour in c.hours && t.minute in c.minutes
    && 1 <= t.date.month <= 12 && 1 <= t.date.day <= DaysInMonth(t.date.year, t.date.month)
    && 0 <= t.hour < 24 && 0 <= t.minute < 60
    && var dayListed, weekdayListed := t.date.day in c.daysOfMonth, Ordinal(t.date) % 7 in c.daysOfWeek;
       (dayListed && (c.dowStar || !c.domStar)) || (weekdayListed && !c.dowStar)
  }

  lemma MatchesMeansFires(c: Crontab, t: Moment)
    ensures Matches(c, t) <==> Fires(c, t)
  {
    if ValidMoment(t) {
      WeekdayOfDayNumber(t.date);
    }
  }

  /** A cron weekday is a day number modulo seven. */
  lemma WeekdayOfDayNumber(d: Date)
    requires ValidDate(d)
    ensures CronWeekday(Weekday(d)) == Ordinal(d) % 7
  {
    SevenDaysOn(Ordinal(d));
  }

  lemma SevenDaysOn(n: int)
    ensures ((n + 6) % 7 + 1) % 7 == n % 7
  {
    ModShift(n + 6, 1);
    assert (n + 7) % 7 == n % 7;
  }

  /** Year by year, month by month, ... minute by minute. */
  predicate Later(a: Moment, b: Moment) {
    || a.date.year < b.date.year
    || (a.date.year == b.date.year &&
        (|| a.date.month < b.date.month
         || (a.date.month == b.date.month &&
             (|| a.date.day < b.date.day
              || (a.date.day == b.date.day && (a.hour < b.hour || (a.hour == b.hour && a.minute < b.minute)))))))
  }

  lemma LaterIsIndexOrder(a: Moment, b: Moment)
    requires ValidMoment(a) && ValidMoment(b)
    ensures Later(a, b) <==> Index(a) < Index(b)
  {
    IndexOrder(b, a);
    IndexOrder(a, b);
  }

  lemma UpcomingMeans(c: Crontab, base: Instant, t: Moment)
    requires ValidInstant(base)
    ensures Upcoming(c, base, t) <==> Fires(c, t) && Later(base.minute, t)
  {
    MatchesMeansFires(c, t);
    if ValidMoment(t) {
      LaterIsIndexOrder(base.minute, t);
    }
  }

  /** Minutes since the start of the calendar. */
  function Index(t: Moment): int
    requires ValidMoment(t)
  {
    Ordinal(t.date) * 1440 + t.hour * 60 + t.minute
  }

  /** Microseconds since the start of the calendar. */
  function Micros(t: Instant): int
    requires ValidMoment(t.minute)
  {
    Index(t.minute) * 60_000_000 + t.micros
  }

  /** The same order, component by component: what the loops establish. */
  predicate AtOrBefore(a: Moment, b: Moment) {
    || DateBefore(a.date, b.date)
    || (a.date == b.date && (a.hour < b.hour || (a.hour == b.hour && a.minute <= b.minute)))
  }

  lemma IndexOrder(a: Moment, b: Moment)
    requires ValidMoment(a) && ValidMoment(b)
    ensures AtOrBefore(a, b) <==> Index(a) <= Index(b)
    ensures a == b <==> Index(a) == Index(b)
  {
    OrdinalOrder(a.date, b.date);
  }

  /** A match not before `start`. */
  predicate Due(c: Crontab, start: Moment, t: Moment) {
    Matches(c, t) && AtOrBefore(start, t)
  }

  /** `t` is the first match at or after `start`. */
  ghost predicate IsFirst(c: Crontab, start: Moment, t: Moment) {
    Due(c, start, t) && forall u :: Due(c, start, u) ==> AtOrBefore(t, u)
  }

  // ---------------------------------------------------------------------------------
  // The loops
  // ---------------------------------------------------------------------------------

  /** The inner two loops of `date_times`: the first listed time on one matching day. */
  method FirstTimeOnDay(c: Crontab, day: Date, start: Moment) returns (r: Option<Moment>)
    requires WellFormed(c) && ValidDate(day) && DateMatches(c, day) && ValidMoment(start)
    requires !DateBefore(day, start.date)
    ensures r.Some? ==> Due(c, start, r.value) && r.value.date == day
    ensures r.Some? ==> forall t :: Due(c, start, t) && t.date == day ==> AtOrBefore(r.value, t)
    ensures r.None? ==> forall t :: Due(c, start, t) ==> t.date != day
  {
    var isStartDay := day == start.date;
    for i := 0 to |c.hours|
      invariant forall t, k :: Due(c, start, t) && t.date == day && 0 <= k < i ==> t.hour != c.hours[k]
    {
      var hour := c.hours[i];
      var isStartHour := isStartDay && hour == start.hour;
      if !(isStartDay && hour < start.hour) {
        for j := 0 to |c.minutes|
          invariant forall t, k ::
            Due(c, start, t) && t.date == day && t.hour == hour && 0 <= k < j ==> t.minute != c.minutes[k]
        {
          var minute := c.minutes[j];
          if !(isStartHour && minute < start.minute) {
            return Some(Moment(day, hour, minute));
          }
        }
      }
    }
    return None;
  }

  /** No match lies in the part of the calendar before `d`. */
  ghost predicate NothingBefore(c: Crontab, start: Moment, d: Date) {
    forall t :: Due(c, start, t) ==> !DateBefore(t.date, d)
  }

  /** The grid loop of `dates` for one month, with `date_times` consuming each date. */
  method SearchMonth(c: Crontab, year: int, month: int, anchor: Date, start: Moment)
    returns (r: Option<Moment>)
    requires WellFormed(c) && ValidMoment(start) && ValidDate(anchor)
    requires year == anchor.year && anchor.month <= month <= 12 && month in c.months
    requires !DateBefore(anchor, start.date)
    requires NothingBefore(c, start, anchor)
    requires NothingBefore(c, start, Date(year, month, 1))
    ensures r.Some? ==> IsFirst(c, start, r.value) && r.value.date.year == year
    ensures r.None? ==> NothingBefore(c, start, Date(year, month + 1, 1))
  {
    var grid := MonthGrid(year, month);
    for i := 0 to |grid|
      invariant forall t :: Due(c, start, t) && t.date.year == year && t.date.month == month ==>
        i <= GridIndex(year, month, t.date.day)
    {
      MonthGridLists(year, month, i);
      var day := grid[i].day;
      if day != 0 && !(month == anchor.month && day < anchor.day) && DayMatches(c, day, grid[i].weekday) {
        var date := Date(year, month, day);
        r := FirstTimeOnDay(c, date, start);
        if r.Some? {
          return;
        }
      }
    }
    forall t | Due(c, start, t) ensures !DateBefore(t.date, Date(year, month + 1, 1)) {
      if t.date.year == year && t.date.month == month {
        MonthGridComplete(year, month, t.date.day);
      }
    }
    return None;
  }

  /** `Crontab.next_from`: the year loop of `dates`. It ends, with the first match or with the
      error of year 10000, and never loops forever. */
  method NextFrom(c: Crontab, start: Moment) returns (r: Outcome)
    requires WellFormed(c) && ValidMoment(start)
    ensures r.Found? ==> IsFirst(c, start, r.moment)
    ensures r.NotFound? ==> r.error == YearOutOfRange && forall t :: !Due(c, start, t)
  {
    var anchor := start.date;
    while true
      invariant ValidDate(anchor) && !DateBefore(anchor, start.date)
      invariant NothingBefore(c, start, anchor)
      decreases MAX_YEAR - anchor.year
    {
      for k := 0 to |c.months|
        invariant forall t, i :: Due(c, start, t) && t.date.year == anchor.year && 0 <= i < k ==>
          t.date.month != c.months[i]
      {
        var month := c.months[k];
        if anchor.month <= month {
          assert NothingBefore(c, start, Date(anchor.year, month, 1));
          var found := SearchMonth(c, anchor.year, month, anchor, start);
          if found.Some? {
            return Found(found.value);
          }
        }
      }
      assert NothingBefore(c, start, Date(anchor.year + 1, 1, 1));
      if anchor.year == MAX_YEAR {
        return NotFound(YearOutOfRange);
      }
      anchor := Date(anchor.year + 1, 1, 1);
    }
  }

  // ---------------------------------------------------------------------------------
  // next_cron_occurrence
  // ---------------------------------------------------------------------------------

  predicate IsLastMoment(t: Moment) {
    IsLastDate(t.date) && t.hour == 23 && t.minute == 59
  }

  /** `t + timedelta(minutes=1)`. */
  function PlusMinute(t: Moment): (r: Moment)
    requires ValidMoment(t) && !IsLastMoment(t)
    ensures ValidMoment(r)
  {
    if t.minute < 59 then t.(minute := t.minute + 1)
    else if t.hour < 23 then t.(hour := t.hour + 1, minute := 0)
    else Moment(NextDate(t.date), 0, 0)
  }

  lemma PlusMinuteIsNextIndex(t: Moment)
    requires ValidMoment(t) && !IsLastMoment(t)
    ensures Index(PlusMinute(t)) == Index(t) + 1
  {
    if t.minute == 59 && t.hour == 23 {
      NextDateIsNextOrdinal(t.date);
    }
  }

  /** `t` is a matching minute strictly after `base`. */
  ghost predicate Upcoming(c: Crontab, base: Instant, t: Moment)
    requires ValidMoment(base.minute)
  {
    Matches(c, t) && Micros(base) < Micros(Instant(t, 0))
  }

  predicate ValidInstant(t: Instant) {
    ValidMoment(t.minute) && 0 <= t.micros < 60_000_000
  }

  lemma UpcomingIsDue(c: Crontab, base: Instant, t: Moment)
    requires ValidInstant(base) && !IsLastMoment(base.minute)
    ensures Upcoming(c, base, t) <==> Due(c, PlusMinute(base.minute), t)
  {
    if Matches(c, t) {
      PlusMinuteIsNextIndex(base.minute);
      IndexOrder(PlusMinute(base.minute), t);
    }
  }

  /** The least matching minute strictly after the base, counted in microseconds since the start
      of the calendar; an error exactly when no such minute exists before year 10000 (the
      arithmetic overflow at the very last minute included). */
  method NextOccurrence(c: Crontab, base: Instant) returns (r: Outcome)
    requires WellFormed(c) && ValidInstant(base)
    ensures r.Found? ==> Upcoming(c, base, r.moment)
    ensures r.Found? ==> forall t :: Upcoming(c, base, t) ==> Index(r.moment) <= Index(t)
    ensures r.NotFound? ==> forall t :: !Upcoming(c, base, t)
    ensures r == NotFound(Overflow) <==> IsLastMoment(base.minute)
    ensures r.Found? ==> Fires(c, r.moment) && Later(base.minute, r.moment)
    ensures r.Found? ==> forall t :: Fires(c, t) && Later(base.minute, t) ==> !Later(t, r.moment)
    ensures r.NotFound? ==> forall t :: Fires(c, t) ==> !Later(base.minute, t)
  {
    forall t ensures Upcoming(c, base, t) <==> Fires(c, t) && Later(base.minute, t) {
      UpcomingMeans(c, base, t);
    }
    if IsLastMoment(base.minute) {
      forall t ensures !Upcoming(c, base, t) {
        if Matches(c, t) {
          assert AtOrBefore(t, base.minute);
          IndexOrder(t, base.minute);
        }
      }
      return NotFound(Overflow);
    }
    r := NextFrom(c, PlusMinute(base.minute));
    forall t ensures Upcoming(c, base, t) <==> Due(c, PlusMinute(base.minute), t) {
      UpcomingIsDue(c, base, t);
    }
    if r.Found? {
      forall t | Upcoming(c, base, t) ensures Index(r.moment) <= Index(t) && !Later(t, r.moment) {
        IndexOrder(r.moment, t);
        LaterIsIndexOrder(t, r.moment);
      }
    }
  }

  /** Feeding each occurrence back as the next base: the matching minutes after the base, all of
      them and in order, until the error. */
  method Occurrences(c: Crontab, base: Instant, n: nat) returns (out: seq<Moment>)
    requires WellFormed(c) && ValidInstant(base)
    ensures |out| <= n
    ensures forall i :: 0 <= i < |out| ==> ValidMoment(out[i])
    ensures forall i :: 0 <= i < |out| ==> Upcoming(c, base, out[i])
    ensures forall i, j :: 0 <= i < j < |out| ==> Index(out[i]) < Index(out[j])
    ensures |out| < n ==> forall t :: Upcoming(c, base, t) ==> t in out
    ensures |out| > 0 ==> forall t :: Upcoming(c, base, t) && Index(t) <= Index(out[|out| - 1]) ==> t in out
  {
    out := [];
    var cursor := base;
    while |out| < n
      invariant |out| <= n
      invariant ValidInstant(cursor) && Micros(base) <= Micros(cursor)
      invariant forall i :: 0 <= i < |out| ==> Upcoming(c, base, out[i]) && Micros(Instant(out[i], 0)) <= Micros(cursor)
      invariant |out| > 0 ==> cursor == Instant(out[|out| - 1], 0)
      invariant forall i, j :: 0 <= i < j < |out| ==> Index(out[i]) < Index(out[j])
      invariant forall t :: Upcoming(c, base, t) && !Upcoming(c, cursor, t) ==> t in out
    {
      var r := NextOccurrence(c, cursor);
      if r.NotFound? {
        return;
      }
      forall t | Upcoming(c, base, t) && Upcoming(c, cursor, t) && !Upcoming(c, Instant(r.moment, 0), t)
        ensures t == r.moment
      {
        IndexOrder(t, r.moment);
      }
      out := out + [r.moment];
      cursor := Instant(r.moment, 0);
    }
  }

  // ---------------------------------------------------------------------------------
  // When an expression matches at all, and how soon
  // ---------------------------------------------------------------------------------

  /** Some listed day exists in some listed month of a leap year. */
  predicate NamesRealDay(c: Crontab)
    requires WellFormed(c)
  {
    exists i, j :: 0 <= i < |c.months| && 0 <= j < |c.daysOfMonth| && c.daysOfMonth[j] <= DaysInMonth(4, c.months[i])
  }

  predicate Satisfiable(c: Crontab)
    requires WellFormed(c)
  {
    && c.minutes != [] && c.hours != [] && c.months != []
    && (c.dowStar ==> NamesRealDay(c))
    && (!c.dowStar && c.domStar ==> c.daysOfWeek != [])
    && (!c.dowStar && !c.domStar ==> c.daysOfWeek != [] || NamesRealDay(c))
  }

  lemma UnsatisfiableNeverMatches(c: Crontab, t: Moment)
    requires WellFormed(c) && Matches(c, t)
    ensures Satisfiable(c)
  {
    var d := t.date;
    if d.day in c.daysOfMonth {
      var i :| 0 <= i < |c.months| && c.months[i] == d.month;
      var j :| 0 <= j < |c.daysOfMonth| && c.daysOfMonth[j] == d.day;
      assert IsLeap(4);
      assert c.daysOfMonth[j] <= DaysInMonth(4, c.months[i]);
    }
  }

  lemma WeekdayNextYear(c: Crontab, year: int) returns (t: Moment)
    requires WellFormed(c) && Satisfiable(c) && !c.dowStar && c.daysOfWeek != []
    requires MIN_YEAR <= year && year + 8 <= MAX_YEAR
    ensures Matches(c, t)
    ensures t.date.year == year + 1
  {
    var month := c.months[0];
    var python := (c.daysOfWeek[0] + 6) % 7;
    var day := WeekdayInFirstWeek(year + 1, month, python);
    assert CronWeekday(python) == c.daysOfWeek[0] by { SevenDaysOn(c.daysOfWeek[0]); }
    t := Moment(Date(year + 1, month, day), c.hours[0], c.minutes[0]);
  }

  lemma ListedDayWithinEightYears(c: Crontab, year: int) returns (t: Moment)
    requires WellFormed(c) && Satisfiable(c) && NamesRealDay(c) && (!c.dowStar ==> !c.domStar)
    requires MIN_YEAR <= year && year + 8 <= MAX_YEAR
    ensures Matches(c, t)
    ensures year < t.date.year <= year + 8
  {
    var i, j :| 0 <= i < |c.months| && 0 <= j < |c.daysOfMonth| && c.daysOfMonth[j] <= DaysInMonth(4, c.months[i]);
    var leap := LeapWithinEight(year);
    t := Moment(Date(leap, c.months[i], c.daysOfMonth[j]), c.hours[0], c.minutes[0]);
  }

  /** A listed weekday is met in the year after the start; a listed day of month likewise, unless
      only February 29 is left, which waits for a leap year. */
  lemma MatchesWithinEightYears(c: Crontab, year: int) returns (t: Moment)
    requires WellFormed(c) && Satisfiable(c)
    requires MIN_YEAR <= year && year + 8 <= MAX_YEAR
    ensures Matches(c, t)
    ensures year < t.date.year <= year + 8
  {
    if !c.dowStar && c.daysOfWeek != [] {
      t := WeekdayNextYear(c, year);
    } else {
      t := ListedDayWithinEightYears(c, year);
    }
  }

  /** The search bound: from a base early enough, a satisfiable expression fires within eight
      calendar years and an unsatisfiable one is rejected at year 10000. */
  method NextOccurrenceBounded(c: Crontab, base: Instant) returns (r: Outcome)
    requires WellFormed(c) && ValidInstant(base) && base.minute.date.year + 8 <= MAX_YEAR
    ensures r.Found? <==> Satisfiable(c)
    ensures r.Found? ==> r.moment.date.year <= base.minute.date.year + 8
    ensures r.NotFound? ==> r.error == YearOutOfRange
  {
    r := NextOccurrence(c, base);
    if Satisfiable(c) {
      var t := MatchesWithinEightYears(c, base.minute.date.year);
      IndexOrder(base.minute, t);
      assert Upcoming(c, base, t);
      IndexOrder(r.moment, t);
    } else if r.Found? {
      UnsatisfiableNeverMatches(c, r.moment);
    }
  }

  /** The bound of eight years is met: February 29 asked for on March 1, 1896 comes in 1904. */
  lemma EightYearsIsTight(c: Crontab, base: Instant, t: Moment)
    requires WellFormed(c) && c.dowStar && c.months == [2] && c.daysOfMonth == [29]
    requires base == Instant(Moment(Date(1896, 3, 1), 0, 0), 0)
    requires Upcoming(c, base, t)
    ensures 1904 <= t.date.year
  {
    IndexOrder(base.minute, t);
    assert t.date.month == 2 && t.date.day == 29;
    assert !IsLeap(1900);
  }
}
