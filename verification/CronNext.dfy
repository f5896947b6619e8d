/** The calendar search of `ComputeNextCronRun`: it skips whole months, days
    and hours, gives up after 527040 steps, and is proved to return exactly the
    first matching minute, for every set of fields and every starting time. */
module CronNext {
  import opened Wrappers
  import opened Calendar
  import opened CronParse
  import SkipSearch

  /** The step budget, 366 * 24 * 60. */
  const MAX_ITER: nat := 527040

  /** The day rule of IEEE Std 1003.1-2017, `crontab`, section "INPUT FILES": a
      restricted day-of-month and a restricted day-of-week are alternatives.
      A field counts as unrestricted when it lists as many values as it has. */
  ghost predicate DayMatches(f: CronFields, day: int) {
    var domWild := |f.dayOfMonth| == 31;
    var dowWild := |f.dayOfWeek| == 7;
    if domWild && dowWild then true
    else if domWild then Weekday(day) in f.dayOfWeek
    else if dowWild then Civil(day).day in f.dayOfMonth
    else Civil(day).day in f.dayOfMonth || Weekday(day) in f.dayOfWeek
  }

  /** Hour `h`, counted from the epoch, can hold a match. */
  ghost predicate HourMatches(f: CronFields, h: int) {
    Civil(h / 24).month in f.month && DayMatches(f, h / 24) && h % 24 in f.hour
  }

  ghost function HourTest(f: CronFields): int -> bool { h => HourMatches(f, h) }
  ghost function MinuteTest(f: CronFields): int -> bool { m => m in f.minute }
  ghost function SkipRule(f: CronFields): int -> int { t => Skip(f, t) }

  ghost predicate Matches(f: CronFields, t: int) {
    SkipSearch.Accepts(HourTest(f), MinuteTest(f), t)
  }

  /** Where one step of the search goes from a minute that does not match. */
  ghost function Skip(f: CronFields, t: int): int {
    if MonthAt(t) !in f.month then StartOfNextMonth(t)
    else if !DayMatches(f, DayOf(t)) then StartOfNextDay(t)
    else if HourAt(t) !in f.hour then StartOfNextHour(t)
    else t + 1
  }

  ghost function Search(f: CronFields, t: int, steps: nat): Option<int> {
    SkipSearch.Search(HourTest(f), MinuteTest(f), SkipRule(f), t, steps)
  }

  /** `from` in local milliseconds; `Truncate` to the minute, then one minute on. */
  function FirstCandidate(from: int): int { from / 60000 + 1 }

  /** `r` is the answer a minute-by-minute scan with no limit would give. */
  ghost predicate IsFirstMatch(f: CronFields, start: int, r: Option<int>) {
    SkipSearch.IsFirst(HourTest(f), MinuteTest(f), start, r)
  }

  /** The next run: the answer of the unlimited scan, which exists and is unique. */
  ghost function NextRun(f: CronFields, from: int): Option<int> {
    SearchIsFirstMatch(f, FirstCandidate(from), MAX_ITER);
    var r :| IsFirstMatch(f, FirstCandidate(from), r);
    r
  }

  /** The loop body: accept minute `t`, or move on from it. */
  method TryMinute(f: CronFields, t: int) returns (hit: bool, next: int)
    ensures hit == Matches(f, t)
    ensures !hit ==> next == Skip(f, t)
  {
    var day := DayOf(t);
    var date := ReadDate(day);
    if date.month !in f.month {
      GoDateNextMonth(t);
      return false, GoDate(date.year, date.month + 1, 1, 0);
    }
    var domWild := |f.dayOfMonth| == 31;
    var dowWild := |f.dayOfWeek| == 7;
    var dow := Weekday(day);
    var dayMatches := true;
    if domWild && dowWild {
    } else if domWild {
      dayMatches := dow in f.dayOfWeek;
    } else if dowWild {
      dayMatches := date.day in f.dayOfMonth;
    } else {
      dayMatches := date.day in f.dayOfMonth || dow in f.dayOfWeek;
    }
    if !dayMatches {
      GoDateNextDay(t);
      return false, GoDate(date.year, date.month, date.day + 1, 0);
    }
    if HourAt(t) !in f.hour {
      GoDateNextHour(t);
      date := ReadDate(DayOf(t + 60));
      return false, GoDate(date.year, date.month, date.day, HourAt(t + 60));
    }
    if MinuteAt(t) !in f.minute {
      return false, t + 1;
    }
    return true, t;
  }

  method ComputeNextCronRun(f: CronFields, from: int) returns (r: Option<int>)
    ensures r == NextRun(f, from)
  {
    var t := from / 60000 + 1;
    SearchIsNextRun(f, from, MAX_ITER);
    for i := 0 to MAX_ITER
      invariant NextRun(f, from) == Search(f, t, MAX_ITER - i)
    {
      SearchUnfolds(f, t, MAX_ITER - i);
      var hit, next := TryMinute(f, t);
      if hit {
        return Some(t);
      }
      t := next;
    }
    return None;
  }

  lemma SearchUnfolds(f: CronFields, t: int, steps: nat)
    requires steps > 0
    ensures Search(f, t, steps) == if Matches(f, t) then Some(t) else Search(f, Skip(f, t), steps - 1)
  {
  }

  // ---- Soundness: no skip passes over a match ----

  lemma WrongMonth(f: CronFields, t: int)
    requires MonthAt(t) !in f.month
    ensures SkipSearch.GoodSkip(HourTest(f), MinuteTest(f), SkipRule(f), t)
  {
    var n := DayOf(t);
    DayAfterMonthIsLater(n);
    forall h | HourIndex(t) <= h < DayAfterMonth(n) * 24
      ensures !HourTest(f)(h)
    {
      SameMonth(n, h / 24);
    }
    SkipSearch.SkipOverHours(HourTest(f), MinuteTest(f), SkipRule(f), t, DayAfterMonth(n) * 24);
  }

  lemma WrongDay(f: CronFields, t: int)
    requires MonthAt(t) in f.month && !DayMatches(f, DayOf(t))
    ensures SkipSearch.GoodSkip(HourTest(f), MinuteTest(f), SkipRule(f), t)
  {
    var next := (DayOf(t) + 1) * 24;
    forall h | HourIndex(t) <= h < next
      ensures !HourTest(f)(h)
    {
      assert h / 24 == DayOf(t);
    }
    SkipSearch.SkipOverHours(HourTest(f), MinuteTest(f), SkipRule(f), t, next);
  }

  lemma WrongHour(f: CronFields, t: int)
    requires MonthAt(t) in f.month && DayMatches(f, DayOf(t)) && HourAt(t) !in f.hour
    ensures SkipSearch.GoodSkip(HourTest(f), MinuteTest(f), SkipRule(f), t)
  {
    assert !HourTest(f)(HourIndex(t));
    SkipSearch.SkipOverHours(HourTest(f), MinuteTest(f), SkipRule(f), t, HourIndex(t) + 1);
  }

  lemma WrongMinute(f: CronFields, t: int)
    requires HourMatches(f, HourIndex(t)) && MinuteAt(t) !in f.minute
    ensures SkipSearch.GoodSkip(HourTest(f), MinuteTest(f), SkipRule(f), t)
  {
    SkipSearch.SkipOneMinute(HourTest(f), MinuteTest(f), SkipRule(f), t);
  }

  lemma SearchIsSound(f: CronFields)
    ensures SkipSearch.Sound(HourTest(f), MinuteTest(f), SkipRule(f))
  {
    forall t | !SkipSearch.Accepts(HourTest(f), MinuteTest(f), t)
      ensures SkipSearch.GoodSkip(HourTest(f), MinuteTest(f), SkipRule(f), t)
    {
      if MonthAt(t) !in f.month {
        WrongMonth(f, t);
      } else if !DayMatches(f, DayOf(t)) {
        WrongDay(f, t);
      } else if HourAt(t) !in f.hour {
        WrongHour(f, t);
      } else {
        WrongMinute(f, t);
      }
    }
  }

  // ---- A match anywhere in the future implies one within nine years ----

  function NextLeap(y: int): (r: int)
    ensures IsLeap(r) && y < r <= y + 8
  {
    var r := y - y % 4 + 4;
    if IsLeap(r) then r else r + 4
  }

  /** A day of the next leap year on which everything matches that matched on `day`. */
  lemma MatchingDay(f: CronFields, day: int, y: int) returns (date: Date)
    requires DayMatches(f, day) && IsLeap(y)
    ensures ValidDate(date) && date.year == y && date.month == Civil(day).month
    ensures Civil(DayOfDate(date)) == date && DayMatches(f, DayOfDate(date))
  {
    var c := Civil(day);
    if (|f.dayOfMonth| == 31 && |f.dayOfWeek| == 7) || (|f.dayOfMonth| != 31 && c.day in f.dayOfMonth) {
      date := Date(y, c.month, c.day);
    } else {
      date := WeekdayDate(y, c.month, Weekday(day));
    }
    CivilUnique(date);
  }

  /** Every weekday falls into the first week of every month. */
  lemma WeekdayDate(y: int, m: int, w: int) returns (date: Date)
    requires 1 <= m <= 12 && 0 <= w < 7
    ensures ValidDate(date) && date.year == y && date.month == m && Weekday(DayOfDate(date)) == w
  {
    var first := DayOfDate(Date(y, m, 1));
    var k := (w - Weekday(first)) % 7;
    date := Date(y, m, 1 + k);
    assert DayOfDate(date) == first + k;
    WeekdayOffset(first + 4, w);
  }

  lemma WeekdayOffset(a: int, w: int)
    requires 0 <= w < 7
    ensures (a + (w - a % 7) % 7) % 7 == w
  {
  }

  lemma DaysAhead(c: Date, date: Date)
    requires ValidDate(c) && ValidDate(date) && c.year < date.year <= c.year + 8
    ensures DayOfDate(c) < DayOfDate(date) <= DayOfDate(c) + 9 * 366
  {
    EarlierYear(c, date);
    WithinYear(c);
    WithinYear(date);
    YearsMonotone(c.year, date.year + 1);
  }

  lemma NearMatch(f: CronFields, t: int, target: int) returns (near: int)
    requires Matches(f, target)
    ensures t <= near && Matches(f, near)
    ensures HourIndex(near) - HourIndex(t) <= 9 * 366 * 24 + 24
  {
    var date := MatchingDay(f, DayOf(target), NextLeap(YearAt(t)));
    var n := DayOfDate(date);
    near := MinuteOf(n, HourAt(target), MinuteAt(target));
    MinuteOfParts(n, HourAt(target), MinuteAt(target));
    DaysAhead(Civil(DayOf(t)), date);
    MinuteParts(t);
  }

  /** The budget is never what ends a search: 79200 hours lie in the nine years
      that hold a match if any later minute does. */
  lemma SearchComplete(f: CronFields, start: int, target: int, steps: nat)
    requires start <= target && Matches(f, target)
    requires steps >= 9 * 366 * 24 + 144
    ensures Search(f, start, steps).Some?
  {
    var near := NearMatch(f, start, target);
    SearchIsSound(f);
    SkipSearch.FindsTarget(HourTest(f), MinuteTest(f), SkipRule(f), start, near, steps);
  }

  lemma SearchIsFirstMatch(f: CronFields, start: int, steps: nat)
    requires steps >= 9 * 366 * 24 + 144
    ensures IsFirstMatch(f, start, Search(f, start, steps))
  {
    SearchIsSound(f);
    SkipSearch.SearchSound(HourTest(f), MinuteTest(f), SkipRule(f), start, steps);
    forall u | start <= u && Search(f, start, steps).None?
      ensures !SkipSearch.Accepts(HourTest(f), MinuteTest(f), u)
    {
      if Matches(f, u) {
        SearchComplete(f, start, u, steps);
      }
    }
  }

  /** The skipping search is the unbounded minute scan: what it returns is the
      first matching minute, and it returns nothing only when no minute ever matches. */
  lemma SearchIsNextRun(f: CronFields, from: int, steps: nat)
    requires steps >= MAX_ITER
    ensures Search(f, FirstCandidate(from), steps) == NextRun(f, from)
  {
    SearchIsFirstMatch(f, FirstCandidate(from), steps);
    NextRunIsFirstMatch(f, from);
  }

  lemma NextRunIsFirstMatch(f: CronFields, from: int)
    ensures IsFirstMatch(f, FirstCandidate(from), NextRun(f, from))
  {
    SearchIsFirstMatch(f, FirstCandidate(from), MAX_ITER);
  }

  // ---- The day rule ----

  ghost predicate Restricted(s: seq<int>, r: FieldRange) {
    exists v :: r.min <= v <= r.max && v !in s
  }

  /** For fields the parser can produce, the length tests are the standard's
      rule: both day fields must hold, except that when both are restricted
      either is enough. */
  lemma DayRule(f: CronFields, day: int)
    requires ValidFields(f)
    ensures var dom, dow := Civil(day).day in f.dayOfMonth, Weekday(day) in f.dayOfWeek;
            DayMatches(f, day) <==>
            if Restricted(f.dayOfMonth, DAYS_OF_MONTH) && Restricted(f.dayOfWeek, DAYS_OF_WEEK) then dom || dow
            else dom && dow
  {
    assert ValidList(Lists(f)[2], FIELD_RANGES[2]);
    assert ValidList(Lists(f)[4], FIELD_RANGES[4]);
    FullList(f.dayOfMonth, DAYS_OF_MONTH);
    FullList(f.dayOfWeek, DAYS_OF_WEEK);
  }

  predicate IsTime(date: Date, h: int, m: int) {
    ValidDate(date) && 0 <= h < 24 && 0 <= m < 60
  }

  function MinuteAtTime(date: Date, h: int, m: int): int
    requires IsTime(date, h, m)
  {
    MinuteOf(DayOfDate(date), h, m)
  }

  /** What a schedule means on a date: the month, the hour and the minute are listed,
      and of the day of the month and the weekday, by Zeller's congruence, both are,
      or either one if both are restricted. */
  ghost predicate OnSchedule(f: CronFields, date: Date, h: int, m: int) {
    var dom, dow := date.day in f.dayOfMonth, Zeller(date) in f.dayOfWeek;
    && date.month in f.month && h in f.hour && m in f.minute
    && if Restricted(f.dayOfMonth, DAYS_OF_MONTH) && Restricted(f.dayOfWeek, DAYS_OF_WEEK) then dom || dow
       else dom && dow
  }

  lemma MatchesDate(f: CronFields, date: Date, h: int, m: int)
    requires ValidFields(f) && IsTime(date, h, m)
    ensures Matches(f, MinuteAtTime(date, h, m)) <==> OnSchedule(f, date, h, m)
  {
    var n := DayOfDate(date);
    CivilUnique(date);
    MinuteOfParts(n, h, m);
    WeekdayIsZeller(date);
    DayRule(f, n);
  }

  /** Every minute is some time of some date. */
  lemma EveryMinuteHasDate(t: int) returns (date: Date, h: int, m: int)
    ensures IsTime(date, h, m) && t == MinuteAtTime(date, h, m)
  {
    date, h, m := Civil(DayOf(t)), HourAt(t), MinuteAt(t);
    MinuteParts(t);
  }

  predicate Within(start: int, end: Option<int>, t: int) {
    start <= t && (end.Some? ==> t < end.value)
  }

  /** No time from minute `start` on and before minute `end` is on the schedule. */
  ghost predicate NoneOnSchedule(f: CronFields, start: int, end: Option<int>) {
    forall date, h, m :: IsTime(date, h, m) && Within(start, end, MinuteAtTime(date, h, m)) ==>
                           !OnSchedule(f, date, h, m)
  }

  /** The next run in terms of dates alone: the first time on the schedule, or none is left. */
  lemma NextRunInDates(f: CronFields, from: int)
    requires ValidFields(f)
    ensures NoneOnSchedule(f, FirstCandidate(from), NextRun(f, from))
    ensures NextRun(f, from).Some? ==>
              var t := NextRun(f, from).value;
              FirstCandidate(from) <= t
              && exists date, h, m :: IsTime(date, h, m) && t == MinuteAtTime(date, h, m) && OnSchedule(f, date, h, m)
  {
    NextRunIsFirstMatch(f, from);
    var r := NextRun(f, from);
    forall date, h, m | IsTime(date, h, m) && Within(FirstCandidate(from), r, MinuteAtTime(date, h, m))
      ensures !OnSchedule(f, date, h, m)
    {
      MatchesDate(f, date, h, m);
    }
    if r.Some? {
      var date, h, m := EveryMinuteHasDate(r.value);
      MatchesDate(f, date, h, m);
    }
  }

  // ---- When a schedule never runs ----

  /** Some year has day `d` in month `m`. */
  predicate MonthHasDay(m: int, d: int) {
    1 <= m <= 12 && d <= DaysIn(2000, m)
  }

  /** The day fields ask for days of the month only, and no month named has any of them. */
  ghost predicate NamesNoDay(f: CronFields) {
    && |f.dayOfWeek| == 7 && |f.dayOfMonth| != 31
    && forall m, d :: m in f.month && d in f.dayOfMonth ==> !MonthHasDay(m, d)
  }

  lemma DayFieldsValid(f: CronFields)
    requires ValidFields(f)
    ensures f.month != [] && forall i :: 0 <= i < |f.month| ==> 1 <= f.month[i] <= 12
    ensures forall i :: 0 <= i < |f.dayOfMonth| ==> 1 <= f.dayOfMonth[i]
    ensures f.dayOfWeek != [] && forall i :: 0 <= i < |f.dayOfWeek| ==> 0 <= f.dayOfWeek[i] < 7
  {
    assert ValidList(Lists(f)[2], FIELD_RANGES[2]);
    assert ValidList(Lists(f)[3], FIELD_RANGES[3]);
    assert ValidList(Lists(f)[4], FIELD_RANGES[4]);
  }

  lemma MatchOn(f: CronFields, date: Date, start: int)
    requires ValidFields(f) && ValidDate(date) && YearAt(start) < date.year
    requires date.month in f.month && DayMatches(f, DayOfDate(date))
    ensures exists u :: start <= u && Matches(f, u)
  {
    assert ValidList(Lists(f)[0], FIELD_RANGES[0]);
    assert ValidList(Lists(f)[1], FIELD_RANGES[1]);
    var n, h, m := DayOfDate(date), f.hour[0], f.minute[0];
    EarlierYear(Civil(DayOf(start)), date);
    CivilUnique(date);
    MinuteOfParts(n, h, m);
    MinuteParts(start);
    assert start <= MinuteOf(n, h, m) && Matches(f, MinuteOf(n, h, m));
  }

  lemma NoDayNoMatch(f: CronFields, t: int)
    requires NamesNoDay(f)
    ensures !Matches(f, t)
  {
    var c := Civil(DayOf(t));
    assert MonthHasDay(c.month, c.day);
  }

  lemma SomeDayMatches(f: CronFields, y: int) returns (date: Date)
    requires ValidFields(f) && !NamesNoDay(f) && IsLeap(y)
    ensures ValidDate(date) && date.year == y
    ensures date.month in f.month && DayMatches(f, DayOfDate(date))
  {
    DayFieldsValid(f);
    if |f.dayOfWeek| != 7 {
      date := WeekdayDate(y, f.month[0], f.dayOfWeek[0]);
    } else if |f.dayOfMonth| == 31 {
      date := Date(y, f.month[0], 1);
    } else {
      var m, d :| m in f.month && d in f.dayOfMonth && MonthHasDay(m, d);
      date := Date(y, m, d);
    }
    CivilUnique(date);
  }

  /** Fields the parser can produce have no run exactly when they name only days
      that none of their months ever has, such as February 30. */
  lemma NoRunIff(f: CronFields, from: int)
    requires ValidFields(f)
    ensures NextRun(f, from).None? <==> NamesNoDay(f)
  {
    NextRunIsFirstMatch(f, from);
    var start := FirstCandidate(from);
    if NamesNoDay(f) {
      if NextRun(f, from).Some? {
        NoDayNoMatch(f, NextRun(f, from).value);
      }
    } else {
      var date := SomeDayMatches(f, NextLeap(YearAt(start)));
      MatchOn(f, date, start);
    }
  }

  // ---- How far ahead a next run can lie ----

  /** Midnight of February 29, whatever the weekday. */
  const LEAP_DAY := CronFields([0], [0], [29], [2], [0, 1, 2, 3, 4, 5, 6])

  lemma LeapDayIsValid()
    ensures ValidFields(LEAP_DAY)
  {
    assert Lists(LEAP_DAY) == [[0], [0], [29], [2], [0, 1, 2, 3, 4, 5, 6]];
  }

  lemma LeapDayMatches(u: int)
    ensures var c := Civil(DayOf(u));
            Matches(LEAP_DAY, u) <==> c.month == 2 && c.day == 29 && HourAt(u) == 0 && MinuteAt(u) == 0
  {
    assert 0 <= Weekday(DayOf(u)) < 7;
  }

  /** From March 1 of any year the next run is on February 29 of the next leap year. */
  lemma LeapDayRun(y: int, z: int)
    requires y < z && IsLeap(z) && forall x :: y < x < z ==> !IsLeap(x)
    ensures NextRun(LEAP_DAY, MinuteOf(DayNumber(y, 3, 1), 0, 0) * 60000) == Some(MinuteOf(DayNumber(z, 2, 29), 0, 0))
  {
    var first, last := MinuteOf(DayNumber(y, 3, 1), 0, 0), MinuteOf(DayNumber(z, 2, 29), 0, 0);
    assert FirstCandidate(first * 60000) == first + 1;
    CivilUnique(Date(z, 2, 29));
    MinuteOfParts(DayNumber(z, 2, 29), 0, 0);
    LeapDayMatches(last);
    EarlierYear(Date(y, 3, 1), Date(z, 2, 29));
    forall u | first < u < last
      ensures !Matches(LEAP_DAY, u)
    {
      if Matches(LEAP_DAY, u) {
        LeapDayBetween(y, z, u);
        assert false;
      }
    }
    assert first < last && Matches(LEAP_DAY, last);
    NextRunIsFirstMatch(LEAP_DAY, first * 60000);
    FirstIsUnique(LEAP_DAY, first + 1, NextRun(LEAP_DAY, first * 60000), last);
  }

  lemma FirstIsUnique(f: CronFields, start: int, r: Option<int>, t: int)
    requires IsFirstMatch(f, start, r) && start <= t && Matches(f, t) && forall u :: start <= u < t ==> !Matches(f, u)
    ensures r == Some(t)
  {
    if r.Some? {
      assert Matches(f, r.value);
    }
  }

  lemma LeapDayBetween(y: int, z: int, u: int)
    requires Matches(LEAP_DAY, u) && IsLeap(z)
    requires MinuteOf(DayNumber(y, 3, 1), 0, 0) < u < MinuteOf(DayNumber(z, 2, 29), 0, 0)
    ensures exists x :: y < x < z && IsLeap(x)
  {
    LeapDayMatches(u);
    var c := Civil(DayOf(u));
    MinuteParts(u);
    if c.year < y {
      EarlierYear(c, Date(y, 3, 1));
    } else if c.year == y {
      EarlierMonth(c, Date(y, 3, 1));
    }
    if z < c.year {
      EarlierYear(Date(z, 2, 29), c);
    }
    assert IsLeap(c.year);
  }

  /** So it can lie more than 366 days ahead: with no leap year among the next two it
      lies more than a thousand. */
  lemma NextRunYearsAhead(y: int, z: int)
    requires !IsLeap(y + 1) && !IsLeap(y + 2)
    requires y < z && IsLeap(z) && forall x :: y < x < z ==> !IsLeap(x)
    ensures var from := MinuteOf(DayNumber(y, 3, 1), 0, 0);
            var r := NextRun(LEAP_DAY, from * 60000);
            r.Some? && r.value > from + 1000 * 24 * 60
  {
    LeapDayRun(y, z);
    YearsMonotone(y, z);
    MonthTable(y);
    assert z >= y + 3;
  }

  /** Around a century year that is no leap year, from March 2096 for instance, it lies
      2920 days ahead. */
  lemma NextRunEightYearsAhead(y: int)
    requires IsLeap(y) && !IsLeap(y + 4) && IsLeap(y + 8)
    ensures var from := MinuteOf(DayNumber(y, 3, 1), 0, 0);
            NextRun(LEAP_DAY, from * 60000) == Some(from + 2920 * 24 * 60)
  {
    LeapsAround(y);
    LeapDayRun(y, y + 8);
    EightYears(y);
  }

  lemma LeapsAround(y: int)
    requires IsLeap(y) && !IsLeap(y + 4)
    ensures y % 4 == 0 && forall x :: y < x < y + 8 ==> !IsLeap(x)
  {
    forall x | y < x < y + 8
      ensures !IsLeap(x)
    {
      if x != y + 4 {
        NoFourthYear(y, x);
      }
    }
  }

  lemma NoFourthYear(y: int, x: int)
    requires y % 4 == 0 && y < x < y + 8 && x != y + 4
    ensures !IsLeap(x)
  {
    assert x % 4 != 0;
  }

  lemma EightYears(y: int)
    requires y % 4 == 0 && IsLeap(y) && !IsLeap(y + 4) && IsLeap(y + 8)
    ensures DayNumber(y + 8, 2, 29) == DayNumber(y, 3, 1) + 2920
  {
    FourYears(y);
    FourYears(y + 4);
  }

  lemma FourYears(y: int)
    requires y % 4 == 0
    ensures DaysBeforeYear(y + 4) == DaysBeforeYear(y) + YearDays(y) + 3 * 365
  {
    YearLength(y);
    CommonYear(y + 1);
    CommonYear(y + 2);
    CommonYear(y + 3);
  }

  lemma CommonYear(y: int)
    requires y % 4 != 0
    ensures DaysBeforeYear(y + 1) == DaysBeforeYear(y) + 365
  {
    YearLength(y);
  }
}
