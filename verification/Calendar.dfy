/** The proleptic Gregorian calendar behind Go's `time.Time`, on integers.

    A local time is a number of minutes since 1970-01-01 00:00 at a fixed
    offset from UTC; a day is a number of days since that date.  `Civil` reads
    a day number as a date, `DayNumber` is the normalising direction that
    `time.Date` computes (month 13 is January of the next year, day 32 runs on
    into the next month), and the two are proved inverse to each other. */
module Calendar {
  import opened Division

  datatype Date = Date(year: int, month: int, day: int)

  predicate IsLeap(y: int) {
    y % 4 == 0 && (y % 100 != 0 || y % 400 == 0)
  }

  function DaysIn(y: int, m: int): int
    requires 1 <= m <= 12
  {
    if m == 2 then (if IsLeap(y) then 29 else 28)
    else if m == 4 || m == 6 || m == 9 || m == 11 then 30
    else 31
  }

  predicate ValidDate(date: Date) {
    1 <= date.month <= 12 && 1 <= date.day <= DaysIn(date.year, date.month)
  }

  function YearDays(y: int): int {
    if IsLeap(y) then 366 else 365
  }

  /** Days from 1970-01-01 to January 1 of year `y`. */
  function DaysBeforeYear(y: int): int
    decreases if y < 1970 then 1970 - y else y - 1970
  {
    if y == 1970 then 0
    else if y > 1970 then DaysBeforeYear(y - 1) + YearDays(y - 1)
    else DaysBeforeYear(y + 1) - YearDays(y)
  }

  /** Days of year `y` before month `m`; month 13 stands for the year's end. */
  function DaysBeforeMonth(y: int, m: int): int
    requires 1 <= m <= 13
    decreases m
  {
    if m == 1 then 0 else DaysBeforeMonth(y, m - 1) + DaysIn(y, m - 1)
  }

  /** `time.Date` with its overflow rules: month 13 and any day are accepted. */
  function DayNumber(y: int, m: int, d: int): int
    requires 1 <= m <= 13
  {
    if m == 13 then DaysBeforeYear(y + 1) + d - 1
    else DaysBeforeYear(y) + DaysBeforeMonth(y, m) + d - 1
  }

  lemma YearLength(y: int)
    ensures DaysBeforeYear(y + 1) == DaysBeforeYear(y) + YearDays(y)
    ensures DaysBeforeMonth(y, 13) == YearDays(y)
  {
    MonthTable(y);
  }

  lemma MonthTable(y: int)
    ensures var f := DaysIn(y, 2);
            && DaysBeforeMonth(y, 7) == 153 + f
            && DaysBeforeMonth(y, 13) == 337 + f
  {
    assert DaysBeforeMonth(y, 3) == 31 + DaysIn(y, 2);
    assert DaysBeforeMonth(y, 5) == DaysBeforeMonth(y, 3) + 61;
    assert DaysBeforeMonth(y, 7) == DaysBeforeMonth(y, 5) + 61;
    assert DaysBeforeMonth(y, 9) == DaysBeforeMonth(y, 7) + 62;
    assert DaysBeforeMonth(y, 11) == DaysBeforeMonth(y, 9) + 61;
    assert DaysBeforeMonth(y, 13) == DaysBeforeMonth(y, 11) + 61;
  }

  lemma {:induction false} YearsMonotone(y: int, z: int)
    requires y <= z
    ensures DaysBeforeYear(y) + 365 * (z - y) <= DaysBeforeYear(z) <= DaysBeforeYear(y) + 366 * (z - y)
    decreases z - y
  {
    if y < z {
      YearLength(y);
      YearsMonotone(y + 1, z);
    }
  }

  lemma {:induction false} MonthsMonotone(y: int, m: int, k: int)
    requires 1 <= m <= k <= 13
    ensures DaysBeforeMonth(y, m) <= DaysBeforeMonth(y, k)
    decreases k
  {
    if m < k {
      MonthsMonotone(y, m, k - 1);
    }
  }

  /** The year holding day `n`, searched for from year `y`. */
  function FindYear(n: int, y: int): (r: int)
    ensures DaysBeforeYear(r) <= n < DaysBeforeYear(r + 1)
    decreases if n < DaysBeforeYear(y) then DaysBeforeYear(y) - n
              else if n >= DaysBeforeYear(y + 1) then n - DaysBeforeYear(y) else 0
  {
    YearLength(y);
    if n < DaysBeforeYear(y) then
      YearLength(y - 1);
      FindYear(n, y - 1)
    else if n >= DaysBeforeYear(y + 1) then
      YearLength(y + 1);
      FindYear(n, y + 1)
    else y
  }

  /** The month holding day `k` (counted from 0) of year `y`, searched for upward from `m`. */
  function FindMonth(y: int, k: int, m: int): (r: int)
    requires 1 <= m <= 12
    requires DaysBeforeMonth(y, m) <= k < DaysBeforeMonth(y, 13)
    ensures m <= r <= 12
    ensures DaysBeforeMonth(y, r) <= k < DaysBeforeMonth(y, r + 1)
    decreases 13 - m
  {
    if k < DaysBeforeMonth(y, m + 1) then m else FindMonth(y, k, m + 1)
  }

  function DayOfDate(date: Date): int
    requires 1 <= date.month <= 12
  {
    DayNumber(date.year, date.month, date.day)
  }

  lemma EarlierYear(c: Date, date: Date)
    requires ValidDate(c) && ValidDate(date) && c.year < date.year
    ensures DayOfDate(c) < DayOfDate(date)
  {
    WithinYear(c);
    WithinYear(date);
    YearsMonotone(c.year + 1, date.year);
  }

  lemma EarlierMonth(c: Date, date: Date)
    requires ValidDate(c) && ValidDate(date) && c.year == date.year && c.month < date.month
    ensures DayOfDate(c) < DayOfDate(date)
  {
    assert DayOfDate(c) < DaysBeforeYear(c.year) + DaysBeforeMonth(c.year, c.month + 1) by { WithinYear(c); }
    assert DayOfDate(date) >= DaysBeforeYear(c.year) + DaysBeforeMonth(c.year, date.month) by { WithinYear(date); }
    MonthsMonotone(c.year, c.month + 1, date.month);
  }

  lemma DatesDiffer(c: Date, date: Date)
    requires ValidDate(c) && ValidDate(date) && c != date
    ensures DayOfDate(c) != DayOfDate(date)
  {
    if c.year < date.year {
      EarlierYear(c, date);
    } else if date.year < c.year {
      EarlierYear(date, c);
    } else if c.month < date.month {
      EarlierMonth(c, date);
    } else if date.month < c.month {
      EarlierMonth(date, c);
    }
  }

  /** The date of day `n`, found by looking up its year and then its month. */
  function DateOfDay(n: int): (date: Date)
    ensures ValidDate(date) && DayOfDate(date) == n
  {
    var y := FindYear(n, 1970);
    YearLength(y);
    var k := n - DaysBeforeYear(y);
    var m := FindMonth(y, k, 1);
    Date(y, m, k - DaysBeforeMonth(y, m) + 1)
  }

  /** The date of day `n`: the one valid date that `DayNumber` maps to `n`. */
  ghost function Civil(n: int): (date: Date)
    ensures ValidDate(date) && DayOfDate(date) == n
  {
    DateExists(n);
    var date :| ValidDate(date) && DayOfDate(date) == n;
    date
  }

  lemma DateExists(n: int)
    ensures exists date :: ValidDate(date) && DayOfDate(date) == n
  {
    var date := DateOfDay(n);
  }

  lemma CivilUnique(date: Date)
    requires ValidDate(date)
    ensures Civil(DayOfDate(date)) == date
  {
    if Civil(DayOfDate(date)) != date {
      DatesDiffer(Civil(DayOfDate(date)), date);
    }
  }

  method ReadDate(n: int) returns (date: Date)
    ensures date == Civil(n)
  {
    date := DateOfDay(n);
    CivilUnique(date);
  }

  lemma WithinYear(date: Date)
    requires ValidDate(date)
    ensures DayNumber(date.year, date.month, date.day)
         == DaysBeforeYear(date.year) + DaysBeforeMonth(date.year, date.month) + date.day - 1
    ensures DaysBeforeYear(date.year) <= DayNumber(date.year, date.month, date.day) < DaysBeforeYear(date.year + 1)
  {
    YearLength(date.year);
    MonthsMonotone(date.year, 1, date.month);
    MonthsMonotone(date.year, date.month + 1, 13);
  }

  // ---- Minutes ----

  function HourIndex(t: int): int { t / 60 }
  function DayOf(t: int): int { HourIndex(t) / 24 }
  ghost function YearAt(t: int): int { Civil(DayOf(t)).year }
  ghost function MonthAt(t: int): int { Civil(DayOf(t)).month }

  /** 0 is Sunday; day 0, 1970-01-01, was a Thursday. */
  function Weekday(day: int): int { (day + 4) % 7 }
  function HourAt(t: int): int { HourIndex(t) % 24 }
  function MinuteAt(t: int): int { t % 60 }

  /** The minute `m` of hour `h` of day `n`. */
  function MinuteOf(n: int, h: int, m: int): int { (n * 24 + h) * 60 + m }

  /** `time.Date(y, m, d, h, 0, 0, 0, loc)` with its normalisation of `m` and `d`. */
  function GoDate(y: int, m: int, d: int, h: int): int
    requires 1 <= m <= 13
  {
    MinuteOf(DayNumber(y, m, d), h, 0)
  }

  /** The first day after the month of day `n`. */
  ghost function DayAfterMonth(n: int): int {
    n + DaysIn(Civil(n).year, Civil(n).month) - Civil(n).day + 1
  }

  ghost function StartOfNextMonth(t: int): int { MinuteOf(DayAfterMonth(DayOf(t)), 0, 0) }
  function StartOfNextDay(t: int): int { MinuteOf(DayOf(t) + 1, 0, 0) }
  function StartOfNextHour(t: int): int { (HourIndex(t) + 1) * 60 }

  lemma MinuteParts(t: int)
    ensures t == MinuteOf(DayOf(t), HourAt(t), MinuteAt(t))
    ensures 0 <= HourAt(t) < 24 && 0 <= MinuteAt(t) < 60
  {
  }

  lemma MinuteOfParts(n: int, h: int, m: int)
    requires 0 <= h < 24 && 0 <= m < 60
    ensures var t := MinuteOf(n, h, m);
            HourIndex(t) == n * 24 + h && DayOf(t) == n && HourAt(t) == h && MinuteAt(t) == m
  {
  }

  /** `time.Date(y, m + 1, 1, ...)` is the first minute of the next month, December included. */
  lemma GoDateNextMonth(t: int)
    ensures var c := Civil(DayOf(t)); GoDate(c.year, c.month + 1, 1, 0) == StartOfNextMonth(t)
  {
    var c := Civil(DayOf(t));
    if c.month == 12 {
      YearLength(c.year);
    }
  }

  /** `time.Date(y, m, d + 1, ...)` is the next midnight, the last day of a month included. */
  lemma GoDateNextDay(t: int)
    ensures var c := Civil(DayOf(t)); GoDate(c.year, c.month, c.day + 1, 0) == StartOfNextDay(t)
  {
    var c := Civil(DayOf(t));
    assert DayNumber(c.year, c.month, c.day + 1) == DayOfDate(c) + 1;
  }

  /** One hour on, cut back to the whole hour. */
  lemma GoDateNextHour(t: int)
    ensures var c := Civil(DayOf(t + 60)); GoDate(c.year, c.month, c.day, HourAt(t + 60)) == StartOfNextHour(t)
  {
    var c := Civil(DayOf(t + 60));
    assert DayNumber(c.year, c.month, c.day) == DayOf(t + 60);
    assert HourIndex(t + 60) == HourIndex(t) + 1;
  }

  lemma LaterInMonth(c: Date, k: int)
    requires ValidDate(c) && 0 <= k <= DaysIn(c.year, c.month) - c.day
    ensures Civil(DayOfDate(c) + k) == Date(c.year, c.month, c.day + k)
  {
    var later := Date(c.year, c.month, c.day + k);
    assert DayOfDate(later) == DayOfDate(c) + k;
    CivilUnique(later);
  }

  /** Up to the first of the next month every day has the same month. */
  lemma SameMonth(n: int, k: int)
    requires n <= k < DayAfterMonth(n)
    ensures Civil(k).month == Civil(n).month
  {
    LaterInMonth(Civil(n), k - n);
  }

  lemma DayAfterMonthIsLater(n: int)
    ensures n < DayAfterMonth(n)
  {
  }

  // ---- Day numbers and weekdays in closed form ----

  /** Days from January 1 of year 1 to January 1 of year `y`. */
  function DaysOfYears(y: int): int {
    365 * (y - 1) + (y - 1) / 4 - (y - 1) / 100 + (y - 1) / 400
  }

  lemma LeapDayCounted(y: int)
    ensures DaysOfYears(y + 1) == DaysOfYears(y) + YearDays(y)
  {
    QuotientSteps(y - 1, 4);
    QuotientSteps(y - 1, 100);
    QuotientSteps(y - 1, 400);
  }

  lemma {:induction false} YearsClosed(y: int)
    ensures DaysBeforeYear(y) == DaysOfYears(y) - 719162
    decreases if y < 1970 then 1970 - y else y - 1970
  {
    if y > 1970 {
      YearsClosed(y - 1);
      LeapDayCounted(y - 1);
    } else if y < 1970 {
      YearsClosed(y + 1);
      LeapDayCounted(y);
    }
  }

  /** The year that a date belongs to when years begin in March, and its month in that year. */
  function MarchYear(date: Date): int { if date.month <= 2 then date.year - 1 else date.year }
  function MarchMonth(date: Date): int { if date.month <= 2 then date.month + 9 else date.month - 3 }

  lemma MonthsClosed(date: Date)
    requires ValidDate(date)
    ensures DaysBeforeMonth(date.year, date.month) ==
            if date.month <= 2 then (153 * MarchMonth(date) + 2) / 5 - 306
            else (153 * MarchMonth(date) + 2) / 5 + 31 + DaysIn(date.year, 2)
  {
    MonthTable(date.year);
    MonthsBefore(date.year);
  }

  lemma MonthsBefore(y: int)
    ensures DaysBeforeMonth(y, 1) == 0 && DaysBeforeMonth(y, 2) == 31
    ensures DaysBeforeMonth(y, 3) == 31 + DaysIn(y, 2)
    ensures DaysBeforeMonth(y, 4) == 62 + DaysIn(y, 2)
    ensures DaysBeforeMonth(y, 5) == 92 + DaysIn(y, 2)
    ensures DaysBeforeMonth(y, 6) == 123 + DaysIn(y, 2)
    ensures DaysBeforeMonth(y, 7) == 153 + DaysIn(y, 2)
    ensures DaysBeforeMonth(y, 8) == 184 + DaysIn(y, 2)
    ensures DaysBeforeMonth(y, 9) == 215 + DaysIn(y, 2)
    ensures DaysBeforeMonth(y, 10) == 245 + DaysIn(y, 2)
    ensures DaysBeforeMonth(y, 11) == 276 + DaysIn(y, 2)
    ensures DaysBeforeMonth(y, 12) == 306 + DaysIn(y, 2)
  {
    assert DaysBeforeMonth(y, 2) == 31;
    assert DaysBeforeMonth(y, 4) == DaysBeforeMonth(y, 2) + DaysIn(y, 2) + 31;
    assert DaysBeforeMonth(y, 6) == DaysBeforeMonth(y, 4) + 61;
    assert DaysBeforeMonth(y, 8) == DaysBeforeMonth(y, 6) + 61;
    assert DaysBeforeMonth(y, 10) == DaysBeforeMonth(y, 8) + 61;
    assert DaysBeforeMonth(y, 12) == DaysBeforeMonth(y, 10) + 61;
  }

  /** The day number of every valid date in one formula, without tables or recursion. */
  lemma DayNumberClosed(date: Date)
    requires ValidDate(date)
    ensures var y, m := MarchYear(date), MarchMonth(date);
            DayOfDate(date) == 365 * y + y / 4 - y / 100 + y / 400 + (153 * m + 2) / 5 + date.day - 719469
  {
    MonthsClosed(date);
    YearsClosed(date.year);
    if date.month > 2 {
      LeapDayCounted(date.year);
    }
  }

  /** Zeller's congruence, with 0 for Sunday. */
  function Zeller(date: Date): int {
    var (y, m) := if date.month <= 2 then (date.year - 1, date.month + 12) else (date.year, date.month);
    (date.day + 13 * (m + 1) / 5 + y + y / 4 - y / 100 + y / 400 + 6) % 7
  }

  /** The weekday of every valid date is the one Zeller's congruence gives. */
  lemma WeekdayIsZeller(date: Date)
    requires ValidDate(date)
    ensures Weekday(DayOfDate(date)) == Zeller(date)
  {
    DayNumberClosed(date);
    var y, m := MarchYear(date), MarchMonth(date);
    var leaps := y / 4 - y / 100 + y / 400;
    var sum := date.day + 13 * (m + 4) / 5 + y + leaps + 6;
    assert (153 * m + 2) / 5 == 28 * m + 13 * (m + 4) / 5 - 10;
    assert DayOfDate(date) + 4 == sum + 7 * (52 * y + 4 * m - 102783);
    SameRemainder(sum, 7, 52 * y + 4 * m - 102783);
  }

  /** April 4, June 6, August 8, October 10 and December 12 of any year share a weekday. */
  lemma Doomsday(y: int)
    ensures var w := (2 + y + y / 4 - y / 100 + y / 400) % 7;
            && Weekday(DayNumber(y, 4, 4)) == w && Weekday(DayNumber(y, 6, 6)) == w
            && Weekday(DayNumber(y, 8, 8)) == w && Weekday(DayNumber(y, 10, 10)) == w
            && Weekday(DayNumber(y, 12, 12)) == w
  {
    DoomsdayIn(y, 4, 3);
    DoomsdayIn(y, 6, 4);
    DoomsdayIn(y, 8, 5);
    DoomsdayIn(y, 10, 6);
    DoomsdayIn(y, 12, 7);
  }

  lemma DoomsdayIn(y: int, m: int, k: int)
    requires 2 < m <= 12 && m <= DaysIn(y, m) && m + 13 * (m + 1) / 5 + 6 == 2 + 7 * k
    ensures Weekday(DayNumber(y, m, m)) == (2 + y + y / 4 - y / 100 + y / 400) % 7
  {
    WeekdayIsZeller(Date(y, m, m));
    SameRemainder(2 + y + y / 4 - y / 100 + y / 400, 7, k);
  }
}
