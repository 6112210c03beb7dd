// The civil-calendar arithmetic of obix.Abstime: the leap-year rule with its
// 1582 cut-over, month lengths, and the day, month, year and weekday steppers,
// applied to the (year, month, day, hour, minute, second, millisecond) record
// that the Java code assembles before handing it to the calendar constructor.

module CivilCalendar {
  import opened Wrappers

  /** A civil date and time of day, months and days counted from 1. */
  datatype Civil = Civil(year: int, month: int, day: int,
                         hour: int, minute: int, second: int, millisecond: int)

  /** Java's `daysInMonth` table, January first. */
  const MonthTable: seq<int> := [31, 28, 31, 30, 31, 30, 31, 31, 30, 31, 30, 31]

  const MonthRangeMessage: string := "Month must be 1 to 12"

  /**
   * Gregorian rule from 1582 on, Julian rule before. Java's `%` truncates,
   * but a remainder of zero means the same under either convention.
   */
  predicate IsLeapYear(year: int)
  {
    if year >= 1582 then year % 4 == 0 && (year % 100 != 0 || year % 400 == 0)
    else year % 4 == 0
  }

  /** `checkMonth`: throws IllegalArgumentException unless 1 <= month <= 12. */
  function CheckMonth(month: int): (r: Result<int, string>)
    ensures r.Success? <==> 1 <= month <= 12
    ensures r.Success? ==> r.value == month
    ensures r.Failure? ==> r.error == MonthRangeMessage
  {
    if month < 1 || month > 12 then Failure(MonthRangeMessage) else Success(month)
  }

  /** The length of a month once `checkMonth` has accepted it. */
  function MonthLength(year: int, month: int): (n: int)
    requires 1 <= month <= 12
    ensures 28 <= n <= 31
  {
    if month == 2 then (if IsLeapYear(year) then 29 else 28) else MonthTable[month - 1]
  }

  /** `getDaysInMonth`: the month check, then the length. */
  function DaysInMonth(year: int, month: int): (r: Result<int, string>)
    ensures r.Failure? <==> (month < 1 || 12 < month)
    ensures r.Failure? ==> r.error == MonthRangeMessage
    ensures r.Success? ==> 28 <= r.value <= 31
    ensures r.Success? && month == 2 ==> (r.value == 29 <==> IsLeapYear(year))
    ensures r.Success? && month != 2 ==> r.value == MonthTable[month - 1]
  {
    match CheckMonth(month)
    case Failure(e) => Failure(e)
    case Success(m) => Success(MonthLength(year, m))
  }

  /** `getDaysInYear`. */
  function DaysInYear(year: int): (n: int)
    ensures n == 365 || n == 366
  {
    if IsLeapYear(year) then 366 else 365
  }

  /** `isLeapDay`: February 29. */
  predicate IsLeapDay(d: Civil)
  {
    d.month == 2 && d.day == 29
  }

  /** A date the calendar would accept without normalising it. */
  predicate ValidDate(d: Civil)
  {
    1 <= d.month <= 12 && 1 <= d.day <= MonthLength(d.year, d.month)
  }

  predicate SameTimeOfDay(a: Civil, b: Civil)
  {
    a.hour == b.hour && a.minute == b.minute && a.second == b.second && a.millisecond == b.millisecond
  }

  // ---------------------------------------------------------------------------
  // Day numbers: a running count of days, the reference the steppers are
  // checked against. Day 0 is 1 January 1970, the Java epoch.
  // ---------------------------------------------------------------------------

  /** Days in the months of `year` before `month`. */
  function DaysBeforeMonth(year: int, month: int): int
    requires 1 <= month <= 13
    decreases month
  {
    if month == 1 then 0 else DaysBeforeMonth(year, month - 1) + MonthLength(year, month - 1)
  }

  /** Day number of 1 January of `year`. */
  function YearStart(year: int): int
    decreases if year < 1970 then 1970 - year else year - 1970
  {
    if year == 1970 then 0
    else if year > 1970 then YearStart(year - 1) + DaysInYear(year - 1)
    else YearStart(year + 1) - DaysInYear(year)
  }

  function DayNumber(d: Civil): int
    requires 1 <= d.month <= 12
  {
    YearStart(d.year) + DaysBeforeMonth(d.year, d.month) + d.day - 1
  }

  /** Months counted continuously across years. */
  function MonthNumber(d: Civil): int
  {
    12 * d.year + d.month - 1
  }

  // ---------------------------------------------------------------------------
  // The steppers: the date `nextDay` ... `prevYear` compute before calling the
  // constructor. The time of day is carried over unchanged.
  // ---------------------------------------------------------------------------

  function NextDay(d: Civil): (r: Civil)
    requires 1 <= d.month <= 12
    ensures 1 <= r.month <= 12 && SameTimeOfDay(r, d)
  {
    if d.day == MonthLength(d.year, d.month) then
      if d.month == 12 then d.(year := d.year + 1, month := 1, day := 1)
      else d.(month := d.month + 1, day := 1)
    else d.(day := d.day + 1)
  }

  function PrevDay(d: Civil): (r: Civil)
    requires 1 <= d.month <= 12
    ensures 1 <= r.month <= 12 && SameTimeOfDay(r, d)
  {
    if d.day == 1 then
      if d.month == 1 then d.(year := d.year - 1, month := 12, day := MonthLength(d.year - 1, 12))
      else d.(month := d.month - 1, day := MonthLength(d.year, d.month - 1))
    else d.(day := d.day - 1)
  }

  function NextMonth(d: Civil): (r: Civil)
    requires 1 <= d.month <= 12
    ensures 1 <= r.month <= 12 && SameTimeOfDay(r, d)
  {
    if d.month == 12 then
      // December and January both have 31 days: no capping
      d.(year := d.year + 1, month := 1)
    else if d.day == MonthLength(d.year, d.month) then
      d.(month := d.month + 1, day := MonthLength(d.year, d.month + 1))
    else
      var last := MonthLength(d.year, d.month + 1);
      d.(month := d.month + 1, day := if d.day > last then last else d.day)
  }

  function PrevMonth(d: Civil): (r: Civil)
    requires 1 <= d.month <= 12
    ensures 1 <= r.month <= 12 && SameTimeOfDay(r, d)
  {
    if d.month == 1 then
      d.(year := d.year - 1, month := 12)
    else if d.day == MonthLength(d.year, d.month) then
      d.(month := d.month - 1, day := MonthLength(d.year, d.month - 1))
    else
      var last := MonthLength(d.year, d.month - 1);
      d.(month := d.month - 1, day := if d.day > last then last else d.day)
  }

  function NextYear(d: Civil): (r: Civil)
    ensures SameTimeOfDay(r, d) && r.month == d.month
  {
    d.(year := d.year + 1, day := if IsLeapDay(d) then 28 else d.day)
  }

  function PrevYear(d: Civil): (r: Civil)
    ensures SameTimeOfDay(r, d) && r.month == d.month
  {
    d.(year := d.year - 1, day := if IsLeapDay(d) then 28 else d.day)
  }

  // ---------------------------------------------------------------------------
  // Weekdays. The calendar reports a weekday for each day, counting Sunday as
  // 0. The weekday search rests on one assumption about it: each day's
  // weekday is one more, modulo 7, than the previous day's.
  // ---------------------------------------------------------------------------

  /**
   * The weekday `k` days after (for negative `k`, before) a day whose
   * weekday is `wd0`, under that assumption.
   */
  function WeekdayAfter(wd0: int, k: int): (w: int)
    ensures 0 <= w < 7
    ensures 0 <= wd0 < 7 ==> (w == wd0 <==> k % 7 == 0)
  {
    (wd0 + k) % 7
  }

  /** Milliseconds into the day (`getTimeOfDayMillis`). */
  function TimeOfDayMillis(hour: int, minute: int, second: int, millisecond: int): int
  {
    hour * 3_600_000 + minute * 60_000 + second * 1000 + millisecond
  }

  // ---------------------------------------------------------------------------
  // Month, year and leap-year facts
  // ---------------------------------------------------------------------------

  /**
   * The leap-year rule repeats every 400 years from 1582 on and every 4
   * years before it; a leap year is always a multiple of 4, and from 1582
   * on a century year is leap exactly when it is a multiple of 400.
   */
  lemma LeapYearPeriods(year: int)
    ensures IsLeapYear(year) ==> year % 4 == 0
    ensures year >= 1582 ==> (IsLeapYear(year) <==> IsLeapYear(year + 400))
    ensures year + 4 < 1582 ==> (IsLeapYear(year) <==> IsLeapYear(year + 4))
    ensures year >= 1582 && year % 100 == 0 ==> (IsLeapYear(year) <==> year % 400 == 0)
  {
    assert (year + 400) % 4 == year % 4 && (year + 400) % 100 == year % 100 && (year + 400) % 400 == year % 400;
    assert (year + 4) % 4 == year % 4;
  }

  /** The leap-year rule on sample years on both sides of the cut-over. */
  lemma LeapYearSamples()
    ensures IsLeapYear(2000) && !IsLeapYear(1900) && IsLeapYear(1600) && IsLeapYear(2024)
    ensures IsLeapYear(1500) && IsLeapYear(1300) && !IsLeapYear(1583) && !IsLeapYear(2001)
  {
  }

  /** The month table, read as the rhyme: thirty days have April, June, September, November. */
  lemma {:induction false} MonthLengthCases(year: int, month: int)
    requires 1 <= month <= 12
    ensures month == 2 ==> MonthLength(year, month) == (if IsLeapYear(year) then 29 else 28)
    ensures MonthLength(year, month) == 30 <==> month in {4, 6, 9, 11}
    ensures MonthLength(year, month) == 31 <==> month in {1, 3, 5, 7, 8, 10, 12}
  {
  }

  /** A year's length is the sum of its months' lengths. */
  lemma {:induction false} YearIsTwelveMonths(year: int)
    ensures DaysBeforeMonth(year, 13) == DaysInYear(year)
    ensures DaysBeforeMonth(year, 12) + 31 == DaysInYear(year)
  {
    assert DaysBeforeMonth(year, 2) == 31;
    assert DaysBeforeMonth(year, 3) == 31 + MonthLength(year, 2);
    assert DaysBeforeMonth(year, 4) == 62 + MonthLength(year, 2);
    assert DaysBeforeMonth(year, 5) == 92 + MonthLength(year, 2);
    assert DaysBeforeMonth(year, 6) == 123 + MonthLength(year, 2);
    assert DaysBeforeMonth(year, 7) == 153 + MonthLength(year, 2);
    assert DaysBeforeMonth(year, 8) == 184 + MonthLength(year, 2);
    assert DaysBeforeMonth(year, 9) == 215 + MonthLength(year, 2);
    assert DaysBeforeMonth(year, 10) == 245 + MonthLength(year, 2);
    assert DaysBeforeMonth(year, 11) == 276 + MonthLength(year, 2);
    assert DaysBeforeMonth(year, 12) == 306 + MonthLength(year, 2);
  }

  lemma YearStartStep(year: int)
    ensures YearStart(year + 1) == YearStart(year) + DaysInYear(year)
  {
  }

  /** Day numbers of later years start after the whole of every earlier year. */
  lemma {:induction false} YearStartMonotone(a: int, b: int)
    requires a < b
    ensures YearStart(a) + DaysInYear(a) <= YearStart(b)
    decreases b - a
  {
    YearStartStep(a);
    if a + 1 < b {
      YearStartMonotone(a + 1, b);
      YearStartStep(a + 1);
    }
  }

  lemma {:induction false} DaysBeforeMonthMonotone(year: int, m1: int, m2: int)
    requires 1 <= m1 <= m2 <= 13
    ensures DaysBeforeMonth(year, m1) <= DaysBeforeMonth(year, m2)
    decreases m2 - m1
  {
    if m1 < m2 {
      DaysBeforeMonthMonotone(year, m1, m2 - 1);
    }
  }

  /** A valid date's day number lies inside its own year. */
  lemma {:induction false} DayNumberWithinYear(d: Civil)
    requires ValidDate(d)
    ensures YearStart(d.year) <= DayNumber(d) < YearStart(d.year) + DaysInYear(d.year)
  {
    DaysBeforeMonthMonotone(d.year, d.month + 1, 13);
    YearIsTwelveMonths(d.year);
  }

  /** Valid dates with the same day number lie in the same year. */
  lemma {:induction false} DayNumberSameYear(a: Civil, b: Civil)
    requires ValidDate(a) && ValidDate(b) && DayNumber(a) == DayNumber(b)
    ensures a.year == b.year
  {
    DayNumberWithinYear(a);
    DayNumberWithinYear(b);
    if a.year < b.year {
      YearStartMonotone(a.year, b.year);
    } else if b.year < a.year {
      YearStartMonotone(b.year, a.year);
    }
  }

  /** Distinct valid dates have distinct day numbers. */
  lemma {:induction false} DayNumberInjective(a: Civil, b: Civil)
    requires ValidDate(a) && ValidDate(b) && DayNumber(a) == DayNumber(b)
    ensures a.year == b.year && a.month == b.month && a.day == b.day
  {
    DayNumberSameYear(a, b);
    if a.month < b.month {
      DaysBeforeMonthMonotone(a.year, a.month + 1, b.month);
    } else if b.month < a.month {
      DaysBeforeMonthMonotone(a.year, b.month + 1, a.month);
    }
  }

  // ---------------------------------------------------------------------------
  // Day steppers
  // ---------------------------------------------------------------------------

  /** `nextDay` moves exactly one day forward, and a valid date stays valid. */
  lemma {:induction false} NextDayAdvances(d: Civil)
    requires 1 <= d.month <= 12
    ensures DayNumber(NextDay(d)) == DayNumber(d) + 1
    ensures ValidDate(d) ==> ValidDate(NextDay(d))
  {
    if d.day == MonthLength(d.year, d.month) && d.month == 12 {
      YearIsTwelveMonths(d.year);
      YearStartStep(d.year);
    }
  }

  /** `prevDay` moves exactly one day back, and a valid date stays valid. */
  lemma {:induction false} PrevDayRetreats(d: Civil)
    requires 1 <= d.month <= 12
    ensures DayNumber(PrevDay(d)) == DayNumber(d) - 1
    ensures ValidDate(d) ==> ValidDate(PrevDay(d))
  {
    if d.day != 1 {
    } else if d.month == 1 {
      YearIsTwelveMonths(d.year - 1);
      YearStartStep(d.year - 1);
    } else {
      assert DaysBeforeMonth(d.year, d.month) == DaysBeforeMonth(d.year, d.month - 1) + MonthLength(d.year, d.month - 1);
    }
  }

  lemma {:induction false} PrevDayUndoesNextDay(d: Civil)
    requires ValidDate(d)
    ensures PrevDay(NextDay(d)) == d
  {
    NextDayAdvances(d);
    PrevDayRetreats(NextDay(d));
    DayNumberInjective(PrevDay(NextDay(d)), d);
  }

  lemma {:induction false} NextDayUndoesPrevDay(d: Civil)
    requires ValidDate(d)
    ensures NextDay(PrevDay(d)) == d
  {
    PrevDayRetreats(d);
    NextDayAdvances(PrevDay(d));
    DayNumberInjective(NextDay(PrevDay(d)), d);
  }

  // ---------------------------------------------------------------------------
  // Month steppers
  // ---------------------------------------------------------------------------

  /**
   * `nextMonth` lands in the following month; the last day of a month goes to
   * the last day of the next, any other day keeps its number capped to the
   * new month's length. December's days need no cap since January has 31.
   */
  lemma {:induction false} NextMonthSteps(d: Civil)
    requires ValidDate(d)
    ensures var r := NextMonth(d);
      && ValidDate(r)
      && MonthNumber(r) == MonthNumber(d) + 1
      && (d.day == MonthLength(d.year, d.month) ==> r.day == MonthLength(r.year, r.month))
      && (d.day < MonthLength(d.year, d.month) ==>
            r.day == if d.day < MonthLength(r.year, r.month) then d.day else MonthLength(r.year, r.month))
  {
  }

  /** `prevMonth`, the mirror image of `nextMonth`. */
  lemma {:induction false} PrevMonthSteps(d: Civil)
    requires ValidDate(d)
    ensures var r := PrevMonth(d);
      && ValidDate(r)
      && MonthNumber(r) == MonthNumber(d) - 1
      && (d.day == MonthLength(d.year, d.month) ==> r.day == MonthLength(r.year, r.month))
      && (d.day < MonthLength(d.year, d.month) ==>
            r.day == if d.day < MonthLength(r.year, r.month) then d.day else MonthLength(r.year, r.month))
  {
  }

  /** January 31 moves to the end of February, whichever length February has. */
  lemma MonthEndCarrySamples()
    ensures NextMonth(Civil(2023, 1, 31, 8, 0, 0, 0)) == Civil(2023, 2, 28, 8, 0, 0, 0)
    ensures NextMonth(Civil(2024, 1, 31, 8, 0, 0, 0)) == Civil(2024, 2, 29, 8, 0, 0, 0)
    ensures NextMonth(Civil(2023, 2, 28, 8, 0, 0, 0)) == Civil(2023, 3, 31, 8, 0, 0, 0)
  {
  }

  // ---------------------------------------------------------------------------
  // Year steppers
  // ---------------------------------------------------------------------------

  /** `nextYear` keeps month and day, except that February 29 becomes February 28. */
  lemma {:induction false} NextYearSteps(d: Civil)
    requires ValidDate(d)
    ensures var r := NextYear(d);
      && ValidDate(r) && r.year == d.year + 1
      && r.day == (if IsLeapDay(d) then 28 else d.day)
  {
  }

  /** `prevYear` keeps month and day, except that February 29 becomes February 28. */
  lemma {:induction false} PrevYearSteps(d: Civil)
    requires ValidDate(d)
    ensures var r := PrevYear(d);
      && ValidDate(r) && r.year == d.year - 1
      && r.day == (if IsLeapDay(d) then 28 else d.day)
  {
  }

  /** Away from February 29 the year steppers undo each other. */
  lemma YearStepsUndo(d: Civil)
    requires ValidDate(d) && !IsLeapDay(d)
    ensures PrevYear(NextYear(d)) == d && NextYear(PrevYear(d)) == d
  {
  }

  // ---------------------------------------------------------------------------
  // Weekday search
  // ---------------------------------------------------------------------------

  /** `n` applications of the day stepper forward. */
  function ForwardDays(d: Civil, n: nat): (r: Civil)
    requires 1 <= d.month <= 12
    ensures 1 <= r.month <= 12 && SameTimeOfDay(r, d)
  {
    if n == 0 then d else NextDay(ForwardDays(d, n - 1))
  }

  /** `n` applications of the day stepper backward. */
  function BackwardDays(d: Civil, n: nat): (r: Civil)
    requires 1 <= d.month <= 12
    ensures 1 <= r.month <= 12 && SameTimeOfDay(r, d)
  {
    if n == 0 then d else PrevDay(BackwardDays(d, n - 1))
  }

  lemma {:induction false} ForwardDaysCount(d: Civil, n: nat)
    requires 1 <= d.month <= 12
    ensures DayNumber(ForwardDays(d, n)) == DayNumber(d) + n
    ensures ValidDate(d) ==> ValidDate(ForwardDays(d, n))
  {
    if n > 0 {
      var p := ForwardDays(d, n - 1);
      ForwardDaysCount(d, n - 1);
      NextDayAdvances(p);
    }
  }

  lemma {:induction false} BackwardDaysCount(d: Civil, n: nat)
    requires 1 <= d.month <= 12
    ensures DayNumber(BackwardDays(d, n)) == DayNumber(d) - n
    ensures ValidDate(d) ==> ValidDate(BackwardDays(d, n))
  {
    if n > 0 {
      var p := BackwardDays(d, n - 1);
      BackwardDaysCount(d, n - 1);
      PrevDayRetreats(p);
    }
  }

  /** One day forward adds one to the weekday, one day back takes one away. */
  lemma WeekdayStep(wd0: int, k: int)
    ensures (WeekdayAfter(wd0, k) + 1) % 7 == WeekdayAfter(wd0, k + 1)
    ensures (WeekdayAfter(wd0, k) + 6) % 7 == WeekdayAfter(wd0, k - 1)
  {
    var q := wd0 + k;
    assert q == 7 * (q / 7) + q % 7;
  }

  /** Days from a day with weekday `wd0` to the next day with the given weekday: a full week when they agree. */
  function DaysToNextWeekday(wd0: int, weekday: int): (n: nat)
    requires 0 <= wd0 <= 6 && 0 <= weekday <= 6
    ensures 1 <= n <= 7
    ensures n == 7 <==> wd0 == weekday
    ensures WeekdayAfter(wd0, n) == weekday
  {
    (weekday - wd0 + 6) % 7 + 1
  }

  /** Days from a day with weekday `wd0` back to the previous day with the given weekday. */
  function DaysToPrevWeekday(wd0: int, weekday: int): (n: nat)
    requires 0 <= wd0 <= 6 && 0 <= weekday <= 6
    ensures 1 <= n <= 7
    ensures n == 7 <==> wd0 == weekday
    ensures WeekdayAfter(wd0, -(n as int)) == weekday
  {
    (wd0 - weekday + 6) % 7 + 1
  }

  /**
   * Within the first week after the start, the only day with the weekday
   * sought is the `DaysToNextWeekday`-th: the forward search stops at the
   * first match.
   */
  lemma {:induction false} NextWeekdayIsFirst(wd0: int, weekday: int, k: nat)
    requires 0 <= wd0 <= 6 && 0 <= weekday <= 6
    requires 1 <= k <= DaysToNextWeekday(wd0, weekday)
    ensures WeekdayAfter(wd0, k) == weekday <==> k == DaysToNextWeekday(wd0, weekday)
  {
    // every operand lies within one period of the range 0 .. 6
    assert (wd0 + k) % 7 == if wd0 + k < 7 then wd0 + k else wd0 + k - 7;
    assert (weekday - wd0 + 6) % 7 == if weekday - wd0 + 6 < 7 then weekday - wd0 + 6 else weekday - wd0 - 1;
  }

  /**
   * Within the first week before the start, the only day with the weekday
   * sought is the `DaysToPrevWeekday`-th: the backward search stops at the
   * first match.
   */
  lemma {:induction false} PrevWeekdayIsFirst(wd0: int, weekday: int, k: nat)
    requires 0 <= wd0 <= 6 && 0 <= weekday <= 6
    requires 1 <= k <= DaysToPrevWeekday(wd0, weekday)
    ensures WeekdayAfter(wd0, -(k as int)) == weekday <==> k == DaysToPrevWeekday(wd0, weekday)
  {
    assert (wd0 + -(k as int)) % 7 == if wd0 - k < 0 then wd0 - k + 7 else wd0 - k;
    assert (wd0 - weekday + 6) % 7 == if wd0 - weekday + 6 < 7 then wd0 - weekday + 6 else wd0 - weekday - 1;
  }

  /**
   * `nextWeekday`: from a day whose weekday is `wd0`, step forward a day at
   * a time until the weekday matches. `w` follows the weekday of `t`. The
   * search starts on the next day, so the result is a full week ahead when
   * `wd0` already is the weekday sought.
   */
  method NextWeekday(d: Civil, wd0: int, weekday: int) returns (t: Civil)
    requires 1 <= d.month <= 12 && 0 <= wd0 <= 6 && 0 <= weekday <= 6
    ensures t == ForwardDays(d, DaysToNextWeekday(wd0, weekday))
  {
    t := NextDay(d);
    var w := (wd0 + 1) % 7;
    ghost var k := 1;
    assert t == ForwardDays(d, 1);
    while w != weekday
      invariant 1 <= k <= DaysToNextWeekday(wd0, weekday)
      invariant t == ForwardDays(d, k) && w == WeekdayAfter(wd0, k)
      decreases DaysToNextWeekday(wd0, weekday) - k
    {
      NextWeekdayIsFirst(wd0, weekday, k);
      WeekdayStep(wd0, k);
      t := NextDay(t);
      w := (w + 1) % 7;
      k := k + 1;
    }
    NextWeekdayIsFirst(wd0, weekday, k);
  }

  /**
   * `prevWeekday`: from a day whose weekday is `wd0`, step back a day at a
   * time until the weekday matches; a full week back when `wd0` already is
   * the weekday sought.
   */
  method PrevWeekday(d: Civil, wd0: int, weekday: int) returns (t: Civil)
    requires 1 <= d.month <= 12 && 0 <= wd0 <= 6 && 0 <= weekday <= 6
    ensures t == BackwardDays(d, DaysToPrevWeekday(wd0, weekday))
  {
    t := PrevDay(d);
    var w := (wd0 + 6) % 7;
    ghost var k := 1;
    assert t == BackwardDays(d, 1);
    while w != weekday
      invariant 1 <= k <= DaysToPrevWeekday(wd0, weekday)
      invariant t == BackwardDays(d, k) && w == WeekdayAfter(wd0, -(k as int))
      decreases DaysToPrevWeekday(wd0, weekday) - k
    {
      PrevWeekdayIsFirst(wd0, weekday, k);
      WeekdayStep(wd0, -(k as int));
      t := PrevDay(t);
      w := (w + 6) % 7;
      k := k + 1;
    }
    PrevWeekdayIsFirst(wd0, weekday, k);
  }

  // ---------------------------------------------------------------------------
  // Time of day
  // ---------------------------------------------------------------------------

  /**
   * Within the documented field ranges the time of day is less than a day
   * long and determines hour, minute, second and millisecond.
   */
  lemma {:induction false} TimeOfDayMillisDetermines(h1: int, m1: int, s1: int, ms1: int,
                                                     h2: int, m2: int, s2: int, ms2: int)
    requires 0 <= h1 <= 23 && 0 <= m1 <= 59 && 0 <= s1 <= 59 && 0 <= ms1 <= 999
    requires 0 <= h2 <= 23 && 0 <= m2 <= 59 && 0 <= s2 <= 59 && 0 <= ms2 <= 999
    ensures 0 <= TimeOfDayMillis(h1, m1, s1, ms1) < 86_400_000
    ensures TimeOfDayMillis(h1, m1, s1, ms1) == TimeOfDayMillis(h2, m2, s2, ms2)
            <==> h1 == h2 && m1 == m2 && s1 == s2 && ms1 == ms2
  {
    TimeOfDayParts(h1, m1, s1, ms1);
    TimeOfDayParts(h2, m2, s2, ms2);
  }

  /** The fields read back from the time of day by `/` and `%`. */
  lemma TimeOfDayParts(h: int, m: int, s: int, ms: int)
    requires 0 <= h <= 23 && 0 <= m <= 59 && 0 <= s <= 59 && 0 <= ms <= 999
    ensures var t := TimeOfDayMillis(h, m, s, ms);
      && 0 <= t < 86_400_000 && t / 3_600_000 == h && t % 3_600_000 / 60_000 == m
      && t % 3_600_000 % 60_000 / 1000 == s && t % 1000 == ms
  {
    var inMinute := s * 1000 + ms;
    var inHour := m * 60_000 + inMinute;
    SplitBy(3_600_000, h, inHour);
    SplitBy(60_000, m, inMinute);
    SplitBy(1000, s, ms);
    SplitBy(1000, h * 3600 + m * 60 + s, ms);
  }

  /** `q * b + r` with `r` in `0..b-1` divides back into `q` and `r`. */
  lemma SplitBy(b: int, q: int, r: int)
    requires b == 3_600_000 || b == 60_000 || b == 1000
    requires 0 <= r < b
    ensures (q * b + r) / b == q && (q * b + r) % b == r
  {
    if b == 3_600_000 {
      assert q * 3_600_000 + r == 3_600_000 * q + r;
    } else if b == 60_000 {
      assert q * 60_000 + r == 60_000 * q + r;
    } else {
      assert q * 1000 + r == 1000 * q + r;
    }
  }
}
