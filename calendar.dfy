/** The calendar arithmetic the date pickers get from JavaScript's `Date`:
    `new Date(y, m, d)` with an out-of-range month or day rolls over into the
    neighbouring months and years, `getDay()` is the weekday (Sunday = 0) and
    `new Date(y, m + 1, 0).getDate()` is the length of month `m`. Months are
    0-based as in JavaScript. A date is identified with its day number, the
    count of days since 1 January 1970, computed as ECMAScript's MakeDay and
    DayFromYear do; the time of day, the time zone and daylight saving are not
    part of this model. */
module Calendar {

  /** A calendar date; `month` is 0 for January, as `getMonth()` returns it. */
  datatype Date = Date(year: int, month: int, day: int)

  predicate IsLeapYear(y: int) {
    y % 4 == 0 && (y % 100 != 0 || y % 400 == 0)
  }

  function DaysInYear(y: int): (n: int)
    ensures n == 365 || n == 366
  {
    if IsLeapYear(y) then 366 else 365
  }

  /** The number of days of month `m` of year `y`. */
  function DaysInMonth(y: int, m: int): (n: int)
    requires 0 <= m < 12
    ensures 28 <= n <= 31
    ensures n == 29 <==> m == 1 && IsLeapYear(y)
  {
    if m == 1 then (if IsLeapYear(y) then 29 else 28)
    else if m == 3 || m == 5 || m == 8 || m == 10 then 30
    else 31
  }

  /** A date whose month is 0..11 and whose day exists in that month. */
  predicate ValidDate(d: Date) {
    0 <= d.month < 12 && 1 <= d.day <= DaysInMonth(d.year, d.month)
  }

  /** The year and month `Date` uses for a month number outside 0..11: month 12
      is January of the next year, month -1 December of the previous one. The
      month count from year 0 is kept, and the month lands in 0..11. */
  function NormalizeMonth(y: int, m: int): (r: (int, int))
    ensures 0 <= r.1 < 12
    ensures r.0 * 12 + r.1 == y * 12 + m
  {
    (y + m / 12, m % 12)
  }

  /** A month already in range is left alone. */
  lemma NormalizeMonthInRange(y: int, m: int)
    requires 0 <= m < 12
    ensures NormalizeMonth(y, m) == (y, m)
  {
  }

  /** The day number of 1 January of year `y`: ECMAScript's DayFromYear. */
  function DayFromYear(y: int): int
  {
    365 * (y - 1970) + (y - 1969) / 4 - (y - 1901) / 100 + (y - 1601) / 400
  }

  /** The days in the months of year `y` before month `m`. */
  function DaysBeforeMonth(y: int, m: int): (n: int)
    requires 0 <= m <= 12
    ensures 28 * m <= n <= 31 * m
  {
    if m == 0 then 0 else DaysBeforeMonth(y, m - 1) + DaysInMonth(y, m - 1)
  }

  /** `new Date(y, m, d)` as a day number: the month is normalised first, and the
      day is then counted from the first of that month, so day 0 is the last day
      of the month before and a day past the end runs into the next month. */
  function DayNumber(y: int, m: int, d: int): int
  {
    var (ny, nm) := NormalizeMonth(y, m);
    DayFromYear(ny) + DaysBeforeMonth(ny, nm) + d - 1
  }

  function DateNumber(d: Date): int
  {
    DayNumber(d.year, d.month, d.day)
  }

  /** `getDay()`: 0 for Sunday to 6 for Saturday; 1 January 1970 was a Thursday. */
  function WeekDay(t: int): (w: int)
    ensures 0 <= w < 7
  {
    (t + 4) % 7
  }

  /** The position of the 1st of the month in a grid whose columns run from
      Monday to Sunday: `(getStartDay(y, m) + 6) % 7`. */
  function FirstDayIndex(y: int, m: int): (i: int)
    ensures 0 <= i < 7
  {
    (WeekDay(DayNumber(y, m, 1)) + 6) % 7
  }

  /** The grid offset counts the days from the Monday on or before the 1st:
      it is 0 exactly when the 1st is a Monday, and 6 exactly when it is a Sunday. */
  lemma FirstDayIndexMondayBased(y: int, m: int)
    ensures FirstDayIndex(y, m) == 0 <==> WeekDay(DayNumber(y, m, 1)) == 1
    ensures FirstDayIndex(y, m) == 6 <==> WeekDay(DayNumber(y, m, 1)) == 0
    ensures (WeekDay(DayNumber(y, m, 1)) - FirstDayIndex(y, m) - 1) % 7 == 0
  {
  }

  /** Adding one to `a` adds one to `a / 4` exactly when `a + 1` is a multiple of
      4; likewise for 100 and 400 below. */
  lemma DivStep4(a: int)
    ensures (a + 1) / 4 == a / 4 + (if (a + 1) % 4 == 0 then 1 else 0)
  {
  }

  lemma DivStep100(a: int)
    ensures (a + 1) / 100 == a / 100 + (if (a + 1) % 100 == 0 then 1 else 0)
  {
  }

  lemma DivStep400(a: int)
    ensures (a + 1) / 400 == a / 400 + (if (a + 1) % 400 == 0 then 1 else 0)
  {
  }

  /** The leap-year tests read the same on the shifted year counts DayFromYear uses. */
  lemma LeapShift(y: int)
    ensures (y - 1968) % 4 == 0 <==> y % 4 == 0
    ensures (y - 1900) % 100 == 0 <==> y % 100 == 0
    ensures (y - 1600) % 400 == 0 <==> y % 400 == 0
  {
    assert y - 1968 == y + 4 * (-492);
    assert y - 1900 == y + 100 * (-19);
    assert y - 1600 == y + 400 * (-4);
  }

  /** A multiple of 400 is a multiple of 100. */
  lemma Multiple400(y: int)
    requires y % 400 == 0
    ensures y % 100 == 0
  {
    var k := 4 * (y / 400);
    assert y == 100 * k + 0;
  }

  /** A multiple of 100 is a multiple of 4. */
  lemma Multiple100(y: int)
    requires y % 100 == 0
    ensures y % 4 == 0
  {
    var k := 25 * (y / 100);
    assert y == 4 * k + 0;
  }

  /** A year adds its own length to the day number of its first day. */
  lemma DayFromYearStep(y: int)
    ensures DayFromYear(y + 1) == DayFromYear(y) + DaysInYear(y)
  {
    var a, b, c := y - 1969, y - 1901, y - 1601;
    DivStep4(a);
    DivStep100(b);
    DivStep400(c);
    LeapShift(y);
    if y % 400 == 0 {
      Multiple400(y);
    }
    if y % 100 == 0 {
      Multiple100(y);
    }
    assert DayFromYear(y + 1) - DayFromYear(y) ==
      365 + ((a + 1) / 4 - a / 4) - ((b + 1) / 100 - b / 100) + ((c + 1) / 400 - c / 400);
  }

  /** The twelve months add up to the year. */
  lemma DaysBeforeYearEnd(y: int)
    ensures DaysBeforeMonth(y, 12) == DaysInYear(y)
  {
    var feb := DaysInMonth(y, 1);
    assert DaysBeforeMonth(y, 2) == 31 + feb;
    assert DaysBeforeMonth(y, 4) == 92 + feb;
    assert DaysBeforeMonth(y, 6) == 153 + feb;
    assert DaysBeforeMonth(y, 8) == 215 + feb;
    assert DaysBeforeMonth(y, 10) == 276 + feb;
    assert DaysBeforeMonth(y, 12) == 337 + feb;
  }

  /** Day 0 of the next month is the last day of this month: this is why
      `new Date(y, m + 1, 0).getDate()` is the number of days of month `m`. */
  lemma LastDayOfMonth(y: int, m: int)
    requires 0 <= m < 12
    ensures DayNumber(y, m + 1, 0) == DayNumber(y, m, DaysInMonth(y, m))
  {
    NormalizeMonthInRange(y, m);
    if m == 11 {
      assert NormalizeMonth(y, 12) == (y + 1, 0);
      DayFromYearStep(y);
      DaysBeforeYearEnd(y);
    } else {
      NormalizeMonthInRange(y, m + 1);
    }
  }

  /** The 1st of the next month comes right after the last day of this one, so
      the next grid starts `DaysInMonth` weekdays later. */
  lemma NextMonthFirstDay(y: int, m: int)
    requires 0 <= m < 12
    ensures DayNumber(y, m + 1, 1) == DayNumber(y, m, 1) + DaysInMonth(y, m)
    ensures FirstDayIndex(y, m + 1) == (FirstDayIndex(y, m) + DaysInMonth(y, m)) % 7
  {
    LastDayOfMonth(y, m);
    var t := DayNumber(y, m, 1);
    var n := DaysInMonth(y, m);
    assert DayNumber(y, m + 1, 1) == DayNumber(y, m + 1, 0) + 1;
    WeekShift(t, n);
  }

  /** Moving `n` days later moves the Monday-based grid position `n` columns on,
      modulo the week. */
  lemma WeekShift(t: int, n: int)
    ensures (WeekDay(t + n) + 6) % 7 == ((WeekDay(t) + 6) % 7 + n) % 7
  {
  }

  /** Every day of a valid date lies within its year: between the year's first
      and last day numbers. */
  lemma DateWithinYear(d: Date)
    requires ValidDate(d)
    ensures DayFromYear(d.year) <= DateNumber(d) < DayFromYear(d.year + 1)
  {
    NormalizeMonthInRange(d.year, d.month);
    DayFromYearStep(d.year);
    DaysBeforeUpTo(d.year, d.month + 1, 12);
    DaysBeforeYearEnd(d.year);
  }

  /** Later months start later in the year. */
  lemma {:induction false} DaysBeforeUpTo(y: int, m: int, n: int)
    requires 0 <= m <= n <= 12
    ensures DaysBeforeMonth(y, m) + 28 * (n - m) <= DaysBeforeMonth(y, n)
    decreases n - m
  {
    if m < n {
      DaysBeforeUpTo(y, m, n - 1);
    }
  }

  /** Later years start later. */
  lemma {:induction false} DayFromYearIncreasing(y1: int, y2: int)
    requires y1 <= y2
    ensures DayFromYear(y1) + 365 * (y2 - y1) <= DayFromYear(y2)
    decreases y2 - y1
  {
    if y1 < y2 {
      DayFromYearIncreasing(y1, y2 - 1);
      DayFromYearStep(y2 - 1);
    }
  }

  /** The calendar order of dates: by year, then month, then day. */
  predicate OnOrBefore(a: Date, b: Date) {
    a.year < b.year || (a.year == b.year && (a.month < b.month || (a.month == b.month && a.day <= b.day)))
  }

  /** A valid date in an earlier year has a smaller day number. */
  lemma EarlierYear(a: Date, b: Date)
    requires ValidDate(a) && ValidDate(b) && a.year < b.year
    ensures DateNumber(a) < DateNumber(b)
  {
    DateWithinYear(a);
    DateWithinYear(b);
    DayFromYearIncreasing(a.year + 1, b.year);
  }

  /** A valid date in an earlier month of the same year has a smaller day number. */
  lemma EarlierMonth(a: Date, b: Date)
    requires ValidDate(a) && ValidDate(b) && a.year == b.year && a.month < b.month
    ensures DateNumber(a) < DateNumber(b)
  {
    NormalizeMonthInRange(a.year, a.month);
    NormalizeMonthInRange(b.year, b.month);
    DaysBeforeUpTo(a.year, a.month + 1, b.month);
  }

  /** For valid dates, comparing day numbers (what `currentDay >= today` does
      with both at midnight) is comparing in calendar order. */
  lemma DateNumberOrder(a: Date, b: Date)
    requires ValidDate(a) && ValidDate(b)
    ensures DateNumber(a) <= DateNumber(b) <==> OnOrBefore(a, b)
  {
    if a.year < b.year {
      EarlierYear(a, b);
    } else if b.year < a.year {
      EarlierYear(b, a);
    } else if a.month < b.month {
      EarlierMonth(a, b);
    } else if b.month < a.month {
      EarlierMonth(b, a);
    } else {
      NormalizeMonthInRange(a.year, a.month);
    }
  }

  /** Distinct valid dates have distinct day numbers. */
  lemma DateNumberInjective(a: Date, b: Date)
    requires ValidDate(a) && ValidDate(b) && DateNumber(a) == DateNumber(b)
    ensures a == b
  {
    DateNumberOrder(a, b);
    DateNumberOrder(b, a);
  }
}
