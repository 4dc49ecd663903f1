/** The date step of the booking wizard (SeleccionFecha.jsx): a month grid the
    user can page through, on which any day from today on can be selected, and a
    confirm button that forwards the chosen date to the slot page. Today's date
    is an input; the page reads it from the clock. */
module SeleccionFecha {
  import opened Common
  import opened Calendar

  /** How a day button is drawn. */
  datatype DayStyle = SelectedDay | AvailableDay | UnavailableDay

  /** The month `delta` months away from month `m` of year `y`, as
      `new Date(y, m + delta, 1)` rolls it over. */
  function StepMonth(y: int, m: int, delta: int): (r: (int, int))
    ensures 0 <= r.1 < 12
    ensures r.0 * 12 + r.1 == y * 12 + m + delta
  {
    NormalizeMonth(y, m + delta)
  }

  /** A year and month in range are determined by their month count. */
  lemma MonthCountDetermines(y1: int, m1: int, y2: int, m2: int)
    requires 0 <= m1 < 12 && 0 <= m2 < 12 && y1 * 12 + m1 == y2 * 12 + m2
    ensures y1 == y2 && m1 == m2
  {
  }

  /** Stepping forward from December reaches January of the next year; stepping
      back from January reaches December of the previous year; any other single
      step stays in the same year. */
  lemma StepMonthRollover(y: int, m: int)
    requires 0 <= m < 12
    ensures StepMonth(y, m, 1) == if m == 11 then (y + 1, 0) else (y, m + 1)
    ensures StepMonth(y, m, -1) == if m == 0 then (y - 1, 11) else (y, m - 1)
  {
    var next := if m == 11 then (y + 1, 0) else (y, m + 1);
    var prev := if m == 0 then (y - 1, 11) else (y, m - 1);
    MonthCountDetermines(StepMonth(y, m, 1).0, StepMonth(y, m, 1).1, next.0, next.1);
    MonthCountDetermines(StepMonth(y, m, -1).0, StepMonth(y, m, -1).1, prev.0, prev.1);
  }

  /** Paging forward and then back (or any two steps) is the same as one step by
      the sum: in particular "next" followed by "previous" returns to the start. */
  lemma StepMonthCompose(y: int, m: int, a: int, b: int)
    requires 0 <= m < 12
    ensures var (y1, m1) := StepMonth(y, m, a); StepMonth(y1, m1, b) == StepMonth(y, m, a + b)
    ensures var (y1, m1) := StepMonth(y, m, a); StepMonth(y1, m1, -a) == (y, m)
  {
    var (y1, m1) := StepMonth(y, m, a);
    var r := StepMonth(y1, m1, b);
    var s := StepMonth(y, m, a + b);
    MonthCountDetermines(r.0, r.1, s.0, s.1);
    var t := StepMonth(y1, m1, -a);
    MonthCountDetermines(t.0, t.1, y, m);
  }

  /** `currentDay >= today`, both taken at midnight. */
  predicate IsAvailable(y: int, m: int, day: int, today: Date) {
    DayNumber(y, m, day) >= DateNumber(today)
  }

  /** On the grid (a real day of the shown month) a day is available exactly when
      it is today or later in calendar order. */
  lemma IsAvailableMeaning(y: int, m: int, day: int, today: Date)
    requires ValidDate(Date(y, m, day)) && ValidDate(today)
    ensures IsAvailable(y, m, day, today) <==> OnOrBefore(today, Date(y, m, day))
  {
    DateNumberOrder(today, Date(y, m, day));
  }

  /** The style of a day button: the selected day is drawn as selected even when
      it is in the past; otherwise available days are green and the rest gray. */
  function DayStyleFor(selected: Option<int>, day: int, available: bool): (s: DayStyle)
    ensures s == SelectedDay <==> selected == Some(day)
    ensures s == AvailableDay <==> selected != Some(day) && available
  {
    if selected == Some(day) then SelectedDay
    else if available then AvailableDay
    else UnavailableDay
  }

  /** `!selectedDayNumber`: no day, or the falsy day 0. */
  predicate NoDaySelected(sel: Option<int>) {
    sel.None? || sel.value == 0
  }

  /** The page's calendar state: the month shown, the selected day of that
      month and whether confirmation is under way. */
  class DatePicker {
    var year: int
    var month: int
    var selectedDay: Option<int>
    var confirming: bool

    ghost predicate Valid()
      reads this
    {
      0 <= month < 12
    }

    /** The grid starts on the month of today, with nothing selected. */
    constructor (today: Date)
      requires ValidDate(today)
      ensures Valid() && year == today.year && month == today.month
      ensures selectedDay.None? && !confirming
    {
      year := today.year;
      month := today.month;
      selectedDay := None;
      confirming := false;
    }

    /** `daysInMonth`: the day `new Date(year, month + 1, 0)` falls on, which is
        the last day of the shown month. */
    function DaysShown(): (n: int)
      reads this
      requires Valid()
      ensures 28 <= n <= 31
      ensures DayNumber(year, month + 1, 0) == DayNumber(year, month, n)
      ensures forall d :: 1 <= d <= n <==> ValidDate(Date(year, month, d))
    {
      LastDayOfMonth(year, month);
      DaysInMonth(year, month)
    }

    /** `firstDayIndex`: the number of empty cells before day 1 in a grid whose
        weeks start on Monday. */
    function GridOffset(): (i: int)
      reads this
      ensures 0 <= i < 7
      ensures i == 0 <==> WeekDay(DayNumber(year, month, 1)) == 1
    {
      FirstDayIndexMondayBased(year, month);
      FirstDayIndex(year, month)
    }

    /** `changeMonth(delta)`: show the month `delta` months away and drop the selection. */
    method ChangeMonth(delta: int)
      requires Valid()
      modifies this`year, this`month, this`selectedDay
      ensures Valid()
      ensures (year, month) == StepMonth(old(year), old(month), delta)
      ensures selectedDay.None?
    {
      var newMonth := month + delta;
      var (y, m) := NormalizeMonth(year, newMonth);
      year, month := y, m;
      selectedDay := None;
    }

    /** `handleDayClick(day)`: a day on or after today is selected; an earlier day
        changes nothing and raises the "not available" alert. */
    method HandleDayClick(day: int, today: Date) returns (alerted: bool)
      modifies this`selectedDay
      ensures alerted <==> !IsAvailable(year, month, day, today)
      ensures selectedDay == if alerted then old(selectedDay) else Some(day)
    {
      var isAvailable := DayNumber(year, month, day) >= DateNumber(today);
      if isAvailable {
        selectedDay := Some(day);
        alerted := false;
      } else {
        alerted := true;
      }
    }

    /** `handleConfirmDate`: without a selected day nothing is forwarded (an alert
        is raised); otherwise confirmation starts and the date (shown year, shown
        month, selected day) is forwarded to the slot page. */
    method HandleConfirmDate() returns (forwarded: Option<Date>)
      modifies this`confirming
      ensures NoDaySelected(selectedDay) ==> forwarded.None? && confirming == old(confirming)
      ensures !NoDaySelected(selectedDay) ==>
        forwarded == Some(Date(year, month, selectedDay.value)) && confirming
    {
      if selectedDay.None? || selectedDay.value == 0 {
        return None;
      }
      confirming := true;
      forwarded := Some(Date(year, month, selectedDay.value));
    }

    /** The confirm button is disabled while confirming or while no day is selected. */
    function ConfirmDisabled(): bool
      reads this
    {
      confirming || NoDaySelected(selectedDay)
    }

    /** The style of day `day` of the shown month. */
    function StyleOf(day: int, today: Date): DayStyle
      reads this
    {
      DayStyleFor(selectedDay, day, IsAvailable(year, month, day, today))
    }
  }

  /** A day picked on the grid and then confirmed is forwarded as a real date no
      earlier than today: the click guard and the grid bounds together keep
      past and impossible dates out of the slot page. */
  lemma ForwardedDateIsValid(y: int, m: int, day: int, today: Date)
    requires 0 <= m < 12 && 1 <= day <= DaysInMonth(y, m) && ValidDate(today)
    requires IsAvailable(y, m, day, today)
    ensures ValidDate(Date(y, m, day)) && OnOrBefore(today, Date(y, m, day))
  {
    IsAvailableMeaning(y, m, day, today);
  }
}
