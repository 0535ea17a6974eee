/**
 * The month calendar (src/components/CalendarView.tsx): the 42-cell grid of
 * a month, month navigation, and the event list with its modal. Dates are
 * proleptic Gregorian `(year, month, day)` triples, with months numbered
 * 0 to 11 as `Date.prototype.getMonth` numbers them.
 */
module Calendar {
  import opened Wrappers
  import opened Lists
  import opened Text
  import opened Arith
  import Reminders

  type Month = m: int | 0 <= m <= 11

  datatype YearMonth = YearMonth(year: int, month: Month)

  datatype CivilDate = CivilDate(year: int, month: Month, day: int)

  predicate IsLeapYear(y: int) {
    y % 4 == 0 && (y % 100 != 0 || y % 400 == 0)
  }

  /** The day `new Date(y, m + 1, 0)` falls on: the length of the month. */
  function DaysInMonth(y: int, m: Month): (n: int)
    ensures 28 <= n <= 31
    ensures n == 29 <==> m == 1 && IsLeapYear(y)
  {
    if m == 1 then (if IsLeapYear(y) then 29 else 28)
    else if m == 3 || m == 5 || m == 8 || m == 10 then 30
    else 31
  }

  predicate ValidDate(d: CivilDate) {
    1 <= d.day <= DaysInMonth(d.year, d.month)
  }

  /** Days in the years before `y`, counted from 1 January of year 1. */
  function DaysBeforeYear(y: int): int {
    var x := y - 1;
    365 * x + x / 4 - x / 100 + x / 400
  }

  const CumulativeDays: seq<int> := [0, 31, 59, 90, 120, 151, 181, 212, 243, 273, 304, 334]

  /** Days in the months of year `y` before month `m`. */
  function DaysBeforeMonth(y: int, m: Month): int {
    CumulativeDays[m] + if m > 1 && IsLeapYear(y) then 1 else 0
  }

  /** The number of days from 1 January of year 1 to `d`. */
  function DayNumber(d: CivilDate): int {
    DaysBeforeYear(d.year) + DaysBeforeMonth(d.year, d.month) + d.day - 1
  }

  /** `getDay()`: 0 = Sunday … 6 = Saturday; 1 January of year 1 was a Monday. */
  function DayOfWeek(d: CivilDate): (w: int)
    ensures 0 <= w <= 6
  {
    (DayNumber(d) + 1) % 7
  }

  /** The weekday count agrees with two known dates. */
  lemma KnownWeekdays()
    ensures DayOfWeek(CivilDate(1970, 0, 1)) == 4
    ensures DayOfWeek(CivilDate(2000, 0, 1)) == 6
  {
  }

  /** One more whole year: 366 days after a leap year, 365 after any other. */
  lemma YearLength(y: int)
    ensures DaysBeforeYear(y + 1) == DaysBeforeYear(y) + if IsLeapYear(y) then 366 else 365
  {
    var x := y - 1;
    StepQuotient(x, 4);
    StepQuotient(x, 100);
    StepQuotient(x, 400);
    if y % 400 == 0 {
      DivModUnique(y, 100, 4 * (y / 400), 0);
    }
    if y % 100 == 0 {
      DivModUnique(y, 4, 25 * (y / 100), 0);
    }
  }

  /** Stepping from `x` to `x + 1` raises the quotient by one exactly at a multiple of `d`. */
  lemma StepQuotient(x: int, d: int)
    requires d > 0
    ensures (x + 1) / d == x / d + (if (x + 1) % d == 0 then 1 else 0)
  {
    var q, r := x / d, x % d;
    if r == d - 1 {
      DivModUnique(x + 1, d, q + 1, 0);
    } else {
      DivModUnique(x + 1, d, q, r + 1);
    }
  }

  // ---------------------------------------------------------------------------
  // Navigation
  // ---------------------------------------------------------------------------

  /** Months counted from January of year 0. */
  function MonthIndex(ym: YearMonth): int {
    ym.year * 12 + ym.month
  }

  /**
   * `navigateMonth(delta)`: `new Date(year, month + delta, 1)` carries the
   * overflowing months into the year, in either direction.
   */
  function NavigateMonth(ym: YearMonth, delta: int): (r: YearMonth)
    ensures MonthIndex(r) == MonthIndex(ym) + delta
  {
    var total := ym.month + delta;
    YearMonth(ym.year + total / 12, total % 12)
  }

  /** A month is determined by its index. */
  lemma MonthIndexInjective(p: YearMonth, q: YearMonth)
    requires MonthIndex(p) == MonthIndex(q)
    ensures p == q
  {
    DivModUnique(MonthIndex(p), 12, p.year, p.month);
    DivModUnique(MonthIndex(p), 12, q.year, q.month);
  }

  /** Navigating by `a` then by `b` is navigating by `a + b` (so Previous undoes Next). */
  lemma NavigateTwice(ym: YearMonth, a: int, b: int)
    ensures NavigateMonth(NavigateMonth(ym, a), b) == NavigateMonth(ym, a + b)
  {
    MonthIndexInjective(NavigateMonth(NavigateMonth(ym, a), b), NavigateMonth(ym, a + b));
  }

  function FirstOf(ym: YearMonth): CivilDate {
    CivilDate(ym.year, ym.month, 1)
  }

  /** The first of the next month comes a month's length after the first of this one. */
  lemma MonthStep(ym: YearMonth)
    ensures DayNumber(FirstOf(NavigateMonth(ym, 1))) == DayNumber(FirstOf(ym)) + DaysInMonth(ym.year, ym.month)
  {
    var next := NavigateMonth(ym, 1);
    if ym.month == 11 {
      assert next == YearMonth(ym.year + 1, 0);
      YearLength(ym.year);
    } else {
      assert next == YearMonth(ym.year, ym.month + 1);
    }
  }

  // ---------------------------------------------------------------------------
  // The month grid
  // ---------------------------------------------------------------------------

  /** A grid cell: its date and whether it belongs to the month shown. */
  datatype Cell = Cell(date: CivilDate, isCurrentMonth: bool)

  /** `startDayOfWeek`: the column of the first of the month. */
  function StartDayOfWeek(ym: YearMonth): int {
    DayOfWeek(FirstOf(ym))
  }

  /**
   * Cell `i` of the grid: the last days of the previous month up to the
   * column of the first, then the month itself, then the next month.
   */
  function GridCell(ym: YearMonth, i: int): Cell {
    var lead := StartDayOfWeek(ym);
    var n := DaysInMonth(ym.year, ym.month);
    if i < lead then
      var prev := NavigateMonth(ym, -1);
      Cell(CivilDate(prev.year, prev.month, DaysInMonth(prev.year, prev.month) - (lead - 1 - i)), false)
    else if i < lead + n then
      Cell(CivilDate(ym.year, ym.month, i - lead + 1), true)
    else
      var next := NavigateMonth(ym, 1);
      Cell(CivilDate(next.year, next.month, i - lead - n + 1), false)
  }

  /**
   * The 42 cells are 42 consecutive real dates: cell `i` is `i` days after
   * cell 0, and every cell is a valid date.
   */
  lemma GridIsConsecutive(ym: YearMonth, i: int)
    requires 0 <= i < 42
    ensures ValidDate(GridCell(ym, i).date)
    ensures DayNumber(GridCell(ym, i).date) == DayNumber(FirstOf(ym)) - StartDayOfWeek(ym) + i
  {
    var lead := StartDayOfWeek(ym);
    var n := DaysInMonth(ym.year, ym.month);
    if i < lead {
      var prev := NavigateMonth(ym, -1);
      NavigateTwice(ym, -1, 1);
      assert NavigateMonth(ym, 0) == ym by {
        MonthIndexInjective(NavigateMonth(ym, 0), ym);
      }
      MonthStep(prev);
    } else if i >= lead + n {
      MonthStep(ym);
    }
  }

  /** Every cell sits in the column of its own weekday (the header runs Sun … Sat). */
  lemma GridColumnIsWeekday(ym: YearMonth, i: int)
    requires 0 <= i < 42
    ensures DayOfWeek(GridCell(ym, i).date) == i % 7
  {
    GridIsConsecutive(ym, i);
    var x := DayNumber(FirstOf(ym)) + 1;
    var lead := StartDayOfWeek(ym);
    assert x == 7 * (x / 7) + lead;
    DivModUnique(DayNumber(GridCell(ym, i).date) + 1, 7, x / 7 + i / 7, i % 7);
  }

  /**
   * `calendarDays`: three loops push the previous month's tail, the month
   * and the next month's head; the grid always has 42 cells.
   */
  method CalendarDays(ym: YearMonth) returns (days: seq<Cell>)
    ensures |days| == 42
    ensures forall i :: 0 <= i < 42 ==> days[i] == GridCell(ym, i)
    ensures forall i :: 0 <= i < 42 ==>
      (days[i].isCurrentMonth <==> StartDayOfWeek(ym) <= i < StartDayOfWeek(ym) + DaysInMonth(ym.year, ym.month))
  {
    var daysInMonth := DaysInMonth(ym.year, ym.month);
    var startDayOfWeek := StartDayOfWeek(ym);
    var prev := NavigateMonth(ym, -1);
    var prevMonthLastDay := DaysInMonth(prev.year, prev.month);
    days := [];

    var i := startDayOfWeek - 1;
    while i >= 0
      invariant -1 <= i < startDayOfWeek
      invariant |days| == startDayOfWeek - 1 - i
      invariant forall k :: 0 <= k < |days| ==> days[k] == GridCell(ym, k)
    {
      days := days + [Cell(CivilDate(prev.year, prev.month, prevMonthLastDay - i), false)];
      i := i - 1;
    }

    i := 1;
    while i <= daysInMonth
      invariant 1 <= i <= daysInMonth + 1
      invariant |days| == startDayOfWeek + i - 1
      invariant forall k :: 0 <= k < |days| ==> days[k] == GridCell(ym, k)
    {
      days := days + [Cell(CivilDate(ym.year, ym.month, i), true)];
      i := i + 1;
    }

    var next := NavigateMonth(ym, 1);
    var remainingDays := 42 - |days|;
    i := 1;
    while i <= remainingDays
      invariant 1 <= i <= remainingDays + 1
      invariant |days| == startDayOfWeek + daysInMonth + i - 1
      invariant forall k :: 0 <= k < |days| ==> days[k] == GridCell(ym, k)
    {
      days := days + [Cell(CivilDate(next.year, next.month, i), false)];
      i := i + 1;
    }
  }

  // ---------------------------------------------------------------------------
  // Events
  // ---------------------------------------------------------------------------

  /** An event on an ISO `YYYY-MM-DD` date. */
  datatype CalendarEvent = CalendarEvent(
    id: string, title: string, date: string, time: Option<string>,
    priority: Reminders.Priority, description: Option<string>)

  /** An event without its id (`Omit<CalendarEvent, 'id'>`). */
  datatype EventData = EventData(
    title: string, date: string, time: Option<string>,
    priority: Reminders.Priority, description: Option<string>)

  /** The modal's inputs. */
  datatype EventForm = EventForm(title: string, date: string, time: string, priority: Reminders.Priority, description: string)

  function WithId(data: EventData, id: string): CalendarEvent {
    CalendarEvent(id, data.title, data.date, data.time, data.priority, data.description)
  }

  function DataOf(e: CalendarEvent): EventData {
    EventData(e.title, e.date, e.time, e.priority, e.description)
  }

  /**
   * `handleSave`: a blank title saves nothing; title and description are
   * trimmed; an empty time or a blank description is absent.
   */
  function HandleSave(form: EventForm): (r: Option<EventData>)
    ensures r.None? <==> IsBlank(form.title)
    ensures r.Some? ==> IsTrimOf(form.title, r.value.title) && r.value.title != ""
    ensures r.Some? ==> r.value.date == form.date && r.value.priority == form.priority
    ensures r.Some? ==> r.value.time == Reminders.NonEmpty(form.time)
    ensures r.Some? ==> (r.value.description == None <==> IsBlank(form.description))
    ensures r.Some? && r.value.description.Some? ==> IsTrimOf(form.description, r.value.description.value)
  {
    var title := Trim(form.title);
    if title == "" then None
    else Some(EventData(title, form.date, Reminders.NonEmpty(form.time), form.priority, Reminders.NonEmpty(Trim(form.description))))
  }

  /** `getEventsForDate`: the events on that date, in list order, each as often as listed. */
  function GetEventsForDate(events: seq<CalendarEvent>, date: string): (r: seq<CalendarEvent>)
    ensures forall e :: multiset(r)[e] == if e.date == date then multiset(events)[e] else 0
    ensures Subsequence(r, events)
  {
    Filter(events, (e: CalendarEvent) => e.date == date)
  }

  /**
   * `addEvent`: when editing, the entries with the edited id take the new data
   * and keep the id; otherwise the new event goes at the end.
   */
  function AddEvent(events: seq<CalendarEvent>, data: EventData, editId: Option<string>, freshId: string): (r: seq<CalendarEvent>)
    ensures editId.Some? ==> |r| == |events|
    ensures editId.Some? ==> forall i :: 0 <= i < |r| ==>
      && r[i].id == events[i].id
      && (events[i].id != editId.value ==> r[i] == events[i])
      && (events[i].id == editId.value ==> DataOf(r[i]) == data)
    ensures editId.None? ==> |r| == |events| + 1 && r[..|events|] == events
    ensures editId.None? ==> r[|events|].id == freshId && DataOf(r[|events|]) == data
  {
    match editId
    case Some(id) =>
      MapIf(events, (e: CalendarEvent) => e.id == id, (e: CalendarEvent) => WithId(data, id))
    case None =>
      events + [WithId(data, freshId)]
  }

  /** `deleteEvent`: drop exactly the entries with that id, keeping the order of the rest. */
  function DeleteEvent(events: seq<CalendarEvent>, id: string): (r: seq<CalendarEvent>)
    ensures forall e :: e in r <==> e in events && e.id != id
    ensures forall e :: multiset(r)[e] == if e.id != id then multiset(events)[e] else 0
    ensures Subsequence(r, events)
  {
    Filter(events, (e: CalendarEvent) => e.id != id)
  }

  /** Deleting an event just added under a fresh id gives back the list as it was. */
  lemma DeleteUndoesAdd(events: seq<CalendarEvent>, data: EventData, freshId: string)
    requires forall e :: e in events ==> e.id != freshId
    ensures DeleteEvent(AddEvent(events, data, None, freshId), freshId) == events
  {
    var keep := (e: CalendarEvent) => e.id != freshId;
    FilterAppend(events, WithId(data, freshId), keep);
    FilterKeepsAll(events, keep);
  }
}
