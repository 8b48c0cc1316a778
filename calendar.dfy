/** The month calendar of the date picker (src/components/ui/calendar.tsx): the grid
    of week rows covering the shown month, the per-day flags, the click rule and the
    month navigation. Days are local day numbers (day 0 is Thursday 1 January 1970),
    instants are local milliseconds, and a month is a month index counted from
    January 1970 (negative before it). */
module CalendarGrid {
  import opened Common

  const DayMs: int := 86400000

  predicate IsLeapYear(y: int)
  {
    y % 4 == 0 && (y % 100 != 0 || y % 400 == 0)
  }

  /** The calendar year of month index `k`. */
  function YearOf(k: int): int
  {
    1970 + k / 12
  }

  /** The number of days of month index `k` (months 0-based: 1 is February). */
  function DaysInMonth(k: int): (n: nat)
    ensures 28 <= n <= 31
  {
    var m := k % 12;
    if m == 1 then (if IsLeapYear(YearOf(k)) then 29 else 28)
    else if m == 3 || m == 5 || m == 8 || m == 10 then 30
    else 31
  }

  /** `startOfMonth`: the day number of the first day of month index `k`. */
  function MonthFirstDay(k: int): int
    decreases if k >= 0 then k else -k
  {
    if k == 0 then 0
    else if k > 0 then MonthFirstDay(k - 1) + DaysInMonth(k - 1)
    else MonthFirstDay(k + 1) - DaysInMonth(k)
  }

  /** Months tile the day line: each month starts the day after the previous one ends. */
  lemma MonthsAreConsecutive(k: int)
    ensures MonthFirstDay(k + 1) == MonthFirstDay(k) + DaysInMonth(k)
  {
  }

  /** `endOfMonth`, as the day number of the month's last day. */
  function MonthLastDay(k: int): int
  {
    MonthFirstDay(k) + DaysInMonth(k) - 1
  }

  /** `isSameMonth(day, monthStart)`. */
  predicate InMonth(d: int, k: int)
  {
    MonthFirstDay(k) <= d <= MonthLastDay(k)
  }

  /** The day of the week, 0 for Sunday. */
  function Weekday(d: int): (w: nat)
    ensures w < 7
  {
    (d + 4) % 7
  }

  /** `startOfWeek`: the Sunday on or before `d`. */
  function StartOfWeek(d: int): (s: int)
    ensures s <= d < s + 7 && Weekday(s) == 0
  {
    d - Weekday(d)
  }

  /** `endOfWeek`: the Saturday on or after `d`. */
  function EndOfWeek(d: int): (e: int)
    ensures e - 7 < d <= e && Weekday(e) == 6
  {
    d + 6 - Weekday(d)
  }

  /** One day cell and the flags the component computes for it. */
  datatype Cell = Cell(day: int, isDisabled: bool, isSelected: bool, isCurrentMonth: bool)

  /** The cell of day `d` when month `k` is shown: disabled when its midnight is
      before `minDate`, selected when it is the selected day, and marked as being in
      the shown month or not. */
  function MakeCell(d: int, k: int, minDate: int, selected: Option<int>): Cell
  {
    Cell(d, d * DayMs < minDate, selected == Some(d), InMonth(d, k))
  }

  /** The seven cells of the week starting at `start`. */
  function WeekRow(start: int, k: int, minDate: int, selected: Option<int>): seq<Cell>
  {
    seq(7, i => MakeCell(start + i, k, minDate, selected))
  }

  /** The first `n` week rows from `first`. */
  function WeekRows(first: int, n: nat, k: int, minDate: int, selected: Option<int>): seq<seq<Cell>>
  {
    if n == 0 then [] else WeekRows(first, n - 1, k, minDate, selected) + [WeekRow(first + 7 * (n - 1), k, minDate, selected)]
  }

  /** The first day of the grid of month `k`. */
  function GridStart(k: int): int
  {
    StartOfWeek(MonthFirstDay(k))
  }

  /** The number of weeks from the week of the month's first day to the week of its last. */
  function WeekCount(k: int): nat
  {
    (EndOfWeek(MonthLastDay(k)) - GridStart(k) + 1) / 7
  }

  /** The Sunday on or before `d` and the Saturday on or after it, written with the
      index of `d`'s week counted from the Sunday before day 0. */
  lemma WeekBounds(d: int)
    ensures StartOfWeek(d) == 7 * ((d + 4) / 7) - 4
    ensures EndOfWeek(d) == 7 * ((d + 4) / 7) + 2
  {
  }

  lemma DivideMultiple(n: int)
    ensures (7 * n) / 7 == n
  {
  }

  /** The grid runs from a Sunday to a Saturday, so it is a whole number of weeks. */
  lemma WeekCountExact(k: int)
    ensures GridStart(k) + 7 * WeekCount(k) == EndOfWeek(MonthLastDay(k)) + 1
  {
    var s, e := MonthFirstDay(k), MonthLastDay(k);
    WeekBounds(s);
    WeekBounds(e);
    var n := (e + 4) / 7 - (s + 4) / 7 + 1;
    assert EndOfWeek(e) - GridStart(k) + 1 == 7 * n;
    DivideMultiple(n);
  }

  /** The grid of month `k`. */
  function MonthGrid(k: int, minDate: int, selected: Option<int>): seq<seq<Cell>>
  {
    WeekRows(GridStart(k), WeekCount(k), k, minDate, selected)
  }

  lemma {:induction false} WeekRowsElements(first: int, n: nat, k: int, minDate: int, selected: Option<int>)
    ensures |WeekRows(first, n, k, minDate, selected)| == n
    ensures forall r :: 0 <= r < n ==> |WeekRows(first, n, k, minDate, selected)[r]| == 7
    ensures forall r, c :: 0 <= r < n && 0 <= c < 7 ==>
      WeekRows(first, n, k, minDate, selected)[r][c] == MakeCell(first + 7 * r + c, k, minDate, selected)
  {
    if n > 0 {
      WeekRowsElements(first, n - 1, k, minDate, selected);
      var prev := WeekRows(first, n - 1, k, minDate, selected);
      assert WeekRows(first, n, k, minDate, selected) == prev + [WeekRow(first + 7 * (n - 1), k, minDate, selected)];
      forall r, c | 0 <= r < n && 0 <= c < 7
        ensures WeekRows(first, n, k, minDate, selected)[r][c] == MakeCell(first + 7 * r + c, k, minDate, selected)
      {
        if r < n - 1 {
          assert WeekRows(first, n, k, minDate, selected)[r] == prev[r];
        }
      }
    }
  }

  /** The grid of month `k`: whole weeks, Sunday to Saturday, of consecutive days,
      from the week of the month's first day to the week of its last; each cell's
      flags follow its day. */
  lemma MonthGridShape(k: int, minDate: int, selected: Option<int>)
    ensures var g := MonthGrid(k, minDate, selected);
      && |g| == WeekCount(k) >= 4
      && (forall r :: 0 <= r < |g| ==> |g[r]| == 7)
      && g[0][0].day == StartOfWeek(MonthFirstDay(k)) <= MonthFirstDay(k)
      && g[|g| - 1][6].day == EndOfWeek(MonthLastDay(k)) >= MonthLastDay(k)
      && Weekday(g[0][0].day) == 0
      && (forall r, c :: 0 <= r < |g| && 0 <= c < 7 ==> g[r][c].day == g[0][0].day + 7 * r + c)
      && (forall r, c :: 0 <= r < |g| && 0 <= c < 7 ==>
            && (g[r][c].isDisabled <==> g[r][c].day * DayMs < minDate)
            && (g[r][c].isSelected <==> selected == Some(g[r][c].day))
            && (g[r][c].isCurrentMonth <==> InMonth(g[r][c].day, k)))
  {
    WeekRowsElements(GridStart(k), WeekCount(k), k, minDate, selected);
    WeekCountExact(k);
  }

  /** Every day of the shown month has exactly one cell, and cells run in increasing
      day order, row by row and left to right. */
  lemma MonthDaysOnce(k: int, minDate: int, selected: Option<int>)
    ensures var g := MonthGrid(k, minDate, selected);
      && (forall d :: InMonth(d, k) ==>
            exists r, c :: 0 <= r < |g| && 0 <= c < 7 && c < |g[r]| && g[r][c].day == d && g[r][c].isCurrentMonth)
      && (forall r1, c1, r2, c2 ::
            0 <= r1 < |g| && 0 <= c1 < 7 && 0 <= r2 < |g| && 0 <= c2 < 7 && (r1 < r2 || (r1 == r2 && c1 < c2)) ==>
            c1 < |g[r1]| && c2 < |g[r2]| && g[r1][c1].day < g[r2][c2].day)
  {
    var g: seq<seq<Cell>> := MonthGrid(k, minDate, selected);
    var first := GridStart(k);
    WeekRowsElements(first, WeekCount(k), k, minDate, selected);
    WeekCountExact(k);
    forall d: int | InMonth(d, k)
      ensures exists r: int, c: int :: 0 <= r < |g| && 0 <= c < 7 && c < |g[r]| && g[r][c].day == d && g[r][c].isCurrentMonth
    {
      var r, c := (d - first) / 7, (d - first) % 7;
      assert d == first + 7 * r + c;
      assert g[r][c].day == d;
    }
  }

  /** The value handed to `onSelect` by a click on a cell, if any: only a day of the
      shown month that is not disabled is selectable. */
  function Click(c: Cell): (r: Option<int>)
    ensures r.Some? <==> !c.isDisabled && c.isCurrentMonth
    ensures r.Some? ==> r.value == c.day
  {
    if !c.isDisabled && c.isCurrentMonth then Some(c.day) else None
  }

  /** A click on a grid cell selects its day exactly when the day is in the shown
      month and its midnight is not before `minDate`. */
  lemma ClickSelectsOnlyOpenDays(k: int, minDate: int, selected: Option<int>, r: nat, c: nat)
    requires r < |MonthGrid(k, minDate, selected)| && c < 7
    ensures c < |MonthGrid(k, minDate, selected)[r]|
    ensures var cell := MonthGrid(k, minDate, selected)[r][c];
      Click(cell).Some? <==> InMonth(cell.day, k) && cell.day * DayMs >= minDate
  {
    WeekRowsElements(GridStart(k), WeekCount(k), k, minDate, selected);
  }

  /** The calendar's state: the shown month (`currentMonth`) and its props. */
  class Calendar {
    var currentMonth: int
    const minDate: int
    const selected: Option<int>

    /** A calendar opened on month `thisMonth`, with `minDate` and `selected` as given
        (the default `minDate` is the current instant, `now`). */
    constructor (thisMonth: int, minDateProp: Option<int>, now: int, selectedProp: Option<int>)
      ensures currentMonth == thisMonth && selected == selectedProp
      ensures minDate == if minDateProp.Some? then minDateProp.value else now
    {
      currentMonth := thisMonth;
      minDate := if minDateProp.Some? then minDateProp.value else now;
      selected := selectedProp;
    }

    /** The render loop: weeks of seven cells from the Sunday on or before the
        month's first day while the day is not past the Saturday after its last. */
    method BuildRows() returns (rows: seq<seq<Cell>>)
      ensures rows == MonthGrid(currentMonth, minDate, selected)
    {
      var k := currentMonth;
      var monthStart := MonthFirstDay(k);
      var monthEnd := MonthLastDay(k);
      var startDate := StartOfWeek(monthStart);
      var endDate := EndOfWeek(monthEnd);
      WeekCountExact(k);
      rows := [];
      var days: seq<Cell> := [];
      var day := startDate;
      while day <= endDate
        invariant day == startDate + 7 * |rows| && |rows| <= WeekCount(k)
        invariant rows == WeekRows(startDate, |rows|, k, minDate, selected)
        invariant days == []
        decreases endDate - day
      {
        for i := 0 to 7
          invariant day == startDate + 7 * |rows| + i
          invariant |days| == i
          invariant forall j :: 0 <= j < i ==> days[j] == MakeCell(startDate + 7 * |rows| + j, k, minDate, selected)
        {
          var isDisabled := day * DayMs < minDate;
          var isSelected := selected.Some? && selected.value == day;
          var isCurrentMonth := InMonth(day, k);
          days := days + [Cell(day, isDisabled, isSelected, isCurrentMonth)];
          day := day + 1;
        }
        assert days == WeekRow(startDate + 7 * |rows|, k, minDate, selected);
        rows := rows + [days];
        days := [];
      }
    }

    /** `prevMonth`. */
    method PrevMonth()
      modifies this
      ensures currentMonth == old(currentMonth) - 1
    {
      currentMonth := currentMonth - 1;
    }

    /** `nextMonth`. */
    method NextMonth()
      modifies this
      ensures currentMonth == old(currentMonth) + 1
    {
      currentMonth := currentMonth + 1;
    }
  }

  /** The month before `k` ends the day before `k` starts, and the month after `k`
      starts the day after `k` ends: navigation never skips or repeats a day. */
  lemma NavigationIsAdjacent(k: int)
    ensures MonthLastDay(k - 1) + 1 == MonthFirstDay(k)
    ensures MonthFirstDay(k + 1) == MonthLastDay(k) + 1
  {
    MonthsAreConsecutive(k - 1);
    MonthsAreConsecutive(k);
  }
}
