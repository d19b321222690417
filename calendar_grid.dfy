/**
 * The month grid shared by the date pickers: 42 cells (six weeks, Sunday first) made of
 * the tail of the previous month, the displayed month and the head of the next month;
 * the min/max disabling test; and the 12-year page of the year view.
 */
module CalendarGrid {
  import opened Options
  import opened Civil
  import Text
  import DateFormat

  /** One cell of the grid (a `CalendarDay`): a midnight instant, its day of month and flags. */
  datatype Cell = Cell(date: Instant, day: int, isCurrentMonth: bool, isToday: bool, isSelected: bool)

  /** Six rows of seven days. */
  const GridSize: nat := 42

  /** `firstDay.getDay()`: the weekday of the 1st of the displayed month. */
  function FirstWeekday(y: int, m: int): (w: int)
    requires 0 <= m < 12
    ensures 0 <= w < 7
  {
    Weekday(Date(y, m, 1))
  }

  /**
   * How a month lays out on the grid: how many days of the previous month lead it (the
   * weekday of its 1st), its own length, and the length of the previous month.
   */
  datatype Layout = Layout(lead: int, length: int, prevLength: int)

  function MonthLayout(y: int, m: int): (l: Layout)
    requires 0 <= m < 12
    ensures 0 <= l.lead < 7 && 28 <= l.length <= 31 && 28 <= l.prevLength <= 31
  {
    var (py, pm) := PreviousMonth(y, m);
    Layout(FirstWeekday(y, m), DaysInMonth(y, m), DaysInMonth(py, pm))
  }

  /** The date in cell `k` of month (y, m) laid out as `l`. */
  function LaidOutDate(y: int, m: int, l: Layout, k: int): Date
    requires 0 <= m < 12
  {
    if k < l.lead then
      var (py, pm) := PreviousMonth(y, m);
      Date(py, pm, l.prevLength - l.lead + 1 + k)
    else if k < l.lead + l.length then
      Date(y, m, k - l.lead + 1)
    else
      var (ny, nm) := FollowingMonth(y, m);
      Date(ny, nm, k - l.lead - l.length + 1)
  }

  /**
   * The date shown in cell `k`: the last `FirstWeekday` days of the previous month, then
   * the days of the displayed month, then the first days of the next month.
   */
  function GridDate(y: int, m: int, k: int): (d: Date)
    requires 0 <= m < 12 && 0 <= k < GridSize
    ensures IsValid(d)
  {
    LaidOutDate(y, m, MonthLayout(y, m), k)
  }

  /** Cell `k` of month (y, m) laid out as `l`, with its flags computed from the cell's own date. */
  function LaidOutCell(y: int, m: int, l: Layout, today: Date, selected: Option<Date>, k: int): Cell
    requires 0 <= m < 12
  {
    var d := LaidOutDate(y, m, l, k);
    Cell(Instant(d, Midnight), d.day, l.lead <= k < l.lead + l.length, d == today, selected == Some(d))
  }

  /** Cell `k` of the grid. */
  function GridCell(y: int, m: int, today: Date, selected: Option<Date>, k: int): (c: Cell)
    requires 0 <= m < 12 && 0 <= k < GridSize
    ensures c.date == Instant(GridDate(y, m, k), Midnight) && c.day == GridDate(y, m, k).day
    ensures c.isCurrentMonth <==> FirstWeekday(y, m) <= k < FirstWeekday(y, m) + DaysInMonth(y, m)
    ensures c.isToday <==> GridDate(y, m, k) == today
    ensures c.isSelected <==> selected == Some(GridDate(y, m, k))
  {
    LaidOutCell(y, m, MonthLayout(y, m), today, selected, k)
  }

  /** The grid of month `m` of year `y` as the custom and date-time pickers build it. */
  function Grid(y: int, m: int, today: Date, selected: Option<Date>): (g: seq<Cell>)
    requires 0 <= m < 12
    ensures |g| == GridSize
  {
    seq(GridSize, k requires 0 <= k < GridSize => GridCell(y, m, today, selected, k))
  }

  /**
   * The grid is contiguous: cell `k` is `k - FirstWeekday` days after the 1st of the
   * displayed month, so it starts on a Sunday and advances one day per cell.
   */
  lemma {:induction false} GridDayNumber(y: int, m: int, k: int)
    requires 0 <= m < 12 && 0 <= k < GridSize
    ensures DayNumber(GridDate(y, m, k)) == DayNumber(Date(y, m, 1)) + k - FirstWeekday(y, m)
  {
    var w := FirstWeekday(y, m);
    var n := DaysInMonth(y, m);
    if k < w {
      var (py, pm) := PreviousMonth(y, m);
      MonthNeighbours(y, m);
      FollowingMonthStart(py, pm);
    } else if k >= w + n {
      FollowingMonthStart(y, m);
    }
  }

  /** The cell the source pushes for a date: flags compare calendar dates. */
  function PushedCell(date: Instant, day: int, current: bool, today: Date, selected: Option<Date>): Cell {
    Cell(date, day, current, date.date == today, selected == Some(date.date))
  }

  /** Leading cell `lead - 1 - i` holds day `prevLength - i` of the previous month. */
  lemma LeadingLaidOut(y: int, m: int, l: Layout, today: Date, selected: Option<Date>, i: int)
    requires 0 <= m < 12 && 0 <= i < l.lead
    ensures var (py, pm) := PreviousMonth(y, m); var v := l.prevLength - i;
      LaidOutCell(y, m, l, today, selected, l.lead - 1 - i) ==
      PushedCell(Instant(Date(py, pm, v), Midnight), v, false, today, selected)
  {
  }

  /** Cell `lead + day - 1` holds day `day` of the displayed month. */
  lemma CurrentLaidOut(y: int, m: int, l: Layout, today: Date, selected: Option<Date>, day: int)
    requires 0 <= m < 12 && 1 <= day <= l.length
    ensures LaidOutCell(y, m, l, today, selected, l.lead + day - 1) ==
      PushedCell(Instant(Date(y, m, day), Midnight), day, true, today, selected)
  {
  }

  /** Cell `lead + length + day - 1` holds day `day` of the following month. */
  lemma TrailingLaidOut(y: int, m: int, l: Layout, today: Date, selected: Option<Date>, day: int)
    requires 0 <= m < 12 && 0 <= l.lead && 0 <= l.length && 1 <= day
    ensures var (ny, nm) := FollowingMonth(y, m);
      LaidOutCell(y, m, l, today, selected, l.lead + l.length + day - 1) ==
      PushedCell(Instant(Date(ny, nm, day), Midnight), day, false, today, selected)
  {
  }

  /** The leading cell pushed for `new Date(year, month - 1, prevLastDate - i)`. */
  lemma {:induction false} LeadingCell(y: int, m: int, l: Layout, today: Date, selected: Option<Date>, i: int)
    requires 0 <= m < 12 && 0 <= i < l.lead < 7
    requires l.prevLength == DaysInMonth(PreviousMonth(FullYear(y), m).0, PreviousMonth(FullYear(y), m).1)
    ensures PushedCell(MakeDate(y, m - 1, l.prevLength - i), l.prevLength - i, false, today, selected) ==
      LaidOutCell(FullYear(y), m, l, today, selected, l.lead - 1 - i)
  {
    MakeDatePrevious(y, m, l.prevLength - i);
    LeadingLaidOut(FullYear(y), m, l, today, selected, i);
  }

  /** The current-month cell pushed for `new Date(year, month, day)`. */
  lemma {:induction false} CurrentCell(y: int, m: int, l: Layout, today: Date, selected: Option<Date>, day: int)
    requires 0 <= m < 12 && 1 <= day <= l.length == DaysInMonth(FullYear(y), m)
    ensures PushedCell(MakeDate(y, m, day), day, true, today, selected) ==
      LaidOutCell(FullYear(y), m, l, today, selected, l.lead + day - 1)
  {
    MakeDateInRange(y, m, day);
    CurrentLaidOut(FullYear(y), m, l, today, selected, day);
  }

  /** The trailing cell pushed for `new Date(year, month + 1, day)`. */
  lemma {:induction false} TrailingCell(y: int, m: int, l: Layout, today: Date, selected: Option<Date>, day: int)
    requires 0 <= m < 12 && 0 <= l.lead && l.length == DaysInMonth(FullYear(y), m)
    requires 1 <= day <= GridSize - l.lead - l.length
    ensures PushedCell(MakeDate(y, m + 1, day), day, false, today, selected) ==
      LaidOutCell(FullYear(y), m, l, today, selected, l.lead + l.length + day - 1)
  {
    MakeDateFollowing(y, m, day);
    TrailingLaidOut(FullYear(y), m, l, today, selected, day);
  }

  lemma LeadingStep(y: int, m: int, l: Layout, today: Date, selected: Option<Date>, i: int, cells: seq<Cell>)
    requires 0 <= m < 12 && 0 <= i < l.lead < 7
    requires l.prevLength == DaysInMonth(PreviousMonth(FullYear(y), m).0, PreviousMonth(FullYear(y), m).1)
    requires cells == LaidOutPrefix(FullYear(y), m, l, today, selected, l.lead - 1 - i)
    ensures cells + [PushedCell(MakeDate(y, m - 1, l.prevLength - i), l.prevLength - i, false, today, selected)] ==
      LaidOutPrefix(FullYear(y), m, l, today, selected, l.lead - i)
  {
    LeadingCell(y, m, l, today, selected, i);
  }

  lemma CurrentStep(y: int, m: int, l: Layout, today: Date, selected: Option<Date>, day: int, cells: seq<Cell>)
    requires 0 <= m < 12 && 0 <= l.lead && 1 <= day <= l.length == DaysInMonth(FullYear(y), m)
    requires cells == LaidOutPrefix(FullYear(y), m, l, today, selected, l.lead + day - 1)
    ensures cells + [PushedCell(MakeDate(y, m, day), day, true, today, selected)] ==
      LaidOutPrefix(FullYear(y), m, l, today, selected, l.lead + day)
  {
    CurrentCell(y, m, l, today, selected, day);
  }

  lemma TrailingStep(y: int, m: int, l: Layout, today: Date, selected: Option<Date>, day: int, cells: seq<Cell>)
    requires 0 <= m < 12 && 0 <= l.lead && l.length == DaysInMonth(FullYear(y), m)
    requires 1 <= day <= GridSize - l.lead - l.length
    requires cells == LaidOutPrefix(FullYear(y), m, l, today, selected, l.lead + l.length + day - 1)
    ensures cells + [PushedCell(MakeDate(y, m + 1, day), day, false, today, selected)] ==
      LaidOutPrefix(FullYear(y), m, l, today, selected, l.lead + l.length + day)
  {
    TrailingCell(y, m, l, today, selected, day);
  }

  /** The first `k` cells of a laid-out month, built one cell at a time. */
  function LaidOutPrefix(y: int, m: int, l: Layout, today: Date, selected: Option<Date>, k: nat): (g: seq<Cell>)
    requires 0 <= m < 12
    ensures |g| == k
  {
    if k == 0 then [] else LaidOutPrefix(y, m, l, today, selected, k - 1) + [LaidOutCell(y, m, l, today, selected, k - 1)]
  }

  /** Pushing cell `k` onto the first `k` cells gives the first `k + 1`. */
  lemma LaidOutPrefixGrows(y: int, m: int, l: Layout, today: Date, selected: Option<Date>, k: nat, cells: seq<Cell>, c: Cell)
    requires 0 <= m < 12
    requires cells == LaidOutPrefix(y, m, l, today, selected, k)
    requires c == LaidOutCell(y, m, l, today, selected, k)
    ensures cells + [c] == LaidOutPrefix(y, m, l, today, selected, k + 1)
  {
  }

  lemma {:induction false} LaidOutPrefixCells(y: int, m: int, l: Layout, today: Date, selected: Option<Date>, k: nat)
    requires 0 <= m < 12
    ensures forall j :: 0 <= j < k ==> LaidOutPrefix(y, m, l, today, selected, k)[j] == LaidOutCell(y, m, l, today, selected, j)
  {
    if k > 0 {
      LaidOutPrefixCells(y, m, l, today, selected, k - 1);
    }
  }

  /** All 42 cells built one at a time are the grid. */
  lemma LaidOutPrefixIsGrid(y: int, m: int, today: Date, selected: Option<Date>)
    requires 0 <= m < 12
    ensures LaidOutPrefix(y, m, MonthLayout(y, m), today, selected, GridSize) == Grid(y, m, today, selected)
  {
    LaidOutPrefixCells(y, m, MonthLayout(y, m), today, selected, GridSize);
  }

  /**
   * The three numbers `generateCalendar` reads off `Date` objects before its loops:
   * `firstDay.getDay()`, `new Date(year, month + 1, 0).getDate()` and
   * `new Date(year, month, 0).getDate()`. Every constructor call reads a `year` in 0..99
   * as 1900 + year, so the numbers are those of the mapped year.
   */
  method MonthNumbers(y: int, m: int) returns (firstDayOfWeek: int, lastDateOfMonth: int, prevLastDate: int)
    requires 0 <= m < 12
    ensures Layout(firstDayOfWeek, lastDateOfMonth, prevLastDate) == MonthLayout(FullYear(y), m)
  {
    firstDayOfWeek := Weekday(MakeDate(y, m, 1).date);
    lastDateOfMonth := MakeDate(y, m + 1, 0).date.day;
    prevLastDate := MakeDate(y, m, 0).date.day;
    MakeDateInRange(y, m, 1);
    MonthEnds(FullYear(y), m);
  }

  /**
   * `generateCalendar`: read the month's numbers, then push the 42 cells. The grid drawn is
   * that of the mapped year: with year 99 shown, December 1999 is drawn.
   */
  method GenerateCalendar(y: int, m: int, today: Date, selected: Option<Date>) returns (cells: seq<Cell>)
    requires 0 <= m < 12
    ensures cells == Grid(FullYear(y), m, today, selected)
  {
    var firstDayOfWeek, lastDateOfMonth, prevLastDate := MonthNumbers(y, m);
    cells := PushCells(y, m, firstDayOfWeek, lastDateOfMonth, prevLastDate, today, selected);
    LaidOutPrefixIsGrid(FullYear(y), m, today, selected);
  }

  /**
   * The three loops of `generateCalendar`: the last `firstDayOfWeek` days of the previous
   * month, every day of the displayed month, then days of the next month up to 42 cells.
   */
  method PushCells(y: int, m: int, firstDayOfWeek: int, lastDateOfMonth: int, prevLastDate: int,
                   today: Date, selected: Option<Date>) returns (cells: seq<Cell>)
    requires 0 <= m < 12 && 0 <= firstDayOfWeek < 7
    requires lastDateOfMonth == DaysInMonth(FullYear(y), m)
    requires prevLastDate == DaysInMonth(PreviousMonth(FullYear(y), m).0, PreviousMonth(FullYear(y), m).1)
    ensures cells == LaidOutPrefix(FullYear(y), m, Layout(firstDayOfWeek, lastDateOfMonth, prevLastDate), today, selected, GridSize)
  {
    ghost var l := Layout(firstDayOfWeek, lastDateOfMonth, prevLastDate);
    ghost var fy := FullYear(y);
    cells := [];
    var i := firstDayOfWeek - 1;
    while i >= 0
      invariant -1 <= i < l.lead
      invariant cells == LaidOutPrefix(fy, m, l, today, selected, l.lead - 1 - i)
    {
      var dayValue := prevLastDate - i;
      var date := MakeDate(y, m - 1, dayValue);
      LeadingStep(y, m, l, today, selected, i, cells);
      cells := cells + [PushedCell(date, dayValue, false, today, selected)];
      i := i - 1;
    }
    var day := 1;
    while day <= lastDateOfMonth
      invariant 1 <= day <= l.length + 1
      invariant cells == LaidOutPrefix(fy, m, l, today, selected, l.lead + day - 1)
    {
      var date := MakeDate(y, m, day);
      CurrentStep(y, m, l, today, selected, day, cells);
      cells := cells + [PushedCell(date, day, true, today, selected)];
      day := day + 1;
    }
    var remainingDays := GridSize - |cells|;
    day := 1;
    while day <= remainingDays
      invariant 1 <= day <= remainingDays + 1
      invariant cells == LaidOutPrefix(fy, m, l, today, selected, l.lead + l.length + day - 1)
    {
      var date := MakeDate(y, m + 1, day);
      TrailingStep(y, m, l, today, selected, day, cells);
      cells := cells + [PushedCell(date, day, false, today, selected)];
      day := day + 1;
    }
  }

  /** Cell `k` is the 1st of the displayed month moved by `k - FirstWeekday` days. */
  lemma {:induction false} GridIsShiftedMonthStart(y: int, m: int, k: int)
    requires 0 <= m < 12 && 0 <= k < GridSize
    ensures GridDate(y, m, k) == AddDays(Date(y, m, 1), k - FirstWeekday(y, m))
  {
    GridDayNumber(y, m, k);
    AddDaysNumber(Date(y, m, 1), k - FirstWeekday(y, m));
    DayNumberInjective(GridDate(y, m, k), AddDays(Date(y, m, 1), k - FirstWeekday(y, m)));
  }

  /** Consecutive cells hold consecutive days. */
  lemma {:induction false} GridConsecutive(y: int, m: int, k: int)
    requires 0 <= m < 12 && 0 <= k && k + 1 < GridSize
    ensures DayNumber(GridDate(y, m, k + 1)) == DayNumber(GridDate(y, m, k)) + 1
  {
    GridDayNumber(y, m, k);
    GridDayNumber(y, m, k + 1);
  }

  /** Every row starts on a Sunday: cell `k` falls on weekday `k % 7`. */
  lemma {:induction false} GridWeekday(y: int, m: int, k: int)
    requires 0 <= m < 12 && 0 <= k < GridSize
    ensures Weekday(GridDate(y, m, k)) == k % 7
  {
    var w := FirstWeekday(y, m);
    GridDayNumber(y, m, k);
    WeekdayShift(Date(y, m, 1), GridDate(y, m, k), k - w);
    assert (w + (k - w)) % 7 == k % 7;
  }

  /**
   * A cell is flagged as belonging to the displayed month exactly when its date lies in
   * that month; cells before it lie in earlier months and cells after it in later ones.
   */
  lemma {:induction false} GridMonthMembership(y: int, m: int, k: int)
    requires 0 <= m < 12 && 0 <= k < GridSize
    ensures var d := GridDate(y, m, k); var w := FirstWeekday(y, m);
      (w <= k < w + DaysInMonth(y, m) <==> (d.year == y && d.month == m)) &&
      (k < w ==> d.year < y || (d.year == y && d.month < m)) &&
      (k >= w + DaysInMonth(y, m) ==> d.year > y || (d.year == y && d.month > m))
  {
    var d := GridDate(y, m, k);
    GridDayNumber(y, m, k);
    if k < FirstWeekday(y, m) {
      DayNumberOrder(d, Date(y, m, 1));
    } else if k >= FirstWeekday(y, m) + DaysInMonth(y, m) {
      DayNumberOrder(Date(y, m, DaysInMonth(y, m)), d);
    }
  }

  /** The previous month contributes 0..6 cells and the next month at least 5: 42 - len never goes negative. */
  lemma GridSegments(y: int, m: int)
    requires 0 <= m < 12
    ensures 0 <= FirstWeekday(y, m) <= 6
    ensures GridSize - FirstWeekday(y, m) - DaysInMonth(y, m) >= 5
  {
  }

  /**
   * `isDateDisabled`: before `minDate` or after `maxDate`, comparing time values; an absent
   * bound never disables.
   */
  predicate IsDateDisabled(date: Instant, minDate: Option<Instant>, maxDate: Option<Instant>)
    requires 0 <= date.date.month < 12
    requires minDate.Some? ==> 0 <= minDate.value.date.month < 12
    requires maxDate.Some? ==> 0 <= maxDate.value.date.month < 12
  {
    (minDate.Some? && TimeValue(date) < TimeValue(minDate.value)) ||
    (maxDate.Some? && TimeValue(date) > TimeValue(maxDate.value))
  }

  /**
   * A grid cell (a midnight instant) is disabled by `minDate` exactly when its day is before
   * the bound's day, or is the bound's day and the bound lies after midnight; it is disabled
   * by `maxDate` exactly when its day is after the bound's day.
   */
  lemma {:induction false} CellDisabled(d: Date, minDate: Option<Instant>, maxDate: Option<Instant>)
    requires IsValid(d)
    requires minDate.Some? ==> IsValidInstant(minDate.value)
    requires maxDate.Some? ==> IsValidInstant(maxDate.value)
    ensures IsDateDisabled(Instant(d, Midnight), minDate, maxDate) <==>
      (minDate.Some? && (DayNumber(d) < DayNumber(minDate.value.date) ||
                         (d == minDate.value.date && MsOfDay(minDate.value.time) > 0))) ||
      (maxDate.Some? && DayNumber(d) > DayNumber(maxDate.value.date))
  {
    var cell := Instant(d, Midnight);
    if minDate.Some? {
      TimeValueOrder(cell, minDate.value);
    }
    if maxDate.Some? {
      TimeValueOrder(maxDate.value, cell);
      MsOfDayBounds(maxDate.value.time);
      if DayNumber(d) == DayNumber(maxDate.value.date) {
        DayNumberInjective(d, maxDate.value.date);
      }
    }
  }

  /** The first year of the year-view page: `Math.floor(year / 12) * 12`. */
  function PageStart(year: int): int {
    (year / 12) * 12
  }

  /** `displayedYears`: the 12 consecutive years of the page holding `year`. */
  function YearPage(year: int): (page: seq<int>)
    ensures |page| == 12
    ensures forall i :: 0 <= i < 12 ==> page[i] == PageStart(year) + i
  {
    seq(12, i => PageStart(year) + i)
  }

  /** The page contains the year it was computed from, and every year of a page maps to that page. */
  lemma YearPageContains(year: int)
    ensures year in YearPage(year)
    ensures PageStart(year) % 12 == 0
    ensures forall i :: 0 <= i < 12 ==> PageStart(YearPage(year)[i]) == PageStart(year)
  {
    assert YearPage(year)[year - PageStart(year)] == year;
  }

  /** `yearRangeLabel`: "first - last". */
  function YearRangeLabel(year: int): (s: string)
    ensures s == Text.IntToString(PageStart(year)) + " - " + Text.IntToString(PageStart(year) + 11)
  {
    var page := YearPage(year);
    Text.IntToString(page[0]) + " - " + Text.IntToString(page[|page| - 1])
  }

  /** `currentView`: which panel of the picker is shown. */
  datatype View = DateView | MonthView | YearView

  /**
   * `new Date(y, m, 1)` as the pickers' navigation builds it: the 1st of month index `m`
   * (any integer, carried into the year) at midnight, with a year in 0..99 read as 1900 + year.
   */
  function MonthStartAt(y: int, m: int): (r: Instant)
    ensures IsValidInstant(r) && r.time == Midnight && r.date.day == 1
    ensures 12 * r.date.year + r.date.month == 12 * FullYear(y) + m
  {
    Instant(MonthStart(FullYear(y), m), Midnight)
  }

  /**
   * Moving to the next month and back (or back and forward) returns to the 1st of the month
   * shown, as long as neither the shown year nor the neighbouring month's year lies in 0..99.
   */
  lemma {:induction false} MonthNavigationRoundTrip(d: Date)
    requires IsValid(d) && FullYear(d.year) == d.year
    ensures var next := MonthStartAt(d.year, d.month + 1).date;
      FullYear(next.year) == next.year ==>
      MonthStartAt(next.year, next.month - 1) == Instant(Date(d.year, d.month, 1), Midnight)
    ensures var prev := MonthStartAt(d.year, d.month - 1).date;
      FullYear(prev.year) == prev.year ==>
      MonthStartAt(prev.year, prev.month + 1) == Instant(Date(d.year, d.month, 1), Midnight)
  {
    MonthStartRoundTrip(d);
  }

  /**
   * Where a year in 0..99 is reached the round trip breaks: from 1 January 100,
   * `previousMonth` shows 1 December 99, and `nextMonth` then builds `new Date(99, 12, 1)`,
   * which is 1 January 2000.
   */
  lemma {:induction false} NavigationLeavesYear100()
    ensures MonthStartAt(100, -1) == Instant(Date(99, 11, 1), Midnight)
    ensures MonthStartAt(99, 12) == Instant(Date(2000, 0, 1), Midnight)
  {
    CarryNeighbours(100, 0);
    CarryNeighbours(1999, 11);
  }

  /**
   * The next month of a month shown is the month following it in the mapped year (December
   * carries into January), and the previous month the one before it.
   */
  lemma {:induction false} NextMonthIsFollowing(d: Date)
    requires IsValid(d)
    ensures var f := FollowingMonth(FullYear(d.year), d.month);
      MonthStartAt(d.year, d.month + 1) == Instant(Date(f.0, f.1, 1), Midnight)
    ensures var p := PreviousMonth(FullYear(d.year), d.month);
      MonthStartAt(d.year, d.month - 1) == Instant(Date(p.0, p.1, 1), Midnight)
  {
    CarryNeighbours(FullYear(d.year), d.month);
  }

  /** `currentMonthYear`: the long month name and the year, e.g. "March 2024". */
  function MonthYearLabel(d: Date): string
    requires 0 <= d.month < 12
  {
    DateFormat.MonthName(d.month, true) + " " + Text.IntToString(d.year)
  }

  /**
   * `generateYears`: the loop pushing every year from `centre - span` to `centre + span`
   * (the pickers use spans of 20 and 50 around the current year).
   */
  method YearsAround(centre: int, span: nat) returns (years: seq<int>)
    ensures |years| == 2 * span + 1
    ensures forall i :: 0 <= i < |years| ==> years[i] == centre - span + i
    ensures centre in years
  {
    years := [];
    var year := centre - span;
    while year <= centre + span
      invariant centre - span <= year <= centre + span + 1
      invariant |years| == year - (centre - span)
      invariant forall i :: 0 <= i < |years| ==> years[i] == centre - span + i
    {
      years := years + [year];
      year := year + 1;
    }
    assert years[span] == centre;
  }

  /** The calendar day of the selected date, which the grid's `isSelected` flags compare against. */
  function SelectedDay(selected: Option<Instant>): Option<Date> {
    if selected.Some? then Some(selected.value.date) else None
  }

  /** `formattedDate`: '' without a selected date, otherwise the date formatted by the pipe. */
  function FormattedValue(selected: Option<Instant>, format: string): (s: string)
    requires selected.Some? ==> IsValidInstant(selected.value)
    ensures selected.None? ==> s == ""
    ensures selected.Some? ==> s == DateFormat.FormatIntended(selected.value, format)
  {
    DateFormat.Transform(if selected.Some? then DateFormat.At(selected.value) else DateFormat.Absent, format)
  }

  /**
   * The grid drawn while `display` is shown and `selected` is chosen: the shown month of the
   * mapped year, since `generateCalendar` rebuilds its dates with the constructor.
   */
  function GridFor(display: Instant, today: Date, selected: Option<Instant>): seq<Cell>
    requires 0 <= display.date.month < 12
  {
    Grid(FullYear(display.date.year), display.date.month, today, SelectedDay(selected))
  }
}
