/**
 * The date picker (`finzly-date-picker`): a calendar dropdown over a `displayDate`, a
 * `selectedDate` kept at noon, three views (days, months, years) and cached labels.
 * The grid it draws is `CalendarGrid.Grid`; `AsWrittenGrid` records the flags the
 * component computes for cells of the neighbouring months, which differ in January and
 * December.
 */
module DatePicker {
  import opened Options
  import opened Civil
  import opened CalendarGrid
  import DateFormat
  import Text

  /** 12:00:00.000, the time of day every selected date is moved to. */
  const Noon: Time := Time(12, 0, 0, 0)

  /**
   * `createLocalDate`: `new Date(year, month, date, 12, 0, 0, 0)`, the same calendar day at
   * noon; the constructor reads a year in 0..99 as 1900 + year, and 29 February of year 0
   * becomes 1 March 1900.
   */
  function CreateLocalDate(src: Instant): (r: Instant)
    requires IsValidInstant(src)
    ensures IsValidInstant(r) && r.time == Noon
    ensures !(0 <= src.date.year <= 99) ==> r.date == src.date
    ensures var y := src.date.year + 1900; 0 <= src.date.year <= 99 && IsValid(Date(y, src.date.month, src.date.day)) ==>
      r.date == Date(y, src.date.month, src.date.day)
    ensures 0 <= src.date.year <= 99 && !IsValid(Date(src.date.year + 1900, src.date.month, src.date.day)) ==>
      r.date == Date(1900, 2, 1)
  {
    RebuiltDate(src.date);
    Instant(Normalise(FullYear(src.date.year), src.date.month, src.date.day), Noon)
  }

  /** A valid date rebuilt by the constructor: kept, moved to 1900 + year, or 29 February 1900 overflowed. */
  lemma RebuiltDate(d: Date)
    requires IsValid(d)
    ensures !(0 <= d.year <= 99) ==> Normalise(FullYear(d.year), d.month, d.day) == d
    ensures 0 <= d.year <= 99 && IsValid(Date(d.year + 1900, d.month, d.day)) ==>
      Normalise(FullYear(d.year), d.month, d.day) == Date(d.year + 1900, d.month, d.day)
    ensures 0 <= d.year <= 99 && !IsValid(Date(d.year + 1900, d.month, d.day)) ==>
      Normalise(FullYear(d.year), d.month, d.day) == Date(1900, 2, 1)
  {
    var y := FullYear(d.year);
    if IsValid(Date(y, d.month, d.day)) {
      NormaliseInRange(y, d.month, d.day);
    } else {
      CarryNeighbours(y, d.month);
      NormaliseDayOverflow(y, d.month, d.day);
    }
  }

  // The flags as `generateCalendar` writes them

  /**
   * The month index the component compares for cell `k`: `month - 1` for the leading
   * cells, `month` for the displayed month and `month + 1` for the trailing cells, with no
   * carry into the year.
   */
  function AsWrittenMonthIndex(m: int, l: Layout, k: int): int {
    if k < l.lead then m - 1 else if k < l.lead + l.length then m else m + 1
  }

  /** Day, month index and year compared one by one against `target`, as the component does. */
  predicate RawMatch(dayValue: int, monthValue: int, year: int, target: Date) {
    dayValue == target.day && monthValue == target.month && year == target.year
  }

  /**
   * Cell `k` as the component builds it: the date of the mapped year's grid, but flags from
   * `RawMatch` against the year as shown.
   */
  function AsWrittenCell(y: int, m: int, today: Date, selected: Option<Date>, k: int): Cell
    requires 0 <= m < 12 && 0 <= k < GridSize
  {
    var c := GridCell(FullYear(y), m, today, selected, k);
    var mv := AsWrittenMonthIndex(m, MonthLayout(FullYear(y), m), k);
    c.(isToday := RawMatch(c.day, mv, y, today),
       isSelected := selected.Some? && RawMatch(c.day, mv, y, selected.value))
  }

  /** `generateCalendar` as written. */
  function AsWrittenGrid(y: int, m: int, today: Date, selected: Option<Date>): (g: seq<Cell>)
    requires 0 <= m < 12
    ensures |g| == GridSize
  {
    seq(GridSize, k requires 0 <= k < GridSize => AsWrittenCell(y, m, today, selected, k))
  }

  /**
   * From February to November the neighbouring months share the year, and the flags are
   * right, for a year the constructor keeps.
   */
  lemma AsWrittenAgreesInsideYear(y: int, m: int, today: Date, selected: Option<Date>)
    requires 0 < m < 11 && FullYear(y) == y
    ensures AsWrittenGrid(y, m, today, selected) == Grid(y, m, today, selected)
  {
    forall k | 0 <= k < GridSize
      ensures AsWrittenGrid(y, m, today, selected)[k] == Grid(y, m, today, selected)[k]
    {
    }
  }

  /**
   * In January the leading cells compare month -1, and in December the trailing cells
   * compare month 12: no valid date has either, so those cells are never flagged.
   */
  lemma AsWrittenMissesOtherYear(y: int, m: int, today: Date, selected: Option<Date>, k: int)
    requires 0 <= m < 12 && 0 <= k < GridSize
    requires IsValid(today) && (selected.Some? ==> IsValid(selected.value))
    requires (m == 0 && k < FirstWeekday(FullYear(y), m)) || (m == 11 && k >= FirstWeekday(FullYear(y), m) + DaysInMonth(FullYear(y), m))
    ensures !AsWrittenGrid(y, m, today, selected)[k].isToday
    ensures !AsWrittenGrid(y, m, today, selected)[k].isSelected
  {
  }

  /** January 1970 starts on a Thursday and follows a 31-day December. */
  lemma January1970Layout()
    ensures MonthLayout(1970, 0) == Layout(4, 31, 31)
  {
    assert DayNumber(Date(1970, 0, 1)) == 0;
  }

  /** Cell 3 of January 1970 is 31 December 1969, and the component compares it with month -1. */
  lemma January1970Cell3()
    ensures GridDate(1970, 0, 3) == Date(1969, 11, 31)
    ensures AsWrittenMonthIndex(0, MonthLayout(1970, 0), 3) == -1
  {
    January1970Layout();
  }

  /**
   * With January 1970 shown and today 31 December 1969, cell 3 shows today's date, yet
   * the component leaves it unflagged.
   */
  lemma NewYearsEveNotFlagged()
    ensures Grid(1970, 0, Date(1969, 11, 31), None)[3].isToday
    ensures !AsWrittenGrid(1970, 0, Date(1969, 11, 31), None)[3].isToday
  {
    January1970Cell3();
    assert Grid(1970, 0, Date(1969, 11, 31), None)[3] == GridCell(1970, 0, Date(1969, 11, 31), None, 3);
    assert AsWrittenGrid(1970, 0, Date(1969, 11, 31), None)[3] == AsWrittenCell(1970, 0, Date(1969, 11, 31), None, 3);
  }

  /** The four values `updateCachedValues` keeps: `_formattedDate`, `_currentMonthYear`, `_displayedYears`, `_yearRangeLabel`. */
  datatype Labels = Labels(formattedDate: string, currentMonthYear: string, displayedYears: seq<int>, yearRangeLabel: string)

  /** The labels before the first `updateCachedValues`. */
  const NoLabels: Labels := Labels("", "", [], "")

  /**
   * What `updateCachedValues` computes: the formatted selection, "Month year" of the shown
   * month, the 12-year page holding the shown year, and that page's "first - last" label.
   */
  function LabelsFor(selected: Option<Instant>, display: Instant, format: string): (l: Labels)
    requires IsValidInstant(display) && (selected.Some? ==> IsValidInstant(selected.value))
    ensures selected.None? ==> l.formattedDate == ""
    ensures display.date.year in l.displayedYears && |l.displayedYears| == 12
    ensures l.displayedYears[0] == PageStart(display.date.year) && PageStart(display.date.year) % 12 == 0
    ensures l.yearRangeLabel == Text.IntToString(l.displayedYears[0]) + " - " + Text.IntToString(l.displayedYears[11])
  {
    YearPageContains(display.date.year);
    Labels(FormattedValue(selected, format), MonthYearLabel(display.date), YearPage(display.date.year),
           YearRangeLabel(display.date.year))
  }

  /** The date picker component. */
  class DatePicker {
    // Inputs: the bounds and the format are bound once; `disabled` also follows `setDisabledState`
    const minDate: Option<Instant>
    const maxDate: Option<Instant>
    const format: string
    var disabled: bool

    // State
    var selectedDate: Option<Instant>
    var displayDate: Instant
    var isCalendarOpen: bool
    var calendarDays: seq<Cell>
    var currentView: View
    var years: seq<int>

    /** The cached labels the getters `formattedDate`, `currentMonthYear`, `displayedYears` and `yearRangeLabel` return. */
    var labels: Labels

    /** The values handed to the registered `onChange` callback, oldest first. */
    var changes: seq<Option<Instant>>
    /** How many times the registered `onTouched` callback has run. */
    var touches: nat

    /** Every date held is a real date, and a selected date is at noon. */
    ghost predicate Valid()
      reads this`displayDate, this`selectedDate
    {
      IsValidInstant(displayDate) &&
      (selectedDate.Some? ==> IsValidInstant(selectedDate.value) && selectedDate.value.time == Noon) &&
      (minDate.Some? ==> IsValidInstant(minDate.value)) &&
      (maxDate.Some? ==> IsValidInstant(maxDate.value))
    }

    /** The component as constructed: nothing selected, `displayDate` is now, caches empty. */
    constructor (now: Instant, disabled: bool, minDate: Option<Instant>, maxDate: Option<Instant>, format: string)
      requires IsValidInstant(now)
      requires minDate.Some? ==> IsValidInstant(minDate.value)
      requires maxDate.Some? ==> IsValidInstant(maxDate.value)
      ensures Valid()
      ensures this.disabled == disabled && this.minDate == minDate && this.maxDate == maxDate && this.format == format
      ensures selectedDate == None && displayDate == now && !isCalendarOpen && currentView == DateView
      ensures calendarDays == [] && years == [] && changes == [] && touches == 0
      ensures labels == NoLabels
    {
      this.disabled := disabled;
      this.minDate := minDate;
      this.maxDate := maxDate;
      this.format := format;
      selectedDate := None;
      displayDate := now;
      isCalendarOpen := false;
      calendarDays := [];
      currentView := DateView;
      years := [];
      labels := NoLabels;
      changes := [];
      touches := 0;
    }

    /** `ngOnInit`: draw the grid, list the years 20 either side of today's, fill the caches. */
    method NgOnInit(today: Date)
      requires Valid()
      modifies this`calendarDays, this`years, this`labels
      ensures Valid() && calendarDays == GridFor(displayDate, today, selectedDate) && labels == LabelsFor(selectedDate, displayDate, format)
      ensures |years| == 41 && forall i :: 0 <= i < 41 ==> years[i] == today.year - 20 + i
    {
      GenerateCalendar(today);
      years := YearsAround(today.year, 20);
      UpdateCachedValues();
    }

    /** `generateCalendar`, with the clock's date passed in as `today`. */
    method GenerateCalendar(today: Date)
      requires Valid()
      modifies this`calendarDays
      ensures Valid() && calendarDays == GridFor(displayDate, today, selectedDate)
    {
      calendarDays := CalendarGrid.GenerateCalendar(displayDate.date.year, displayDate.date.month,
                                                     today, SelectedDay(selectedDate));
    }

    /** `updateCachedValues`. */
    method UpdateCachedValues()
      requires Valid()
      modifies this`labels
      ensures Valid() && labels == LabelsFor(selectedDate, displayDate, format)
    {
      labels := LabelsFor(selectedDate, displayDate, format);
    }

    /** The `generateCalendar(); updateCachedValues();` pair that follows every change of date. */
    method Refresh(today: Date)
      requires Valid()
      modifies this`calendarDays, this`labels
      ensures Valid() && calendarDays == GridFor(displayDate, today, selectedDate) && labels == LabelsFor(selectedDate, displayDate, format)
    {
      GenerateCalendar(today);
      UpdateCachedValues();
    }

    /** `writeValue`: a given date is selected at noon and shown; no date clears the selection. */
    method WriteValue(value: Option<Instant>, today: Date)
      requires Valid() && (value.Some? ==> IsValidInstant(value.value))
      modifies this`selectedDate, this`displayDate, this`calendarDays, this`labels
      ensures Valid() && calendarDays == GridFor(displayDate, today, selectedDate) && labels == LabelsFor(selectedDate, displayDate, format)
      ensures value.None? ==> selectedDate == None && displayDate == old(displayDate)
      ensures value.Some? ==> selectedDate == Some(CreateLocalDate(value.value)) && displayDate == selectedDate.value
    {
      if value.Some? {
        selectedDate := Some(CreateLocalDate(value.value));
        displayDate := selectedDate.value;
      } else {
        selectedDate := None;
      }
      Refresh(today);
    }

    /** `toggleCalendar`: ignored while disabled; closing reports a touch. */
    method ToggleCalendar()
      modifies this`isCalendarOpen, this`touches
      ensures disabled ==> isCalendarOpen == old(isCalendarOpen) && touches == old(touches)
      ensures !disabled ==> isCalendarOpen == !old(isCalendarOpen)
      ensures !disabled ==> touches == old(touches) + (if isCalendarOpen then 0 else 1)
    {
      if !disabled {
        isCalendarOpen := !isCalendarOpen;
        if !isCalendarOpen {
          touches := touches + 1;
        }
      }
    }

    /** `closeCalendar`: closed, back to the day view, and a touch reported. */
    method CloseCalendar()
      modifies this`isCalendarOpen, this`currentView, this`touches
      ensures !isCalendarOpen && currentView == DateView && touches == old(touches) + 1
    {
      isCalendarOpen := false;
      currentView := DateView;
      touches := touches + 1;
    }

    /**
     * `selectDate`: a cell of the displayed month that is not disabled becomes the selection
     * (at noon), is reported to `onChange`, and the calendar closes; any other cell is ignored.
     */
    method SelectDate(day: Cell, today: Date)
      requires Valid() && IsValidInstant(day.date)
      modifies this`selectedDate, this`changes, this`calendarDays, this`labels,
               this`isCalendarOpen, this`currentView, this`touches
      ensures Valid()
      ensures !day.isCurrentMonth || IsDateDisabled(day.date, minDate, maxDate) ==>
        selectedDate == old(selectedDate) && changes == old(changes) && calendarDays == old(calendarDays) &&
        isCalendarOpen == old(isCalendarOpen) && currentView == old(currentView) && touches == old(touches) &&
        labels == old(labels)
      ensures day.isCurrentMonth && !IsDateDisabled(day.date, minDate, maxDate) ==>
        selectedDate == Some(CreateLocalDate(day.date)) && changes == old(changes) + [selectedDate] &&
        calendarDays == GridFor(displayDate, today, selectedDate) && labels == LabelsFor(selectedDate, displayDate, format) &&
        !isCalendarOpen && currentView == DateView && touches == old(touches) + 1
    {
      if day.isCurrentMonth && !IsDateDisabled(day.date, minDate, maxDate) {
        selectedDate := Some(CreateLocalDate(day.date));
        changes := changes + [selectedDate];
        Refresh(today);
        CloseCalendar();
      }
    }

    /** `previousMonth`: the 1st of the month before the one shown. */
    method PreviousMonth(today: Date)
      requires Valid()
      modifies this`displayDate, this`calendarDays, this`labels
      ensures Valid() && calendarDays == GridFor(displayDate, today, selectedDate) && labels == LabelsFor(selectedDate, displayDate, format)
      ensures displayDate == MonthStartAt(old(displayDate).date.year, old(displayDate).date.month - 1)
    {
      displayDate := MonthStartAt(displayDate.date.year, displayDate.date.month - 1);
      Refresh(today);
    }

    /** `nextMonth`: the 1st of the month after the one shown. */
    method NextMonth(today: Date)
      requires Valid()
      modifies this`displayDate, this`calendarDays, this`labels
      ensures Valid() && calendarDays == GridFor(displayDate, today, selectedDate) && labels == LabelsFor(selectedDate, displayDate, format)
      ensures displayDate == MonthStartAt(old(displayDate).date.year, old(displayDate).date.month + 1)
    {
      displayDate := MonthStartAt(displayDate.date.year, displayDate.date.month + 1);
      Refresh(today);
    }

    /**
     * `goToToday`: show the current instant, select today at noon, report it, and close
     * in the day view.
     */
    method GoToToday(now: Instant)
      requires Valid() && IsValidInstant(now)
      modifies this`displayDate, this`selectedDate, this`changes, this`calendarDays, this`labels,
               this`isCalendarOpen, this`currentView, this`touches
      ensures Valid() && calendarDays == GridFor(displayDate, now.date, selectedDate) && labels == LabelsFor(selectedDate, displayDate, format)
      ensures displayDate == now && selectedDate == Some(CreateLocalDate(now))
      ensures changes == old(changes) + [selectedDate]
      ensures !isCalendarOpen && currentView == DateView && touches == old(touches) + 1
    {
      displayDate := now;
      selectedDate := Some(CreateLocalDate(now));
      changes := changes + [selectedDate];
      Refresh(now.date);
      currentView := DateView;
      CloseCalendar();
    }

    method SwitchToYearView()
      modifies this`currentView
      ensures currentView == YearView
    {
      currentView := YearView;
    }

    method SwitchToMonthView()
      modifies this`currentView
      ensures currentView == MonthView
    {
      currentView := MonthView;
    }

    method SwitchToDateView()
      modifies this`currentView
      ensures currentView == DateView
    {
      currentView := DateView;
    }

    /** `selectYear`: the 1st of the shown month in `year`, then the month view. */
    method SelectYear(year: int, today: Date)
      requires Valid()
      modifies this`displayDate, this`calendarDays, this`labels, this`currentView
      ensures Valid() && calendarDays == GridFor(displayDate, today, selectedDate) && labels == LabelsFor(selectedDate, displayDate, format)
      ensures displayDate == Instant(Date(FullYear(year), old(displayDate).date.month, 1), Midnight)
      ensures currentView == MonthView
    {
      displayDate := MonthStartAt(year, displayDate.date.month);
      Refresh(today);
      currentView := MonthView;
    }

    /** `selectMonth`: the 1st of month index `monthIndex` (carried into the year), then the day view. */
    method SelectMonth(monthIndex: int, today: Date)
      requires Valid()
      modifies this`displayDate, this`calendarDays, this`labels, this`currentView
      ensures Valid() && calendarDays == GridFor(displayDate, today, selectedDate) && labels == LabelsFor(selectedDate, displayDate, format)
      ensures displayDate == MonthStartAt(old(displayDate).date.year, monthIndex)
      ensures 0 <= monthIndex < 12 ==> displayDate.date == Date(FullYear(old(displayDate).date.year), monthIndex, 1)
      ensures currentView == DateView
    {
      displayDate := MonthStartAt(displayDate.date.year, monthIndex);
      Refresh(today);
      currentView := DateView;
    }

    /**
     * `previousYear`, `nextYear`, `previousYearRange` and `nextYearRange`: move the shown
     * month by `delta` years (-1, 1, -12 or 12) to its 1st and refresh the caches; the grid
     * is not redrawn.
     */
    method ShiftYears(delta: int)
      requires Valid()
      modifies this`displayDate, this`labels
      ensures Valid() && labels == LabelsFor(selectedDate, displayDate, format)
      ensures displayDate == Instant(Date(FullYear(old(displayDate).date.year + delta), old(displayDate).date.month, 1), Midnight)
    {
      displayDate := MonthStartAt(displayDate.date.year + delta, displayDate.date.month);
      UpdateCachedValues();
    }

    method PreviousYear()
      requires Valid()
      modifies this`displayDate, this`labels
      ensures Valid() && labels == LabelsFor(selectedDate, displayDate, format)
      ensures displayDate == Instant(Date(FullYear(old(displayDate).date.year - 1), old(displayDate).date.month, 1), Midnight)
    {
      ShiftYears(-1);
    }

    method NextYear()
      requires Valid()
      modifies this`displayDate, this`labels
      ensures Valid() && labels == LabelsFor(selectedDate, displayDate, format)
      ensures displayDate == Instant(Date(FullYear(old(displayDate).date.year + 1), old(displayDate).date.month, 1), Midnight)
    {
      ShiftYears(1);
    }

    method PreviousYearRange()
      requires Valid()
      modifies this`displayDate, this`labels
      ensures Valid() && labels == LabelsFor(selectedDate, displayDate, format)
      ensures displayDate == Instant(Date(FullYear(old(displayDate).date.year - 12), old(displayDate).date.month, 1), Midnight)
      ensures labels.displayedYears == YearPage(FullYear(old(displayDate).date.year - 12))
    {
      ShiftYears(-12);
    }

    method NextYearRange()
      requires Valid()
      modifies this`displayDate, this`labels
      ensures Valid() && labels == LabelsFor(selectedDate, displayDate, format)
      ensures displayDate == Instant(Date(FullYear(old(displayDate).date.year + 12), old(displayDate).date.month, 1), Midnight)
      ensures labels.displayedYears == YearPage(FullYear(old(displayDate).date.year + 12))
    {
      ShiftYears(12);
    }
  }
}
