/**
 * The date-time picker (`finzly-date-time-picker`): the shared 42-cell calendar plus a
 * clock (hour, minute and, on a 12-hour clock, AM/PM). Every change of the clock or of the
 * day combines the day shown with the clock's time into the selected value.
 */
module DateTimePicker {
  import opened Options
  import opened Civil
  import opened CalendarGrid
  import opened ClockTime

  /** The picker's clock fields `hour`, `minute` and `period`. */
  datatype ClockFace = ClockFace(hour: int, minute: int, period: Period)

  /** The clock shows a time the steppers can reach. */
  predicate FaceInRange(c: ClockFace, use24Hour: bool) {
    HourInRange(c.hour, use24Hour) && 0 <= c.minute < 60
  }

  /**
   * `extractTime`: on a 24-hour clock the hour as it is, with the period left alone; on a
   * 12-hour clock hour 0 shows as 12 and 13..23 as 1..11, and the period is PM from noon on.
   */
  function ExtractTime(t: Time, use24Hour: bool, period: Period): (c: ClockFace)
    requires IsValidTime(t)
    ensures FaceInRange(c, use24Hour) && c.minute == t.minute
    ensures use24Hour ==> c.hour == t.hour && c.period == period
    ensures !use24Hour ==> (c.period.PM? <==> t.hour >= 12) && c.hour % 12 == t.hour % 12
  {
    var hour := if use24Hour then t.hour
                else if t.hour == 0 then 12
                else if t.hour > 12 then t.hour - 12
                else t.hour;
    var p := if use24Hour then period else if t.hour >= 12 then PM else AM;
    ClockFace(hour, t.minute, p)
  }

  /**
   * The hour `combineDateTime` passes to `setHours`: on a 12-hour clock PM adds 12 except
   * to 12, and 12 AM is hour 0.
   */
  function CombineHour(c: ClockFace, use24Hour: bool): (h: int)
    ensures HourInRange(c.hour, use24Hour) ==> 0 <= h < 24
    ensures !use24Hour && HourInRange(c.hour, false) ==>
      (h >= 12 <==> c.period.PM?) && h % 12 == c.hour % 12
  {
    if use24Hour then c.hour
    else if c.period.PM? && c.hour != 12 then c.hour + 12
    else if c.period.AM? && c.hour == 12 then 0
    else c.hour
  }

  /**
   * `setHours(hour, minute, 0, 0)` on a local `Date`: the minutes past the day's midnight,
   * carried into later (or earlier) days when they leave the day.
   */
  function SetHours(i: Instant, hour: int, minute: int): (r: Instant)
    requires IsValid(i.date)
    ensures IsValidInstant(r)
    ensures 0 <= hour < 24 && 0 <= minute < 60 ==> r == Instant(i.date, Time(hour, minute, 0, 0))
  {
    var total := hour * 60 + minute;
    NormaliseDayInRange(i.date.year, i.date.month, i.date.day);
    Instant(AddDays(i.date, total / 1440), Time((total % 1440) / 60, total % 60, 0, 0))
  }

  /** `combineDateTime`: the day shown at the clock's time. */
  function CombinedDateTime(display: Instant, c: ClockFace, use24Hour: bool): (r: Instant)
    requires IsValid(display.date)
    ensures IsValidInstant(r)
    ensures FaceInRange(c, use24Hour) ==> r == Instant(display.date, Time(CombineHour(c, use24Hour), c.minute, 0, 0))
  {
    SetHours(display, CombineHour(c, use24Hour), c.minute)
  }

  /**
   * Reading a time into the clock and combining it again gives back the hour and minute,
   * with seconds and milliseconds zeroed, on either clock.
   */
  lemma ExtractThenCombine(d: Instant, t: Time, use24Hour: bool, period: Period)
    requires IsValid(d.date) && IsValidTime(t)
    ensures CombineHour(ExtractTime(t, use24Hour, period), use24Hour) == t.hour
    ensures CombinedDateTime(d, ExtractTime(t, use24Hour, period), use24Hour) == Instant(d.date, Time(t.hour, t.minute, 0, 0))
  {
  }

  /** Combining a clock that is in range and reading it back gives back the clock. */
  lemma CombineThenExtract(c: ClockFace, use24Hour: bool)
    requires FaceInRange(c, use24Hour)
    ensures ExtractTime(Time(CombineHour(c, use24Hour), c.minute, 0, 0), use24Hour, c.period) == c
  {
  }

  /**
   * On a 12-hour clock the hour steppers leave the period alone: one step up from 11 AM is
   * 12 AM, which combines to hour 0, the midnight that starts the same day.
   */
  lemma HourStepKeepsPeriod(minute: int)
    ensures CombineHour(ClockFace(11, minute, AM), false) == 11
    ensures CombineHour(ClockFace(IncrementHour(11, false), minute, AM), false) == 0
  {
  }

  /** `formattedDateTime`: '' without a selection, otherwise the formatted date, a space and `formattedTime`. */
  function FormattedDateTime(selected: Option<Instant>, format: string, c: ClockFace, use24Hour: bool): (s: string)
    requires selected.Some? ==> IsValidInstant(selected.value)
    ensures selected.None? ==> s == ""
    ensures selected.Some? ==>
      s == FormattedValue(selected, format) + " " + FormattedTime(c.hour, c.minute, c.period, use24Hour)
    ensures s == "" <==> selected.None?
    ensures selected.Some? ==> var t := FormattedTime(c.hour, c.minute, c.period, use24Hour);
      |t| < |s| && s[|s| - |t| - 1] == ' ' && s[|s| - |t|..] == t
  {
    if selected.None? then ""
    else FormattedValue(selected, format) + " " + FormattedTime(c.hour, c.minute, c.period, use24Hour)
  }

  /**
   * The text after the date in `formattedDateTime` is the time, and `parseTime` reads the
   * clock face back from it: the hour, the minute and, on a 12-hour clock, the period.
   */
  lemma FormattedDateTimeReadsTime(selected: Option<Instant>, format: string, c: ClockFace, use24Hour: bool)
    requires selected.Some? && IsValidInstant(selected.value)
    requires c.hour >= 0 && c.minute >= 0
    ensures var s := FormattedDateTime(selected, format, c, use24Hour);
      var t := FormattedTime(c.hour, c.minute, c.period, use24Hour);
      |t| < |s| && ParseTime(s[|s| - |t|..]) == Some(ParsedTime(c.hour, c.minute, if use24Hour then None else Some(c.period)))
  {
    ParseFormattedTime(c.hour, c.minute, c.period, use24Hour);
  }

  /** The date-time picker component's state. */
  class DateTimePicker {
    const use24Hour: bool
    const minDate: Option<Instant>
    const maxDate: Option<Instant>
    const format: string
    var disabled: bool
    var selectedDateTime: Option<Instant>
    var displayDate: Instant
    var isPickerOpen: bool
    var currentView: View
    var calendarDays: seq<Cell>
    var years: seq<int>
    var hour: int
    var minute: int
    var period: Period
    /** The values reported through `onChange`, oldest first. */
    var changes: seq<Option<Instant>>
    /** How often `onTouched` was called. */
    var touches: nat

    /** Every date held is a real date, and the clock shows a reachable time. */
    ghost predicate Valid()
      reads this`displayDate, this`selectedDateTime, this`hour, this`minute
    {
      IsValidInstant(displayDate) &&
      (selectedDateTime.Some? ==> IsValidInstant(selectedDateTime.value)) &&
      (minDate.Some? ==> IsValidInstant(minDate.value)) &&
      (maxDate.Some? ==> IsValidInstant(maxDate.value)) &&
      HourInRange(hour, use24Hour) && 0 <= minute < 60
    }

    function Face(): ClockFace
      reads this`hour, this`minute, this`period
    {
      ClockFace(hour, minute, period)
    }

    /** `formattedTime`. */
    function ShownTime(): string
      reads this`hour, this`minute, this`period
    {
      FormattedTime(hour, minute, period, use24Hour)
    }

    /** `formattedDateTime`. */
    function ShownDateTime(): string
      reads this`selectedDateTime, this`hour, this`minute, this`period
      requires selectedDateTime.Some? ==> IsValidInstant(selectedDateTime.value)
    {
      FormattedDateTime(selectedDateTime, format, Face(), use24Hour)
    }

    /** `displayedYears`: the 12-year page of the shown year. */
    function DisplayedYears(): (years: seq<int>)
      reads this`displayDate
      ensures |years| == 12 && displayDate.date.year in years
    {
      YearPageContains(displayDate.date.year);
      YearPage(displayDate.date.year)
    }

    constructor (now: Instant, use24Hour: bool, disabled: bool, minDate: Option<Instant>, maxDate: Option<Instant>,
                 format: string)
      requires IsValidInstant(now)
      requires minDate.Some? ==> IsValidInstant(minDate.value)
      requires maxDate.Some? ==> IsValidInstant(maxDate.value)
      ensures Valid()
      ensures this.use24Hour == use24Hour && this.disabled == disabled
      ensures this.minDate == minDate && this.maxDate == maxDate && this.format == format
      ensures selectedDateTime == None && displayDate == now && !isPickerOpen && currentView == DateView
      ensures calendarDays == [] && years == [] && hour == 12 && minute == 0 && period == AM
      ensures changes == [] && touches == 0
    {
      this.use24Hour := use24Hour;
      this.disabled := disabled;
      this.minDate := minDate;
      this.maxDate := maxDate;
      this.format := format;
      selectedDateTime := None;
      displayDate := now;
      isPickerOpen := false;
      currentView := DateView;
      calendarDays := [];
      years := [];
      hour := 12;
      minute := 0;
      period := AM;
      changes := [];
      touches := 0;
    }

    /** `ngOnInit`: draw the grid and list the years 50 either side of today's. */
    method NgOnInit(today: Date)
      requires Valid()
      modifies this`calendarDays, this`years
      ensures Valid() && calendarDays == GridFor(displayDate, today, selectedDateTime)
      ensures |years| == 101 && forall i :: 0 <= i < 101 ==> years[i] == today.year - 50 + i
    {
      GenerateCalendar(today);
      years := YearsAround(today.year, 50);
    }

    /** `generateCalendar`: the 42 cells of the shown month, flags comparing whole dates. */
    method GenerateCalendar(today: Date)
      requires Valid()
      modifies this`calendarDays
      ensures Valid() && calendarDays == GridFor(displayDate, today, selectedDateTime)
      ensures |calendarDays| == GridSize
    {
      calendarDays := CalendarGrid.GenerateCalendar(displayDate.date.year, displayDate.date.month,
                                                     today, SelectedDay(selectedDateTime));
    }

    /**
     * `writeValue`: a given value is selected and shown, its time read into the clock, and
     * the grid redrawn; no value only clears the selection.
     */
    method WriteValue(value: Option<Instant>, today: Date)
      requires Valid() && (value.Some? ==> IsValidInstant(value.value))
      modifies this`selectedDateTime, this`displayDate, this`hour, this`minute, this`period, this`calendarDays
      ensures Valid() && selectedDateTime == value
      ensures value.None? ==>
        displayDate == old(displayDate) && Face() == old(Face()) && calendarDays == old(calendarDays)
      ensures value.Some? ==>
        displayDate == value.value && Face() == ExtractTime(value.value.time, use24Hour, old(period)) &&
        calendarDays == GridFor(displayDate, today, selectedDateTime)
    {
      selectedDateTime := value;
      if value.Some? {
        displayDate := value.value;
        var face := ExtractTime(value.value.time, use24Hour, period);
        hour, minute, period := face.hour, face.minute, face.period;
        GenerateCalendar(today);
      }
    }

    /** `togglePicker`: ignored while disabled; closing reports a touch and resets the view. */
    method TogglePicker()
      modifies this`isPickerOpen, this`touches, this`currentView
      ensures disabled ==>
        isPickerOpen == old(isPickerOpen) && touches == old(touches) && currentView == old(currentView)
      ensures !disabled ==> isPickerOpen == !old(isPickerOpen)
      ensures !disabled && isPickerOpen ==> touches == old(touches) && currentView == old(currentView)
      ensures !disabled && !isPickerOpen ==> touches == old(touches) + 1 && currentView == DateView
    {
      if !disabled {
        isPickerOpen := !isPickerOpen;
        if !isPickerOpen {
          touches := touches + 1;
          currentView := DateView;
        }
      }
    }

    /** `closePicker`: closed, day view, and a touch reported. */
    method ClosePicker()
      modifies this`isPickerOpen, this`currentView, this`touches
      ensures !isPickerOpen && currentView == DateView && touches == old(touches) + 1
    {
      isPickerOpen := false;
      currentView := DateView;
      touches := touches + 1;
    }

    /**
     * `combineDateTime`: the shown day at the clock's time (seconds and milliseconds zero)
     * becomes the selection and is reported; the grid is not redrawn.
     */
    method CombineDateTime()
      requires Valid()
      modifies this`selectedDateTime, this`changes
      ensures Valid()
      ensures selectedDateTime == Some(Instant(displayDate.date, Time(CombineHour(Face(), use24Hour), minute, 0, 0)))
      ensures changes == old(changes) + [selectedDateTime]
    {
      var combined := CombinedDateTime(displayDate, Face(), use24Hour);
      selectedDateTime := Some(combined);
      changes := changes + [selectedDateTime];
    }

    /**
     * `selectDate`: a cell of the shown month that is not disabled becomes the shown day
     * (midnight, rebuilt with the constructor, so a year in 0..99 moves to 1900 + year), is combined with the clock's time into the selection, and the grid is
     * redrawn; any other cell is ignored. The picker stays open.
     */
    method SelectDate(day: Cell, today: Date)
      requires Valid() && IsValidInstant(day.date)
      modifies this`displayDate, this`selectedDateTime, this`changes, this`calendarDays
      ensures Valid()
      ensures !day.isCurrentMonth || IsDateDisabled(day.date, minDate, maxDate) ==>
        displayDate == old(displayDate) && selectedDateTime == old(selectedDateTime) &&
        changes == old(changes) && calendarDays == old(calendarDays)
      ensures day.isCurrentMonth && !IsDateDisabled(day.date, minDate, maxDate) ==>
        displayDate == MakeDate(day.date.date.year, day.date.date.month, day.date.date.day) &&
        (!(0 <= day.date.date.year <= 99) ==> displayDate == Instant(day.date.date, Midnight)) &&
        selectedDateTime == Some(Instant(displayDate.date, Time(CombineHour(Face(), use24Hour), minute, 0, 0))) &&
        changes == old(changes) + [selectedDateTime] &&
        calendarDays == GridFor(displayDate, today, selectedDateTime)
    {
      if day.isCurrentMonth && !IsDateDisabled(day.date, minDate, maxDate) {
        var d := day.date.date;
        if !(0 <= d.year <= 99) {
          MakeDateInRange(d.year, d.month, d.day);
        }
        displayDate := MakeDate(d.year, d.month, d.day);
        CombineDateTime();
        GenerateCalendar(today);
      }
    }

    /** `previousMonth`: the 1st of the month before the one shown. */
    method PreviousMonth(today: Date)
      requires Valid()
      modifies this`displayDate, this`calendarDays
      ensures Valid() && calendarDays == GridFor(displayDate, today, selectedDateTime)
      ensures displayDate == MonthStartAt(old(displayDate).date.year, old(displayDate).date.month - 1)
    {
      displayDate := MonthStartAt(displayDate.date.year, displayDate.date.month - 1);
      GenerateCalendar(today);
    }

    /** `nextMonth`: the 1st of the month after the one shown. */
    method NextMonth(today: Date)
      requires Valid()
      modifies this`displayDate, this`calendarDays
      ensures Valid() && calendarDays == GridFor(displayDate, today, selectedDateTime)
      ensures displayDate == MonthStartAt(old(displayDate).date.year, old(displayDate).date.month + 1)
    {
      displayDate := MonthStartAt(displayDate.date.year, displayDate.date.month + 1);
      GenerateCalendar(today);
    }

    method SwitchToMonthView()
      modifies this`currentView
      ensures currentView == MonthView
    {
      currentView := MonthView;
    }

    method SwitchToYearView()
      modifies this`currentView
      ensures currentView == YearView
    {
      currentView := YearView;
    }

    method SwitchToDateView()
      modifies this`currentView
      ensures currentView == DateView
    {
      currentView := DateView;
    }

    /** `selectYear`: the 1st of the shown month in `year`, then the month view. */
    method SelectYear(year: int, today: Date)
      requires Valid()
      modifies this`displayDate, this`calendarDays, this`currentView
      ensures Valid() && calendarDays == GridFor(displayDate, today, selectedDateTime)
      ensures displayDate == Instant(Date(FullYear(year), old(displayDate).date.month, 1), Midnight)
      ensures currentView == MonthView
    {
      displayDate := MonthStartAt(year, displayDate.date.month);
      GenerateCalendar(today);
      currentView := MonthView;
    }

    /** `selectMonth`: the 1st of month index `monthIndex` (carried into the year), then the day view. */
    method SelectMonth(monthIndex: int, today: Date)
      requires Valid()
      modifies this`displayDate, this`calendarDays, this`currentView
      ensures Valid() && calendarDays == GridFor(displayDate, today, selectedDateTime)
      ensures displayDate == MonthStartAt(old(displayDate).date.year, monthIndex)
      ensures currentView == DateView
    {
      displayDate := MonthStartAt(displayDate.date.year, monthIndex);
      GenerateCalendar(today);
      currentView := DateView;
    }

    /**
     * `previousYear`, `nextYear`, `previousYearRange`, `nextYearRange`: the 1st of the shown
     * month `delta` years away (-1, 1, -12 or 12); the grid is not redrawn.
     */
    method ShiftYears(delta: int)
      requires Valid()
      modifies this`displayDate
      ensures Valid()
      ensures displayDate == Instant(Date(FullYear(old(displayDate).date.year + delta), old(displayDate).date.month, 1), Midnight)
    {
      displayDate := MonthStartAt(displayDate.date.year + delta, displayDate.date.month);
    }

    /** `incrementHour`: one hour up round the dial, then `combineDateTime`. */
    method IncrementHour()
      requires Valid()
      modifies this`hour, this`selectedDateTime, this`changes
      ensures Valid() && hour == ClockTime.IncrementHour(old(hour), use24Hour)
      ensures selectedDateTime == Some(Instant(displayDate.date, Time(CombineHour(Face(), use24Hour), minute, 0, 0)))
      ensures changes == old(changes) + [selectedDateTime]
    {
      hour := ClockTime.IncrementHour(hour, use24Hour);
      CombineDateTime();
    }

    /** `decrementHour`: one hour down round the dial, then `combineDateTime`. */
    method DecrementHour()
      requires Valid()
      modifies this`hour, this`selectedDateTime, this`changes
      ensures Valid() && hour == ClockTime.DecrementHour(old(hour), use24Hour)
      ensures selectedDateTime == Some(Instant(displayDate.date, Time(CombineHour(Face(), use24Hour), minute, 0, 0)))
      ensures changes == old(changes) + [selectedDateTime]
    {
      hour := ClockTime.DecrementHour(hour, use24Hour);
      CombineDateTime();
    }

    /** `incrementMinute`: one minute up, 59 wrapping to 0, then `combineDateTime`. */
    method IncrementMinute()
      requires Valid()
      modifies this`minute, this`selectedDateTime, this`changes
      ensures Valid() && minute == ClockTime.IncrementMinute(old(minute), 1)
      ensures selectedDateTime == Some(Instant(displayDate.date, Time(CombineHour(Face(), use24Hour), minute, 0, 0)))
      ensures changes == old(changes) + [selectedDateTime]
    {
      minute := ClockTime.IncrementMinute(minute, 1);
      CombineDateTime();
    }

    /** `decrementMinute`: one minute down, 0 wrapping to 59, then `combineDateTime`. */
    method DecrementMinute()
      requires Valid()
      modifies this`minute, this`selectedDateTime, this`changes
      ensures Valid() && minute == ClockTime.DecrementMinute(old(minute), 1)
      ensures selectedDateTime == Some(Instant(displayDate.date, Time(CombineHour(Face(), use24Hour), minute, 0, 0)))
      ensures changes == old(changes) + [selectedDateTime]
    {
      minute := ClockTime.DecrementMinute(minute, 1);
      CombineDateTime();
    }

    /** `togglePeriod`: AM and PM swap, then `combineDateTime`. */
    method TogglePeriod()
      requires Valid()
      modifies this`period, this`selectedDateTime, this`changes
      ensures Valid() && period == ClockTime.TogglePeriod(old(period))
      ensures selectedDateTime == Some(Instant(displayDate.date, Time(CombineHour(Face(), use24Hour), minute, 0, 0)))
      ensures changes == old(changes) + [selectedDateTime]
    {
      period := ClockTime.TogglePeriod(period);
      CombineDateTime();
    }

    /** `applyDateTime`: `combineDateTime`, then `closePicker`. */
    method ApplyDateTime()
      requires Valid()
      modifies this`selectedDateTime, this`changes, this`isPickerOpen, this`currentView, this`touches
      ensures Valid()
      ensures selectedDateTime == Some(Instant(displayDate.date, Time(CombineHour(Face(), use24Hour), minute, 0, 0)))
      ensures changes == old(changes) + [selectedDateTime]
      ensures !isPickerOpen && currentView == DateView && touches == old(touches) + 1
    {
      CombineDateTime();
      ClosePicker();
    }
  }
}
