/**
 * The custom date picker (`finzly-custom-date-picker`): a calendar like the date picker's,
 * plus named presets (today, first and last day of the week, month and year) and a custom
 * form that moves a preset by a number of days, weeks, months or years.
 */
module CustomDatePicker {
  import opened Options
  import opened Civil
  import opened CalendarGrid

  /** `DatePreset`. */
  datatype DatePreset = Today | FDW | LDW | FDM | LDM | FDY | LDY | Custom

  datatype Operator = Plus | Minus

  datatype Unit = Day | Week | Month | Year

  /** `CustomDateConfig`: the preset to start from and the signed offset to apply. */
  datatype CustomDateConfig = CustomDateConfig(preset: DatePreset, operator: Operator, value: int, unit: Unit)

  /** The form's initial configuration: today, plus zero days. */
  const DefaultConfig: CustomDateConfig := CustomDateConfig(Today, Plus, 0, Day)

  // Presets

  /**
   * `calculateDateFromPreset`, with the clock's date passed in as `today` (the source takes
   * `new Date()` at midnight). Any preset without a case of its own, `Custom` included,
   * gives today. The month and year presets go through the constructor, which reads a year
   * in 0..99 as 1900 + year.
   */
  function PresetDate(preset: DatePreset, today: Date): (r: Date)
    requires IsValid(today)
    ensures IsValid(r)
  {
    match preset
    case FDW => AddDays(today, -Weekday(today))
    case LDW => AddDays(today, 6 - Weekday(today))
    case FDM => Normalise(FullYear(today.year), today.month, 1)
    case LDM => Normalise(FullYear(today.year), today.month + 1, 0)
    case FDY => Normalise(FullYear(today.year), 0, 1)
    case LDY => Normalise(FullYear(today.year), 11, 31)
    case _ => today
  }

  /** `today` moved back by its weekday is a Sunday, that many days earlier. */
  lemma {:induction false} WeekStart(today: Date)
    requires IsValid(today)
    ensures Weekday(AddDays(today, -Weekday(today))) == 0
    ensures DayNumber(AddDays(today, -Weekday(today))) == DayNumber(today) - Weekday(today)
  {
    var w := Weekday(today);
    WeekdayAfter(today, -w);
    AddDaysNumber(today, -w);
  }

  /** `today` moved on by `6 - weekday` is a Saturday, that many days later. */
  lemma {:induction false} WeekEnd(today: Date)
    requires IsValid(today)
    ensures Weekday(AddDays(today, 6 - Weekday(today))) == 6
    ensures DayNumber(AddDays(today, 6 - Weekday(today))) == DayNumber(today) + 6 - Weekday(today)
  {
    var w := Weekday(today);
    WeekdayAfter(today, 6 - w);
    assert (w + (6 - w)) % 7 == 6;
    AddDaysNumber(today, 6 - w);
  }

  /**
   * FDW is the Sunday on or before today and LDW the Saturday on or after it; they are six
   * days apart, so today lies in the week they bound.
   */
  lemma {:induction false} PresetWeek(today: Date)
    requires IsValid(today)
    ensures Weekday(PresetDate(FDW, today)) == 0 && Weekday(PresetDate(LDW, today)) == 6
    ensures DayNumber(PresetDate(LDW, today)) == DayNumber(PresetDate(FDW, today)) + 6
    ensures DayNumber(PresetDate(FDW, today)) <= DayNumber(today) <= DayNumber(PresetDate(LDW, today))
    ensures DayNumber(today) - DayNumber(PresetDate(FDW, today)) == Weekday(today)
  {
    var first, last := PresetDate(FDW, today), PresetDate(LDW, today);
    assert first == AddDays(today, -Weekday(today));
    assert last == AddDays(today, 6 - Weekday(today));
    WeekStart(today);
    WeekEnd(today);
  }

  /**
   * FDM is the 1st of today's month and LDM its last day: the 31st in a 31-day month, the
   * 29th of February in a leap year and the 28th otherwise. The year is today's, read
   * through the constructor's mapping; outside 0..99 that is today's own year, and LDM is
   * then on or after today.
   */
  lemma {:induction false} PresetMonth(today: Date)
    requires IsValid(today)
    ensures var y := FullYear(today.year); PresetDate(FDM, today) == Date(y, today.month, 1)
    ensures var y := FullYear(today.year); PresetDate(LDM, today) == Date(y, today.month, DaysInMonth(y, today.month))
    ensures today.month == 1 ==> (PresetDate(LDM, today).day == 29 <==> IsLeapYear(FullYear(today.year)))
    ensures today.month == 1 ==> 28 <= PresetDate(LDM, today).day <= 29
    ensures today.month in {0, 2, 4, 6, 7, 9, 11} ==> PresetDate(LDM, today).day == 31
    ensures !(0 <= today.year <= 99) ==> DayNumber(today) <= DayNumber(PresetDate(LDM, today))
  {
    var y := FullYear(today.year);
    NormaliseInRange(y, today.month, 1);
    MonthEnds(y, today.month);
    if !(0 <= today.year <= 99) {
      DayNumberOrder(today, PresetDate(LDM, today));
    }
  }

  /** FDY is 1 January and LDY 31 December of today's year, read through the constructor's mapping. */
  lemma {:induction false} PresetYear(today: Date)
    requires IsValid(today)
    ensures PresetDate(FDY, today) == Date(FullYear(today.year), 0, 1)
    ensures PresetDate(LDY, today) == Date(FullYear(today.year), 11, 31)
    ensures !(0 <= today.year <= 99) ==> PresetDate(FDY, today).year == today.year
  {
    NormaliseInRange(FullYear(today.year), 0, 1);
    NormaliseInRange(FullYear(today.year), 11, 31);
  }

  // Custom offsets

  /** `value` with the configured sign: `value * (operator === '+' ? 1 : -1)`. */
  function Amount(config: CustomDateConfig): int {
    config.value * (if config.operator == Plus then 1 else -1)
  }

  /**
   * `calculateCustomDate`: days and weeks move the day of month (`setDate`), months the
   * month index (`setMonth`) and years the full year (`setFullYear`), each overflowing as
   * `Date` does.
   */
  function CustomDate(base: Date, config: CustomDateConfig): (r: Date)
    requires 0 <= base.month < 12
    ensures IsValid(r)
  {
    var amount := Amount(config);
    match config.unit
    case Day => AddDays(base, amount)
    case Week => AddDays(base, amount * 7)
    case Month => AddMonths(base, amount)
    case Year => AddYears(base, amount)
  }

  /** A day or week offset moves the day number by exactly the signed amount of days. */
  lemma {:induction false} CustomDayOffset(base: Date, config: CustomDateConfig)
    requires IsValid(base) && (config.unit == Day || config.unit == Week)
    ensures DayNumber(CustomDate(base, config)) ==
      DayNumber(base) + Amount(config) * (if config.unit == Week then 7 else 1)
  {
    AddDaysNumber(base, Amount(config) * (if config.unit == Week then 7 else 1));
  }

  /** For days and weeks, `+v` then `-v` returns the base date. */
  lemma {:induction false} CustomDayRoundTrip(base: Date, v: int, unit: Unit)
    requires IsValid(base) && (unit == Day || unit == Week)
    ensures CustomDate(CustomDate(base, CustomDateConfig(Custom, Plus, v, unit)), CustomDateConfig(Custom, Minus, v, unit)) == base
  {
    var n := if unit == Week then v * 7 else v;
    AddDaysInverse(base, n);
    assert CustomDate(base, CustomDateConfig(Custom, Plus, v, unit)) == AddDays(base, n);
  }

  /** A week is seven days: `v` weeks is the same offset as `7 * v` days. */
  lemma WeekIsSevenDays(base: Date, operator: Operator, v: int)
    requires 0 <= base.month < 12
    ensures CustomDate(base, CustomDateConfig(Custom, operator, v, Week)) ==
            CustomDate(base, CustomDateConfig(Custom, operator, 7 * v, Day))
  {
  }

  /**
   * A month or year offset shifts the month count `12 * year + month` by the signed amount
   * (twelve per year) and keeps the day when that day exists in the target month; otherwise
   * the day overflows into the following month.
   */
  lemma {:induction false} CustomMonthOffset(base: Date, config: CustomDateConfig)
    requires IsValid(base) && (config.unit == Month || config.unit == Year)
    ensures var k := base.month + Amount(config) * (if config.unit == Year then 12 else 1);
      var c := CarryMonth(base.year, k);
      var r := CustomDate(base, config);
      (base.day <= DaysInMonth(c.0, c.1) ==> r == Date(c.0, c.1, base.day)) &&
      (base.day > DaysInMonth(c.0, c.1) ==>
         r == Date(FollowingMonth(c.0, c.1).0, FollowingMonth(c.0, c.1).1, base.day - DaysInMonth(c.0, c.1)))
  {
    var amount := Amount(config);
    var k := base.month + amount * (if config.unit == Year then 12 else 1);
    var c := CarryMonth(base.year, k);
    if config.unit == Year {
      CarryYears(base.year, base.month, amount);
    }
    assert CustomDate(base, config) == NormaliseDay(c.0, c.1, base.day);
    if base.day <= DaysInMonth(c.0, c.1) {
      NormaliseDayInRange(c.0, c.1, base.day);
    } else {
      NormaliseDayOverflow(c.0, c.1, base.day);
    }
  }

  /** Moving the year by `n` is carrying the month index by `12 * n`. */
  lemma CarryYears(y: int, m: int, n: int)
    requires 0 <= m < 12
    ensures CarryMonth(y + n, m) == CarryMonth(y, m + n * 12)
  {
    MonthCountUnique(CarryMonth(y + n, m), CarryMonth(y, m + n * 12));
  }

  // Preset descriptions

  datatype PresetEntry = PresetEntry(key: DatePreset, labelText: string, description: string)

  /** `presets`: every preset but `Custom`, with its label and description. */
  const Presets: seq<PresetEntry> := [
    PresetEntry(Today, "TODAY", "Today"),
    PresetEntry(FDW, "FDW", "First Day of Week"),
    PresetEntry(LDW, "LDW", "Last Day of Week"),
    PresetEntry(FDM, "FDM", "First Day of Month"),
    PresetEntry(LDM, "LDM", "Last Day of Month"),
    PresetEntry(FDY, "FDY", "First Day of Year"),
    PresetEntry(LDY, "LDY", "Last Day of Year")]

  /** `Array.prototype.find` by key: the first entry with that key, if any. */
  function FindPreset(table: seq<PresetEntry>, key: DatePreset): (r: Option<PresetEntry>)
    ensures r.Some? ==> r.value in table && r.value.key == key
    ensures r.None? <==> forall e :: e in table ==> e.key != key
  {
    if |table| == 0 then None
    else if table[0].key == key then Some(table[0])
    else FindPreset(table[1..], key)
  }

  /** An entry with no earlier entry of the same key is the one `find` returns. */
  lemma {:induction false} FindPresetAt(table: seq<PresetEntry>, key: DatePreset, i: nat)
    requires i < |table| && table[i].key == key
    requires forall j :: 0 <= j < i ==> table[j].key != key
    ensures FindPreset(table, key) == Some(table[i])
    decreases i
  {
    if i > 0 {
      assert table[0].key != key;
      assert forall j :: 0 <= j < i - 1 ==> table[1..][j] == table[j + 1];
      FindPresetAt(table[1..], key, i - 1);
    }
  }

  /** Every preset but `Custom` is listed with a non-empty description; `Custom` is not listed. */
  lemma PresetListed(preset: DatePreset)
    ensures preset == Custom ==> FindPreset(Presets, preset) == None
    ensures preset != Custom ==> FindPreset(Presets, preset).Some? && FindPreset(Presets, preset).value.description != ""
  {
    match preset
    case Custom =>
      forall e | e in Presets
        ensures e.key != Custom
      {
      }
    case Today => FindPresetAt(Presets, preset, 0);
    case FDW => FindPresetAt(Presets, preset, 1);
    case LDW => FindPresetAt(Presets, preset, 2);
    case FDM => FindPresetAt(Presets, preset, 3);
    case LDM => FindPresetAt(Presets, preset, 4);
    case FDY => FindPresetAt(Presets, preset, 5);
    case LDY => FindPresetAt(Presets, preset, 6);
  }

  /** `getPresetDescription`: the table's description, or '' for a key it does not list. */
  function PresetDescription(preset: DatePreset): (s: string)
    ensures preset == Custom <==> s == ""
    ensures preset != Custom ==> exists e :: e in Presets && e.key == preset && e.description == s
  {
    PresetListed(preset);
    var found := FindPreset(Presets, preset);
    if found.Some? then found.value.description else ""
  }

  /** The custom date picker component. */
  class CustomDatePicker {
    // Inputs: the bounds and the format are bound once; `disabled` also follows `setDisabledState`
    const minDate: Option<Instant>
    const maxDate: Option<Instant>
    const format: string
    var disabled: bool

    var selectedDate: Option<Instant>
    var selectedPreset: Option<DatePreset>
    var isPickerOpen: bool
    var showCustomForm: bool
    var displayDate: Instant
    var currentView: View
    var calendarDays: seq<Cell>
    var years: seq<int>
    /** The custom form's fields, bound to its inputs. */
    var customConfig: CustomDateConfig

    /** The values handed to the registered `onChange` callback, oldest first. */
    var changes: seq<Option<Instant>>
    /** How many times the registered `onTouched` callback has run. */
    var touches: nat

    /** Every date held is a real date. */
    ghost predicate Valid()
      reads this`displayDate, this`selectedDate
    {
      IsValidInstant(displayDate) &&
      (selectedDate.Some? ==> IsValidInstant(selectedDate.value)) &&
      (minDate.Some? ==> IsValidInstant(minDate.value)) &&
      (maxDate.Some? ==> IsValidInstant(maxDate.value))
    }

    /** `formattedDate`: '' without a selection, otherwise the selection formatted. */
    function FormattedDate(): string
      reads this`selectedDate
      requires selectedDate.Some? ==> IsValidInstant(selectedDate.value)
    {
      FormattedValue(selectedDate, format)
    }

    /** `displayedYears`: the 12-year page of the shown year. */
    function DisplayedYears(): (years: seq<int>)
      reads this`displayDate
      ensures |years| == 12 && displayDate.date.year in years
    {
      YearPageContains(displayDate.date.year);
      YearPage(displayDate.date.year)
    }

    constructor (now: Instant, disabled: bool, minDate: Option<Instant>, maxDate: Option<Instant>, format: string)
      requires IsValidInstant(now)
      requires minDate.Some? ==> IsValidInstant(minDate.value)
      requires maxDate.Some? ==> IsValidInstant(maxDate.value)
      ensures Valid()
      ensures this.disabled == disabled && this.minDate == minDate && this.maxDate == maxDate && this.format == format
      ensures selectedDate == None && selectedPreset == None && !isPickerOpen && !showCustomForm
      ensures displayDate == now && currentView == DateView && calendarDays == [] && years == []
      ensures customConfig == DefaultConfig && changes == [] && touches == 0
    {
      this.disabled := disabled;
      this.minDate := minDate;
      this.maxDate := maxDate;
      this.format := format;
      selectedDate := None;
      selectedPreset := None;
      isPickerOpen := false;
      showCustomForm := false;
      displayDate := now;
      currentView := DateView;
      calendarDays := [];
      years := [];
      customConfig := DefaultConfig;
      changes := [];
      touches := 0;
    }

    /** `ngOnInit`: draw the grid and list the years 50 either side of today's. */
    method NgOnInit(today: Date)
      requires Valid()
      modifies this`calendarDays, this`years
      ensures Valid() && calendarDays == GridFor(displayDate, today, selectedDate)
      ensures |years| == 101 && forall i :: 0 <= i < 101 ==> years[i] == today.year - 50 + i
    {
      GenerateCalendar(today);
      years := YearsAround(today.year, 50);
    }

    /** `generateCalendar`: flags compare whole dates with today and the selection. */
    method GenerateCalendar(today: Date)
      requires Valid()
      modifies this`calendarDays
      ensures Valid() && calendarDays == GridFor(displayDate, today, selectedDate)
    {
      calendarDays := CalendarGrid.GenerateCalendar(displayDate.date.year, displayDate.date.month,
                                                     today, SelectedDay(selectedDate));
    }

    /** `togglePicker`: ignored while disabled; closing reports a touch, hides the form and resets the view. */
    method TogglePicker()
      modifies this`isPickerOpen, this`touches, this`showCustomForm, this`currentView
      ensures disabled ==>
        isPickerOpen == old(isPickerOpen) && touches == old(touches) &&
        showCustomForm == old(showCustomForm) && currentView == old(currentView)
      ensures !disabled ==> isPickerOpen == !old(isPickerOpen)
      ensures !disabled && isPickerOpen ==>
        touches == old(touches) && showCustomForm == old(showCustomForm) && currentView == old(currentView)
      ensures !disabled && !isPickerOpen ==>
        touches == old(touches) + 1 && !showCustomForm && currentView == DateView
    {
      if !disabled {
        isPickerOpen := !isPickerOpen;
        if !isPickerOpen {
          touches := touches + 1;
          showCustomForm := false;
          currentView := DateView;
        }
      }
    }

    /** `closePicker`: closed, form hidden, day view, and a touch reported. */
    method ClosePicker()
      modifies this`isPickerOpen, this`showCustomForm, this`currentView, this`touches
      ensures !isPickerOpen && !showCustomForm && currentView == DateView && touches == old(touches) + 1
    {
      isPickerOpen := false;
      showCustomForm := false;
      currentView := DateView;
      touches := touches + 1;
    }

    /**
     * `selectDate`: a cell of the shown month that is not disabled becomes the selection
     * (its midnight instant, with no preset), is reported, and the picker closes; any other
     * cell is ignored.
     */
    method SelectDate(day: Cell, today: Date)
      requires Valid() && IsValidInstant(day.date)
      modifies this`selectedDate, this`displayDate, this`selectedPreset, this`changes, this`calendarDays,
               this`isPickerOpen, this`showCustomForm, this`currentView, this`touches
      ensures Valid()
      ensures !day.isCurrentMonth || IsDateDisabled(day.date, minDate, maxDate) ==>
        selectedDate == old(selectedDate) && displayDate == old(displayDate) && selectedPreset == old(selectedPreset) &&
        changes == old(changes) && calendarDays == old(calendarDays) && isPickerOpen == old(isPickerOpen) &&
        showCustomForm == old(showCustomForm) && currentView == old(currentView) && touches == old(touches)
      ensures day.isCurrentMonth && !IsDateDisabled(day.date, minDate, maxDate) ==>
        selectedDate == Some(day.date) && displayDate == day.date && selectedPreset == None &&
        changes == old(changes) + [selectedDate] && calendarDays == GridFor(displayDate, today, selectedDate) &&
        !isPickerOpen && !showCustomForm && currentView == DateView && touches == old(touches) + 1
    {
      if day.isCurrentMonth && !IsDateDisabled(day.date, minDate, maxDate) {
        selectedDate := Some(day.date);
        displayDate := day.date;
        selectedPreset := None;
        changes := changes + [selectedDate];
        GenerateCalendar(today);
        ClosePicker();
      }
    }

    /** `previousMonth`: the 1st of the month before the one shown. */
    method PreviousMonth(today: Date)
      requires Valid()
      modifies this`displayDate, this`calendarDays
      ensures Valid() && calendarDays == GridFor(displayDate, today, selectedDate)
      ensures displayDate == MonthStartAt(old(displayDate).date.year, old(displayDate).date.month - 1)
    {
      displayDate := MonthStartAt(displayDate.date.year, displayDate.date.month - 1);
      GenerateCalendar(today);
    }

    /** `nextMonth`: the 1st of the month after the one shown. */
    method NextMonth(today: Date)
      requires Valid()
      modifies this`displayDate, this`calendarDays
      ensures Valid() && calendarDays == GridFor(displayDate, today, selectedDate)
      ensures displayDate == MonthStartAt(old(displayDate).date.year, old(displayDate).date.month + 1)
    {
      displayDate := MonthStartAt(displayDate.date.year, displayDate.date.month + 1);
      GenerateCalendar(today);
    }

    method SwitchToMonthView()
      modifies this`currentView
      ensures currentView == MonthView
    {
      currentView := MonthView;
    }

    method SwitchToYearView()
      modifies this`currentView
      ensures currentView == YearView
    {
      currentView := YearView;
    }

    /** `selectYear`: the 1st of the shown month in `year`, then the month view. */
    method SelectYear(year: int, today: Date)
      requires Valid()
      modifies this`displayDate, this`calendarDays, this`currentView
      ensures Valid() && calendarDays == GridFor(displayDate, today, selectedDate)
      ensures displayDate == Instant(Date(FullYear(year), old(displayDate).date.month, 1), Midnight)
      ensures currentView == MonthView
    {
      displayDate := MonthStartAt(year, displayDate.date.month);
      GenerateCalendar(today);
      currentView := MonthView;
    }

    /** `selectMonth`: the 1st of month index `monthIndex` (carried into the year), then the day view. */
    method SelectMonth(monthIndex: int, today: Date)
      requires Valid()
      modifies this`displayDate, this`calendarDays, this`currentView
      ensures Valid() && calendarDays == GridFor(displayDate, today, selectedDate)
      ensures displayDate == MonthStartAt(old(displayDate).date.year, monthIndex)
      ensures currentView == DateView
    {
      displayDate := MonthStartAt(displayDate.date.year, monthIndex);
      GenerateCalendar(today);
      currentView := DateView;
    }

    /**
     * `previousYear`, `nextYear`, `previousYearRange`, `nextYearRange`: the 1st of the shown
     * month `delta` years away (-1, 1, -12 or 12); the grid is not redrawn.
     */
    method ShiftYears(delta: int)
      requires Valid()
      modifies this`displayDate
      ensures Valid()
      ensures displayDate == Instant(Date(FullYear(old(displayDate).date.year + delta), old(displayDate).date.month, 1), Midnight)
    {
      displayDate := MonthStartAt(displayDate.date.year + delta, displayDate.date.month);
    }

    /**
     * `writeValue`: a given value is selected as is (time of day kept) and shown, and the
     * grid redrawn; no value clears the selection and leaves the grid as it was.
     */
    method WriteValue(value: Option<Instant>, today: Date)
      requires Valid() && (value.Some? ==> IsValidInstant(value.value))
      modifies this`selectedDate, this`displayDate, this`calendarDays
      ensures Valid() && selectedDate == value
      ensures value.None? ==> displayDate == old(displayDate) && calendarDays == old(calendarDays)
      ensures value.Some? ==> displayDate == value.value && calendarDays == GridFor(displayDate, today, selectedDate)
    {
      selectedDate := value;
      if value.Some? {
        displayDate := value.value;
        GenerateCalendar(today);
      }
    }

    /**
     * `selectPreset`: `Custom` only opens the custom form and clears the preset; any other
     * preset selects its date (midnight), shows it, reports it and closes the picker.
     */
    method SelectPreset(preset: DatePreset, today: Date)
      requires Valid() && IsValid(today)
      modifies this`showCustomForm, this`selectedPreset, this`selectedDate, this`displayDate, this`changes,
               this`calendarDays, this`isPickerOpen, this`currentView, this`touches
      ensures Valid()
      ensures preset == Custom ==>
        showCustomForm && selectedPreset == None && selectedDate == old(selectedDate) &&
        displayDate == old(displayDate) && changes == old(changes) && calendarDays == old(calendarDays) &&
        isPickerOpen == old(isPickerOpen) && currentView == old(currentView) && touches == old(touches)
      ensures preset != Custom ==>
        selectedPreset == Some(preset) && selectedDate == Some(Instant(PresetDate(preset, today), Midnight)) &&
        displayDate == selectedDate.value && changes == old(changes) + [selectedDate] &&
        calendarDays == GridFor(displayDate, today, selectedDate) &&
        !showCustomForm && !isPickerOpen && currentView == DateView && touches == old(touches) + 1
    {
      if preset == Custom {
        showCustomForm := true;
        selectedPreset := None;
        return;
      }
      showCustomForm := false;
      selectedPreset := Some(preset);
      selectedDate := Some(Instant(PresetDate(preset, today), Midnight));
      displayDate := selectedDate.value;
      changes := changes + [selectedDate];
      GenerateCalendar(today);
      ClosePicker();
    }

    /**
     * `applyCustom`: the configured preset's date moved by the configured offset becomes the
     * selection (preset `Custom`), is shown and reported, and the picker closes.
     */
    method ApplyCustom(today: Date)
      requires Valid() && IsValid(today)
      modifies this`selectedDate, this`displayDate, this`selectedPreset, this`changes,
               this`calendarDays, this`isPickerOpen, this`showCustomForm, this`currentView, this`touches
      ensures Valid()
      ensures selectedDate == Some(Instant(CustomDate(PresetDate(customConfig.preset, today), customConfig), Midnight))
      ensures displayDate == selectedDate.value && selectedPreset == Some(Custom)
      ensures changes == old(changes) + [selectedDate] && calendarDays == GridFor(displayDate, today, selectedDate)
      ensures !isPickerOpen && !showCustomForm && currentView == DateView && touches == old(touches) + 1
    {
      var baseDate := PresetDate(customConfig.preset, today);
      var calculated := Instant(CustomDate(baseDate, customConfig), Midnight);
      selectedDate := Some(calculated);
      displayDate := calculated;
      selectedPreset := Some(Custom);
      changes := changes + [Some(calculated)];
      GenerateCalendar(today);
      ClosePicker();
    }

    /** `cancelCustom`: hide the custom form. */
    method CancelCustom()
      modifies this`showCustomForm
      ensures !showCustomForm
    {
      showCustomForm := false;
    }
  }
}
