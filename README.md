# Finzly UI kit — a Dafny model

This project models the logic of the Finzly Angular UI kit and of the services behind its documentation site. The model is in Dafny and its properties are proved. It covers four groups of code.

- **Calendar and time arithmetic shared by the pickers** (`civil.dfy`, `calendar_grid.dfy`, `date_picker.dfy`, `custom_date_picker.dfy`, `clock_time.dfy`, `time_picker.dfy`, `date_time_picker.dfy`, `date_format.dfy`).
  - A civil date is (year, month 0..11, day) with leap years, days-in-month and the weekday (Sunday = 0).
  - `Civil.Normalise` reproduces the overflow of the JavaScript `Date` constructor, following the MakeDay operation of ECMA-262, section 21.4 (Date Objects).
  - On top of that sit:
    - the 42-cell month grid;
    - min/max disabling, month and year navigation and the 12-year page;
    - the named date presets and their offsets;
    - 12/24-hour conversion with the hour and minute steppers;
    - time-string parsing and formatting;
    - the token-replacing date-format pipe.
  - "Today" is always a parameter.
- **The two overlay services** (`toastr.dfy`, `dialog.dfy`).
  - The toast list is a `seq<Toast>` field of a class.
  - The dialog service holds at most one current dialog.
  - Timers are explicit events: `Expire`, `OpenTimerFires`, `CloseTimerFires`.
  - An `onClose` callback or a `closeDialog` call is recorded as a list of the calls made.
- **Form-value logic** (`dropdown.dfy`, `input_email.dfy`, `amount_formatter.dfy`).
  - Dropdown selection and search filtering.
  - The e-mail pattern and the touched/validity state machine.
  - The amount sanitiser with its parse-and-clamp.
- **The documentation site's services** (`component_data.dfy`, `search.dfy`, `code_generator.dfy`).
  - The recently-viewed list capped at 10.
  - Catalogue look-ups and the prioritised catalogue search with its context window.
  - The HTML snippet generator.

Components whose fields change step by step are classes. Their methods carry `modifies` clauses and state the whole new state, usually as a function of the old one. That function's properties are proved as lemmas beside it. Pure computations are functions and lemmas. `options.dfy` and `text.dfy` hold the `Option` type and the JavaScript string operations the code uses: first-occurrence `replace`, `indexOf`, `trim`, ASCII `toLowerCase`/`toUpperCase`, `padStart` and `String(n)`.

Where the code departs from what its comments or names promise, the model contains both versions: the code as written, with a lemma exhibiting the discrepancy, and a corrected version that the classes use. See "## Findings".

## Model

| member | source | states |
|---|---|---|
| Civil.DaysInMonth | src/lib/components/finzly-date-picker/finzly-date-picker.component.ts:185-188 | the last day of a month (`new Date(y, m + 1, 0).getDate()`) is between 28 and 31 |
| Civil.Weekday | src/lib/components/finzly-date-picker/finzly-date-picker.component.ts:187 | `getDay()` is a weekday 0..6 with Sunday = 0 |
| Civil.NormaliseDay | src/lib/components/finzly-custom-date-picker/finzly-custom-date-picker.component.ts:384-389 | a day of month out of range rolls over into the neighbouring months and yields a valid date |
| Civil.NormaliseDayNumber | src/lib/components/finzly-custom-date-picker/finzly-custom-date-picker.component.ts:384-389 | day `d` of a month lands exactly `d - 1` days after the month's 1st, whatever the sign of `d` |
| Civil.CarryMonth | src/lib/components/finzly-date-picker/finzly-date-picker.component.ts:152-164 | a month index out of 0..11 carries into the year, keeping the month count `12 * year + month` |
| Civil.CarryIsFloorDivision | src/lib/components/finzly-custom-date-picker/finzly-custom-date-picker.component.ts:390-392 | the carry is the floor division and modulo of ECMA-262's MakeDay |
| Civil.CarryNeighbours | src/lib/components/finzly-date-picker/finzly-date-picker.component.ts:152-164 | month indexes -1 and 12 carry into the previous and following year |
| Civil.Normalise | src/lib/components/finzly-date-picker/finzly-date-picker.component.ts:184-186 | `new Date(y, m, d)` always yields a valid calendar date |
| Civil.NormaliseNumber | src/lib/components/finzly-date-picker/finzly-date-picker.component.ts:184-186 | `new Date(y, m, d)` is `d - 1` days after the 1st of the carried month |
| Civil.DayNumberInjective | src/lib/components/finzly-date-picker/finzly-date-picker.component.ts:243-255 | two valid dates with the same day number are the same date |
| Civil.DayNumberOrder | src/lib/components/finzly-date-picker/finzly-date-picker.component.ts:257-261 | day numbers order valid dates exactly as (year, month, day) does |
| Civil.NormaliseExact | src/lib/components/finzly-custom-date-picker/finzly-custom-date-picker.component.ts:390-392 | after the carry, a day that exists in the target month is kept as it is |
| Civil.NormaliseInRange | src/lib/components/finzly-date-picker/finzly-date-picker.component.ts:219 | the day arithmetic behind the constructor and the setters (MakeDay) gives exactly (y, m, d) for in-range parts; the constructor applies its 0..99 year mapping before it (`Civil.ConstructorYearMapping`) |
| Civil.AddDays | src/lib/components/finzly-custom-date-picker/finzly-custom-date-picker.component.ts:384-389 | `setDate(getDate() + n)` yields a valid date |
| Civil.AddDaysNumber | src/lib/components/finzly-custom-date-picker/finzly-custom-date-picker.component.ts:384-389 | `setDate(getDate() + n)` moves the day number by exactly `n` |
| Civil.AddDaysInverse | src/lib/components/finzly-custom-date-picker/finzly-custom-date-picker.component.ts:384-389 | adding `n` days and then `-n` days returns the original date |
| Civil.AddDaysCompose | src/lib/components/finzly-custom-date-picker/finzly-custom-date-picker.component.ts:384-389 | adding `n` days and then `k` days is adding `n + k` days |
| Civil.WeekdayAfter | src/lib/components/finzly-custom-date-picker/finzly-custom-date-picker.component.ts:351-359 | `n` days later the weekday has moved by `n` modulo 7 |
| Civil.AddMonths | src/lib/components/finzly-custom-date-picker/finzly-custom-date-picker.component.ts:390-392 | `setMonth(getMonth() + n)` yields a valid date |
| Civil.AddMonthsExact | src/lib/components/finzly-custom-date-picker/finzly-custom-date-picker.component.ts:390-392 | when the day exists in the target month, `setMonth` keeps it and moves the month count by exactly `n` |
| Civil.AddMonthsOverflow | src/lib/components/finzly-custom-date-picker/finzly-custom-date-picker.component.ts:390-392 | when the day does not exist in the target month, the date overflows into the next month by the missing days |
| Civil.AddYears | src/lib/components/finzly-custom-date-picker/finzly-custom-date-picker.component.ts:393-395 | `setFullYear(getFullYear() + n)` yields a valid date |
| Civil.AddYearsExact | src/lib/components/finzly-custom-date-picker/finzly-custom-date-picker.component.ts:393-395 | when the day exists in the target year, `setFullYear` keeps month and day |
| Civil.NormaliseDayOverflow | src/lib/components/finzly-custom-date-picker/finzly-custom-date-picker.component.ts:390-395 | a day up to three past the month's end lands in the following month at `d - DaysInMonth` |
| Civil.MonthStart | src/lib/components/finzly-date-picker/finzly-date-picker.component.ts:152-164 | `new Date(y, m, 1)` is the 1st of the carried month |
| Civil.MonthStartRoundTrip | src/lib/components/finzly-date-picker/finzly-date-picker.component.ts:152-164 | the 1st of the next month, moved one month back, is the 1st of the original month, and the same holds the other way round |
| Civil.MakeDateInRange | src/lib/components/finzly-date-picker/finzly-date-picker.component.ts:219 | `new Date(y, m, d)` reads a year in 0..99 as 1900 + y; when the parts are in range for that year it is midnight of that date, and outside 0..99 the year is kept |
| Civil.MakeDatePrevious | src/lib/components/finzly-date-picker/finzly-date-picker.component.ts:207 | `new Date(year, month - 1, d)` is day `d` of the month before `month` of the constructor's year (1900 + year for a year in 0..99), with the year carried in January |
| Civil.MakeDateFollowing | src/lib/components/finzly-date-picker/finzly-date-picker.component.ts:232 | `new Date(year, month + 1, d)` is day `d` of the month after `month` of the constructor's year (1900 + year for a year in 0..99), with the year carried in December |
| Civil.TimeValueOrder | src/lib/components/finzly-date-picker/finzly-date-picker.component.ts:257-261 | comparing two `Date` objects compares their calendar days first, then their times of day |
| Civil.MonthNeighbours | src/lib/components/finzly-date-picker/finzly-date-picker.component.ts:152-164 | the month after the previous month, and the month before the next month, is the month itself |
| Civil.FollowingMonthStart | src/lib/components/finzly-date-picker/finzly-date-picker.component.ts:184-185 | the 1st of the following month comes exactly `DaysInMonth` days after the 1st of this month |
| Civil.LastDayOfMonth | src/lib/components/finzly-custom-date-picker/finzly-custom-date-picker.component.ts:364-365 | `new Date(y, k + 1, 0)` is the last day of month index `k`, for any `k` |
| Civil.MonthEnds | src/lib/components/finzly-date-picker/finzly-date-picker.component.ts:185-186 | day 0 of the next month is this month's last day, and day 0 of this month is the previous month's last day |
| Civil.PreviousMonthDate | src/lib/components/finzly-date-picker/finzly-date-picker.component.ts:207 | `new Date(y, m - 1, d)` is day `d` of the previous calendar month |
| Civil.FollowingMonthDate | src/lib/components/finzly-date-picker/finzly-date-picker.component.ts:232 | `new Date(y, m + 1, d)` is day `d` of the following calendar month |
| Civil.ConstructorYearMapping | src/lib/components/finzly-date-picker/finzly-date-picker.component.ts:219 | the constructor reads years 0..99 as 1900 + year: `new Date(99, 12, 1)` is 1 January 2000 and `new Date(0, 2, 0)` is 28 February 1900, where the same parts without the mapping give 29 February of year 0 |
| CalendarGrid.FirstWeekday | src/lib/components/finzly-custom-date-picker/finzly-custom-date-picker.component.ts:122-125 | the weekday of the displayed month's 1st, in 0..6 |
| CalendarGrid.MonthLayout | src/lib/components/finzly-custom-date-picker/finzly-custom-date-picker.component.ts:122-127 | the month's lead (0..6), its own length and the previous month's length (28..31) |
| CalendarGrid.GridDate | src/lib/components/finzly-custom-date-picker/finzly-custom-date-picker.component.ts:131-163 | every cell shows a valid calendar date |
| CalendarGrid.GridCell | src/lib/components/finzly-custom-date-picker/finzly-custom-date-picker.component.ts:131-163 | cell `k` is current-month exactly for the month's own days; `isToday` and `isSelected` hold exactly when the cell's date is today or the selected day |
| CalendarGrid.Grid | src/lib/components/finzly-custom-date-picker/finzly-custom-date-picker.component.ts:131-163 | the grid always has exactly 42 cells |
| CalendarGrid.GridDayNumber | src/lib/components/finzly-custom-date-picker/finzly-custom-date-picker.component.ts:131-163 | cell `k` is `k - firstDayOfWeek` days after the displayed month's 1st |
| CalendarGrid.LeadingCell | src/lib/components/finzly-custom-date-picker/finzly-custom-date-picker.component.ts:131-140 | the cell pushed for `new Date(year, month - 1, prevLastDate - i)` is the laid-out leading cell `lead - 1 - i` |
| CalendarGrid.CurrentCell | src/lib/components/finzly-custom-date-picker/finzly-custom-date-picker.component.ts:142-151 | the cell pushed for `new Date(year, month, day)` is the laid-out cell `lead + day - 1` |
| CalendarGrid.TrailingCell | src/lib/components/finzly-custom-date-picker/finzly-custom-date-picker.component.ts:153-163 | the cell pushed for `new Date(year, month + 1, day)` is the laid-out cell after the month's last day |
| CalendarGrid.LaidOutPrefixIsGrid | src/lib/components/finzly-custom-date-picker/finzly-custom-date-picker.component.ts:129-163 | the 42 cells pushed one at a time are the grid |
| CalendarGrid.MonthNumbers | src/lib/components/finzly-custom-date-picker/finzly-custom-date-picker.component.ts:122-127 | the three numbers read before the loops are the month's layout |
| CalendarGrid.GenerateCalendar | src/lib/components/finzly-custom-date-picker/finzly-custom-date-picker.component.ts:119-164 | the three loops build exactly the grid of the displayed month of the constructor's year (1900 + year for a year in 0..99) |
| CalendarGrid.PushCells | src/lib/components/finzly-custom-date-picker/finzly-custom-date-picker.component.ts:131-163 | after the three loops the pushed cells are the first 42 laid-out cells |
| CalendarGrid.GridIsShiftedMonthStart | src/lib/components/finzly-custom-date-picker/finzly-custom-date-picker.component.ts:131-163 | cell `k` is the displayed month's 1st moved by `k - firstDayOfWeek` days |
| CalendarGrid.GridConsecutive | src/lib/components/finzly-custom-date-picker/finzly-custom-date-picker.component.ts:131-163 | consecutive cells hold consecutive days |
| CalendarGrid.GridWeekday | src/lib/components/finzly-custom-date-picker/finzly-custom-date-picker.component.ts:131-163 | every row starts on a Sunday: cell `k` falls on weekday `k % 7` |
| CalendarGrid.GridMonthMembership | src/lib/components/finzly-custom-date-picker/finzly-custom-date-picker.component.ts:131-163 | a cell is current-month exactly when its date lies in the displayed month; earlier cells lie in the previous month and later ones in the next |
| CalendarGrid.GridSegments | src/lib/components/finzly-custom-date-picker/finzly-custom-date-picker.component.ts:153 | the previous month gives 0..6 cells and `42 - len` is at least 5, so it is never negative |
| CalendarGrid.CellDisabled | src/lib/components/finzly-custom-date-picker/finzly-custom-date-picker.component.ts:190-194 | a midnight cell is disabled exactly when its day is before `minDate`'s day (or the same day with `minDate` after midnight) or after `maxDate`'s day; with no bounds it never is |
| CalendarGrid.YearPage | src/lib/components/finzly-custom-date-picker/finzly-custom-date-picker.component.ts:253-257 | the year page is the 12 consecutive years starting at `floor(year / 12) * 12` |
| CalendarGrid.YearPageContains | src/lib/components/finzly-custom-date-picker/finzly-custom-date-picker.component.ts:253-257 | the page contains the year it was computed from, starts at a multiple of 12, and every year on it maps to the same page |
| CalendarGrid.YearRangeLabel | src/lib/components/finzly-custom-date-picker/finzly-custom-date-picker.component.ts:259-262 | the label is "first - last" of the page |
| CalendarGrid.MonthStartAt | src/lib/components/finzly-custom-date-picker/finzly-custom-date-picker.component.ts:207-215 | navigation (`new Date(year, month ± 1, 1)`) lands on the 1st of a month at midnight, with the month count of the constructor's year (1900 + year for a year in 0..99) moved by the given amount |
| CalendarGrid.MonthNavigationRoundTrip | src/lib/components/finzly-custom-date-picker/finzly-custom-date-picker.component.ts:207-215 | for a shown year the constructor keeps, `nextMonth` then `previousMonth`, or the other way round, returns to the 1st of the month shown whenever the intermediate month's year is also kept |
| CalendarGrid.NextMonthIsFollowing | src/lib/components/finzly-custom-date-picker/finzly-custom-date-picker.component.ts:207-215 | `nextMonth` and `previousMonth` land on the 1st of the following and previous calendar months of the constructor's year, December and January carried |
| CalendarGrid.YearsAround | src/lib/components/finzly-custom-date-picker/finzly-custom-date-picker.component.ts:166-174 | `generateYears` lists the `2 * span + 1` consecutive years centred on the given year |
| CalendarGrid.FormattedValue | src/lib/components/finzly-custom-date-picker/finzly-custom-date-picker.component.ts:413-417 | the formatted date is '' without a selected date and otherwise the corrected single-pass formatter's output (not the replace chain as written) |
| CalendarGrid.NavigationLeavesYear100 | src/lib/components/finzly-date-picker/finzly-date-picker.component.ts:152-164 | from January of year 100, `previousMonth` shows December 99 and `nextMonth` from there shows January 2000 |
| DatePicker.CreateLocalDate | src/lib/components/finzly-date-picker/finzly-date-picker.component.ts:446-455 | the selected date moves to 12:00:00.000 and keeps year, month and day outside years 0..99; a year in 0..99 becomes 1900 + year, rolled over when the day does not exist that year |
| DatePicker.AsWrittenGrid | src/lib/components/finzly-date-picker/finzly-date-picker.component.ts:204-240 | the grid as written has 42 cells; its flags compare `month - 1` and `month + 1` against the displayed year |
| DatePicker.AsWrittenAgreesInsideYear | src/lib/components/finzly-date-picker/finzly-date-picker.component.ts:204-240 | from February to November the flags as written equal the calendar-date flags |
| DatePicker.AsWrittenMissesOtherYear | src/lib/components/finzly-date-picker/finzly-date-picker.component.ts:212-238 | in January the leading cells, and in December the trailing cells, are never flagged today or selected |
| DatePicker.NewYearsEveNotFlagged | src/lib/components/finzly-date-picker/finzly-date-picker.component.ts:212-213 | with January 1970 shown and today 31 December 1969, cell 3 shows today's date but the component leaves it unflagged |
| DatePicker.LabelsFor | src/lib/components/finzly-date-picker/finzly-date-picker.component.ts:374-394 | the cached labels: '' with no selection, a 12-year page starting at a multiple of 12 that holds the shown year, and its "first - last" label; the formatted date is the corrected formatter's (see Left out) |
| DatePicker.DatePicker.constructor | src/lib/components/finzly-date-picker/finzly-date-picker.component.ts:46-61 | nothing selected, `displayDate` is now, calendar closed in the day view, caches empty |
| DatePicker.DatePicker.NgOnInit | src/lib/components/finzly-date-picker/finzly-date-picker.component.ts:76-92 | draws the corrected grid of the shown month (calendar-date flags), lists the 41 years from 20 before to 20 after today's, and fills the caches |
| DatePicker.DatePicker.GenerateCalendar | src/lib/components/finzly-date-picker/finzly-date-picker.component.ts:181-241 | `calendarDays` becomes the corrected 42-cell grid of the shown month, whose flags compare whole calendar dates |
| DatePicker.DatePicker.UpdateCachedValues | src/lib/components/finzly-date-picker/finzly-date-picker.component.ts:374-394 | the caches become the labels of the current selection and shown month, with the corrected formatter's date (see Left out) |
| DatePicker.DatePicker.Refresh | src/lib/components/finzly-date-picker/finzly-date-picker.component.ts:100-101 | the corrected grid and the caches follow the new date |
| DatePicker.DatePicker.WriteValue | src/lib/components/finzly-date-picker/finzly-date-picker.component.ts:95-103 | a given date is selected at noon (through the constructor's year mapping) and shown, and the corrected grid drawn; no date clears the selection and keeps the shown month |
| DatePicker.DatePicker.ToggleCalendar | src/lib/components/finzly-date-picker/finzly-date-picker.component.ts:117-128 | ignored while disabled; otherwise flips the calendar, and closing it reports a touch |
| DatePicker.DatePicker.CloseCalendar | src/lib/components/finzly-date-picker/finzly-date-picker.component.ts:134-139 | the calendar is closed in the day view and a touch is reported |
| DatePicker.DatePicker.SelectDate | src/lib/components/finzly-date-picker/finzly-date-picker.component.ts:141-150 | only a current-month cell that is not disabled is selected (at noon) and reported, after which the calendar closes in the day view and the corrected grid is drawn; any other cell changes nothing |
| DatePicker.DatePicker.PreviousMonth | src/lib/components/finzly-date-picker/finzly-date-picker.component.ts:152-157 | the shown date moves to the 1st of the previous month, year carried through the constructor's mapping, and the corrected grid is drawn |
| DatePicker.DatePicker.NextMonth | src/lib/components/finzly-date-picker/finzly-date-picker.component.ts:159-164 | the shown date moves to the 1st of the next month, year carried through the constructor's mapping, and the corrected grid is drawn |
| DatePicker.DatePicker.GoToToday | src/lib/components/finzly-date-picker/finzly-date-picker.component.ts:166-175 | today is shown and selected at noon, reported, the corrected grid drawn, and the calendar closes in the day view |
| DatePicker.DatePicker.SwitchToYearView | src/lib/components/finzly-date-picker/finzly-date-picker.component.ts:271-273 | the year view is shown |
| DatePicker.DatePicker.SwitchToMonthView | src/lib/components/finzly-date-picker/finzly-date-picker.component.ts:275-277 | the month view is shown |
| DatePicker.DatePicker.SwitchToDateView | src/lib/components/finzly-date-picker/finzly-date-picker.component.ts:279-281 | the day view is shown |
| DatePicker.DatePicker.SelectYear | src/lib/components/finzly-date-picker/finzly-date-picker.component.ts:283-289 | the 1st of the shown month in the chosen year (1900 + year for a year in 0..99) is shown and the corrected grid drawn, then the month view |
| DatePicker.DatePicker.SelectMonth | src/lib/components/finzly-date-picker/finzly-date-picker.component.ts:291-297 | the 1st of the chosen month of the shown year (through the constructor's mapping) is shown and the corrected grid drawn, then the day view |
| DatePicker.DatePicker.ShiftYears | src/lib/components/finzly-date-picker/finzly-date-picker.component.ts:299-321 | the shown month moves by `delta` years to its 1st (through the constructor's mapping) and the caches follow; the grid is not redrawn |
| DatePicker.DatePicker.PreviousYear | src/lib/components/finzly-date-picker/finzly-date-picker.component.ts:299-303 | one year back, to the 1st of the shown month, through the constructor's mapping |
| DatePicker.DatePicker.NextYear | src/lib/components/finzly-date-picker/finzly-date-picker.component.ts:305-309 | one year forward, to the 1st of the shown month, through the constructor's mapping |
| DatePicker.DatePicker.PreviousYearRange | src/lib/components/finzly-date-picker/finzly-date-picker.component.ts:311-315 | twelve years back (through the constructor's mapping); the year page is the page of the new year |
| DatePicker.DatePicker.NextYearRange | src/lib/components/finzly-date-picker/finzly-date-picker.component.ts:317-321 | twelve years forward (through the constructor's mapping); the year page is the page of the new year |
| DatePicker.RebuiltDate | src/lib/components/finzly-date-picker/finzly-date-picker.component.ts:446-455 | `new Date(y, m, d, 12)` keeps the date outside years 0..99, gives (1900 + y, m, d) when that date exists and rolls over otherwise |
| CustomDatePicker.PresetDate | src/lib/components/finzly-custom-date-picker/finzly-custom-date-picker.component.ts:343-376 | every preset yields a valid date; a preset without a case, the custom one included, gives today |
| CustomDatePicker.WeekStart | src/lib/components/finzly-custom-date-picker/finzly-custom-date-picker.component.ts:351-354 | today moved back by its weekday is a Sunday, that many days earlier |
| CustomDatePicker.WeekEnd | src/lib/components/finzly-custom-date-picker/finzly-custom-date-picker.component.ts:356-359 | today moved on by `6 - weekday` is a Saturday, that many days later |
| CustomDatePicker.PresetWeek | src/lib/components/finzly-custom-date-picker/finzly-custom-date-picker.component.ts:351-359 | FDW is the Sunday on or before today and LDW the Saturday on or after it, exactly six days apart |
| CustomDatePicker.PresetMonth | src/lib/components/finzly-custom-date-picker/finzly-custom-date-picker.component.ts:361-365 | FDM is the 1st of today's month and LDM its last day (31 in 31-day months, 29 in a leap February, 28 otherwise), in the constructor's year (1900 + year for a year in 0..99); outside 0..99 LDM is on or after today |
| CustomDatePicker.PresetYear | src/lib/components/finzly-custom-date-picker/finzly-custom-date-picker.component.ts:367-371 | FDY is 1 January and LDY 31 December of today's year, read through the constructor's mapping |
| CustomDatePicker.CustomDate | src/lib/components/finzly-custom-date-picker/finzly-custom-date-picker.component.ts:378-399 | the offset date is always a valid date |
| CustomDatePicker.CustomDayOffset | src/lib/components/finzly-custom-date-picker/finzly-custom-date-picker.component.ts:384-389 | a day or week offset moves the day number by exactly the signed amount, seven days per week |
| CustomDatePicker.CustomDayRoundTrip | src/lib/components/finzly-custom-date-picker/finzly-custom-date-picker.component.ts:384-389 | for days and weeks, `+v` then `-v` returns the base date |
| CustomDatePicker.WeekIsSevenDays | src/lib/components/finzly-custom-date-picker/finzly-custom-date-picker.component.ts:384-389 | `v` weeks is the same offset as `7 * v` days |
| CustomDatePicker.CustomMonthOffset | src/lib/components/finzly-custom-date-picker/finzly-custom-date-picker.component.ts:390-395 | a month or year offset shifts the month count by the signed amount, keeping the day when it exists and overflowing forward otherwise |
| CustomDatePicker.CarryYears | src/lib/components/finzly-custom-date-picker/finzly-custom-date-picker.component.ts:393-395 | moving the year by `n` is moving the month index by `12 * n` |
| CustomDatePicker.FindPreset | src/lib/components/finzly-custom-date-picker/finzly-custom-date-picker.component.ts:402 | `find` returns an entry with the key from the table, and nothing exactly when no entry has it |
| CustomDatePicker.PresetDescription | src/lib/components/finzly-custom-date-picker/finzly-custom-date-picker.component.ts:401-403 | the description is '' exactly for the custom preset, which the table does not list, and otherwise the table's description |
| CustomDatePicker.CustomDatePicker.DisplayedYears | src/lib/components/finzly-custom-date-picker/finzly-custom-date-picker.component.ts:253-257 | the year page has 12 years and holds the shown year |
| CustomDatePicker.CustomDatePicker.constructor | src/lib/components/finzly-custom-date-picker/finzly-custom-date-picker.component.ts:53-64 | nothing selected, no preset, picker and form closed, today's month shown in the day view |
| CustomDatePicker.CustomDatePicker.NgOnInit | src/lib/components/finzly-custom-date-picker/finzly-custom-date-picker.component.ts:89-93 | draws the grid and lists the 101 years from 50 before to 50 after today's |
| CustomDatePicker.CustomDatePicker.GenerateCalendar | src/lib/components/finzly-custom-date-picker/finzly-custom-date-picker.component.ts:119-164 | `calendarDays` becomes the 42-cell grid of the shown month in the constructor's year, whose flags compare whole dates |
| CustomDatePicker.CustomDatePicker.TogglePicker | src/lib/components/finzly-custom-date-picker/finzly-custom-date-picker.component.ts:99-110 | ignored while disabled; otherwise flips the picker, and closing it reports a touch, hides the form and resets the view |
| CustomDatePicker.CustomDatePicker.ClosePicker | src/lib/components/finzly-custom-date-picker/finzly-custom-date-picker.component.ts:112-117 | closed, form hidden, day view, and a touch reported |
| CustomDatePicker.CustomDatePicker.SelectDate | src/lib/components/finzly-custom-date-picker/finzly-custom-date-picker.component.ts:196-205 | only a current-month cell that is not disabled is selected, shown and reported, with the preset cleared and the picker closed; any other cell changes nothing |
| CustomDatePicker.CustomDatePicker.PreviousMonth | src/lib/components/finzly-custom-date-picker/finzly-custom-date-picker.component.ts:207-210 | the 1st of the previous month (through the constructor's year mapping) is shown and drawn |
| CustomDatePicker.CustomDatePicker.NextMonth | src/lib/components/finzly-custom-date-picker/finzly-custom-date-picker.component.ts:212-215 | the 1st of the next month (through the constructor's year mapping) is shown and drawn |
| CustomDatePicker.CustomDatePicker.SwitchToMonthView | src/lib/components/finzly-custom-date-picker/finzly-custom-date-picker.component.ts:217-219 | the month view is shown |
| CustomDatePicker.CustomDatePicker.SwitchToYearView | src/lib/components/finzly-custom-date-picker/finzly-custom-date-picker.component.ts:221-223 | the year view is shown |
| CustomDatePicker.CustomDatePicker.SelectYear | src/lib/components/finzly-custom-date-picker/finzly-custom-date-picker.component.ts:225-229 | the 1st of the shown month in the chosen year (1900 + year for a year in 0..99), then the month view |
| CustomDatePicker.CustomDatePicker.SelectMonth | src/lib/components/finzly-custom-date-picker/finzly-custom-date-picker.component.ts:231-235 | the 1st of the chosen month of the shown year (through the constructor's mapping), then the day view |
| CustomDatePicker.CustomDatePicker.ShiftYears | src/lib/components/finzly-custom-date-picker/finzly-custom-date-picker.component.ts:237-251 | the 1st of the shown month `delta` years away, through the constructor's mapping; the grid is not redrawn |
| CustomDatePicker.CustomDatePicker.WriteValue | src/lib/components/finzly-custom-date-picker/finzly-custom-date-picker.component.ts:291-297 | a given value is selected as is and shown, and the grid redrawn; no value clears the selection and leaves the grid |
| CustomDatePicker.CustomDatePicker.SelectPreset | src/lib/components/finzly-custom-date-picker/finzly-custom-date-picker.component.ts:311-325 | the custom preset only opens the form and clears the preset, leaving the date; any other preset selects its date, reports it and closes the picker with the form hidden in the day view |
| CustomDatePicker.CustomDatePicker.ApplyCustom | src/lib/components/finzly-custom-date-picker/finzly-custom-date-picker.component.ts:327-337 | the configured preset's date moved by the configured offset is selected under the custom preset, reported, and the picker closes |
| CustomDatePicker.CustomDatePicker.CancelCustom | src/lib/components/finzly-custom-date-picker/finzly-custom-date-picker.component.ts:339-341 | the custom form is hidden |
| ClockTime.JsRem | src/lib/components/finzly-time-picker/finzly-time-picker.component.ts:142 | JavaScript's `%`: the remainder keeps the dividend's sign and is smaller than the divisor in magnitude |
| ClockTime.IncrementHour | src/lib/components/finzly-time-picker/finzly-time-picker.component.ts:123-130 | on the dial (0..23 or 1..12) the hour stays on the dial and moves one place forward, wrapping round |
| ClockTime.DecrementHour | src/lib/components/finzly-time-picker/finzly-time-picker.component.ts:132-139 | on the dial the hour stays on the dial and moves one place back, wrapping round |
| ClockTime.HourSteppersInverse | src/lib/components/finzly-time-picker/finzly-time-picker.component.ts:123-139 | `decrementHour` undoes `incrementHour` and the other way round |
| ClockTime.IncrementHourPosition | src/lib/components/finzly-time-picker/finzly-time-picker.component.ts:123-130 | `n` presses of `incrementHour` move `n` places round the dial and stay on it |
| ClockTime.IncrementHourCycle | src/lib/components/finzly-time-picker/finzly-time-picker.component.ts:123-130 | the hour comes back exactly after a multiple of 24 (or 12) presses |
| ClockTime.HourList | src/lib/components/finzly-time-picker/finzly-time-picker.component.ts:201-205 | `hours` is 0..23 on a 24-hour clock and 1..12 on a 12-hour clock, ascending, with exactly the dial's hours |
| ClockTime.IncrementMinute | src/lib/components/finzly-time-picker/finzly-time-picker.component.ts:141-144 | `(minute + step) % 60` lies in 0..59 for a non-negative sum |
| ClockTime.MinuteSteppersStayOnGrid | src/lib/components/finzly-time-picker/finzly-time-picker.component.ts:141-149 | with a step that divides 60 the steppers keep a multiple of the step below 60 on that grid |
| ClockTime.MinuteSteppersInverse | src/lib/components/finzly-time-picker/finzly-time-picker.component.ts:141-149 | with a step that divides 60, `decrementMinute` undoes `incrementMinute` on the grid, and the other way round |
| ClockTime.MinuteList | src/lib/components/finzly-time-picker/finzly-time-picker.component.ts:207-210 | `minutes` has `60 / minuteStep` entries, truncated |
| ClockTime.MinuteListGrid | src/lib/components/finzly-time-picker/finzly-time-picker.component.ts:207-210 | every listed minute is a multiple of the step below 60, and when the step divides 60 every such multiple is listed |
| ClockTime.TogglePeriod | src/lib/components/finzly-time-picker/finzly-time-picker.component.ts:151-154 | the period always changes |
| ClockTime.TogglePeriodTwice | src/lib/components/finzly-time-picker/finzly-time-picker.component.ts:151-154 | toggling twice restores the period |
| ClockTime.PadStart2 | src/lib/components/finzly-time-picker/finzly-time-picker.component.ts:178-179 | `padStart(2, '0')` of a non-negative number is its two-digit (or longer) decimal form |
| ClockTime.FormattedTime | src/lib/components/finzly-time-picker/finzly-time-picker.component.ts:177-181 | "HH:MM" on a 24-hour clock and "HH:MM AM\|PM" on a 12-hour one, zero-padded |
| ClockTime.DigitsValueOfNat | src/lib/components/finzly-time-picker/finzly-time-picker.component.ts:169-170 | `parseInt` of the digits `String(n)` writes gives back `n` |
| ClockTime.LeadingZero | src/lib/components/finzly-time-picker/finzly-time-picker.component.ts:169-170 | a leading zero does not change the value `parseInt` reads |
| ClockTime.Pad2Value | src/lib/components/finzly-time-picker/finzly-time-picker.component.ts:169-179 | the padded digits read back as the number |
| ClockTime.ParseFromLeftmost | src/lib/components/finzly-time-picker/finzly-time-picker.component.ts:167 | the search from index `i` finds nothing exactly when nothing from `i` on matches, and otherwise reads the first match |
| ClockTime.ParseTimeLeftmost | src/lib/components/finzly-time-picker/finzly-time-picker.component.ts:167 | `match` reads the leftmost match of `(\d+):(\d+)\s*(AM\|PM)?`, and finds none exactly when there is none |
| ClockTime.MatchAtStart | src/lib/components/finzly-time-picker/finzly-time-picker.component.ts:167 | a match at index 0 is the one read |
| ClockTime.MatchGroups | src/lib/components/finzly-time-picker/finzly-time-picker.component.ts:167-173 | the groups of a match at index 0 are the two digit runs and the optional period |
| ClockTime.ClockMatch | src/lib/components/finzly-time-picker/finzly-time-picker.component.ts:167-170 | "digits:digits" followed by a non-digit matches at once and reads both numbers |
| ClockTime.PeriodOfTail | src/lib/components/finzly-time-picker/finzly-time-picker.component.ts:171-173 | the tail written after the minutes reads back as its period (12-hour clock) or as none (24-hour clock) |
| ClockTime.ParseFormattedTime | src/lib/components/finzly-time-picker/finzly-time-picker.component.ts:166-181 | parsing `formattedTime` gives back the hour and minute, and the period on a 12-hour clock |
| ClockTime.IntToStringReadsBack | src/lib/components/finzly-time-picker/finzly-time-picker.component.ts:178-179 | `String(n)` reads back: the digits of a non-negative number give the number, a negative one is '-' then the digits of its magnitude |
| TimePicker.NoMatchKeepsClock | src/lib/components/finzly-time-picker/finzly-time-picker.component.ts:166-175 | a string in which `(\d+):(\d+)` matches nowhere leaves hour, minute and period unchanged |
| TimePicker.MatchSetsClock | src/lib/components/finzly-time-picker/finzly-time-picker.component.ts:166-175 | with a match, hour and minute are the numbers of the leftmost match, and the period changes exactly when that match has an AM/PM suffix, in any case |
| TimePicker.FormattedTimeReloads | src/lib/components/finzly-time-picker/finzly-time-picker.component.ts:166-181 | writing back the picker's own `formattedTime` restores hour and minute, and the period on a 12-hour clock |
| TimePicker.TimePicker.Hours | src/lib/components/finzly-time-picker/finzly-time-picker.component.ts:201-205 | `hours` lists exactly the hours of the dial |
| TimePicker.TimePicker.Minutes | src/lib/components/finzly-time-picker/finzly-time-picker.component.ts:207-210 | `minutes` has `60 / minuteStep` entries, each a multiple of the step below 60 |
| TimePicker.TimePicker.constructor | src/lib/components/finzly-time-picker/finzly-time-picker.component.ts:40-47 | the clock starts at 12:00 AM, closed, with nothing reported |
| TimePicker.TimePicker.WriteValue | src/lib/components/finzly-time-picker/finzly-time-picker.component.ts:50-54 | null or '' leaves the clock unchanged; any other string is parsed into it |
| TimePicker.TimePicker.ParseTimeInto | src/lib/components/finzly-time-picker/finzly-time-picker.component.ts:166-175 | the clock becomes what parsing the string leaves behind |
| TimePicker.TimePicker.ToggleTimePicker | src/lib/components/finzly-time-picker/finzly-time-picker.component.ts:68-79 | ignored while disabled; otherwise flips the picker, and closing it reports a touch |
| TimePicker.TimePicker.CloseTimePicker | src/lib/components/finzly-time-picker/finzly-time-picker.component.ts:117-121 | closed, and a touch reported |
| TimePicker.TimePicker.UpdateValue | src/lib/components/finzly-time-picker/finzly-time-picker.component.ts:162-164 | `formattedTime` is reported |
| TimePicker.TimePicker.IncrementHour | src/lib/components/finzly-time-picker/finzly-time-picker.component.ts:123-130 | one hour forward round the dial, then the time is reported |
| TimePicker.TimePicker.DecrementHour | src/lib/components/finzly-time-picker/finzly-time-picker.component.ts:132-139 | one hour back round the dial, then the time is reported |
| TimePicker.TimePicker.IncrementMinute | src/lib/components/finzly-time-picker/finzly-time-picker.component.ts:141-144 | one step forward modulo 60, then the time is reported |
| TimePicker.TimePicker.DecrementMinute | src/lib/components/finzly-time-picker/finzly-time-picker.component.ts:146-149 | one step back, 0 wrapping to `60 - minuteStep`, then the time is reported |
| TimePicker.TimePicker.TogglePeriod | src/lib/components/finzly-time-picker/finzly-time-picker.component.ts:151-154 | AM and PM swap, then the time is reported |
| TimePicker.TimePicker.SelectTime | src/lib/components/finzly-time-picker/finzly-time-picker.component.ts:156-160 | the time is reported and the picker closes with a touch |
| TimePicker.TimePicker.SelectHour | src/lib/components/finzly-time-picker/finzly-time-picker.component.ts:212-215 | the hour is taken as given, then the time is reported |
| TimePicker.TimePicker.SelectMinute | src/lib/components/finzly-time-picker/finzly-time-picker.component.ts:217-220 | the minute is taken as given, then the time is reported |
| DateTimePicker.ExtractTime | src/lib/components/finzly-date-time-picker/finzly-date-time-picker.component.ts:121-132 | on a 12-hour clock hour 0..23 shows as 1..12 with PM exactly from 12 on; on a 24-hour clock the hour is kept and the period left alone; the minute is kept |
| DateTimePicker.CombineHour | src/lib/components/finzly-date-time-picker/finzly-date-time-picker.component.ts:134-141 | on a 12-hour clock PM adds 12 except to 12 and 12 AM is 0, giving an hour in 0..23 that is PM exactly from 12 on |
| DateTimePicker.SetHours | src/lib/components/finzly-date-time-picker/finzly-date-time-picker.component.ts:143-144 | `setHours(h, m, 0, 0)` keeps the day and sets the time with seconds and milliseconds zeroed when h and m are in range |
| DateTimePicker.CombinedDateTime | src/lib/components/finzly-date-time-picker/finzly-date-time-picker.component.ts:134-147 | the combined value is the shown day at the clock's hour and minute, seconds and milliseconds zero |
| DateTimePicker.ExtractThenCombine | src/lib/components/finzly-date-time-picker/finzly-date-time-picker.component.ts:121-146 | reading a time into the clock and combining it gives back the original hour and minute on either clock, with seconds and milliseconds zeroed |
| DateTimePicker.CombineThenExtract | src/lib/components/finzly-date-time-picker/finzly-date-time-picker.component.ts:121-146 | combining a clock in range and reading it back gives back the clock |
| DateTimePicker.HourStepKeepsPeriod | src/lib/components/finzly-date-time-picker/finzly-date-time-picker.component.ts:290-297 | on a 12-hour clock, stepping up from 11 AM gives 12 AM, which combines to hour 0, because the steppers never change the period |
| DateTimePicker.FormattedDateTime | src/lib/components/finzly-date-time-picker/finzly-date-time-picker.component.ts:377-383 | '' exactly when nothing is selected; otherwise the text ends with a space and `formattedTime`, which `DateTimePicker.FormattedDateTimeReadsTime` reads back to the clock; the date part is the corrected formatter's (see Left out) |
| DateTimePicker.DateTimePicker.DisplayedYears | src/lib/components/finzly-date-time-picker/finzly-date-time-picker.component.ts:401-405 | the year page has 12 years and holds the shown year |
| DateTimePicker.DateTimePicker.constructor | src/lib/components/finzly-date-time-picker/finzly-date-time-picker.component.ts:46-60 | nothing selected, the current month shown in the day view, the clock at 12:00 AM |
| DateTimePicker.DateTimePicker.NgOnInit | src/lib/components/finzly-date-time-picker/finzly-date-time-picker.component.ts:67-71 | draws the grid and lists the 101 years from 50 before to 50 after today's |
| DateTimePicker.DateTimePicker.GenerateCalendar | src/lib/components/finzly-date-time-picker/finzly-date-time-picker.component.ts:209-257 | `calendarDays` becomes the 42-cell grid of the shown month in the constructor's year |
| DateTimePicker.DateTimePicker.WriteValue | src/lib/components/finzly-date-time-picker/finzly-date-time-picker.component.ts:77-86 | a given value is selected and shown, its time read into the clock and the grid redrawn; no value only clears the selection |
| DateTimePicker.DateTimePicker.TogglePicker | src/lib/components/finzly-date-time-picker/finzly-date-time-picker.component.ts:100-112 | ignored while disabled; otherwise flips the picker, and closing it reports a touch and resets the view |
| DateTimePicker.DateTimePicker.ClosePicker | src/lib/components/finzly-date-time-picker/finzly-date-time-picker.component.ts:114-119 | closed in the day view, and a touch reported |
| DateTimePicker.DateTimePicker.CombineDateTime | src/lib/components/finzly-date-time-picker/finzly-date-time-picker.component.ts:134-147 | the shown day at the clock's time becomes the selection and is reported |
| DateTimePicker.DateTimePicker.SelectDate | src/lib/components/finzly-date-time-picker/finzly-date-time-picker.component.ts:150-157 | only a current-month cell that is not disabled becomes the shown day (rebuilt by the constructor, so a year in 0..99 becomes 1900 + year), combined with the clock's hour and minute into the selection; any other cell changes nothing |
| DateTimePicker.DateTimePicker.PreviousMonth | src/lib/components/finzly-date-time-picker/finzly-date-time-picker.component.ts:159-162 | the 1st of the previous month (through the constructor's year mapping) is shown and drawn |
| DateTimePicker.DateTimePicker.NextMonth | src/lib/components/finzly-date-time-picker/finzly-date-time-picker.component.ts:164-167 | the 1st of the next month (through the constructor's year mapping) is shown and drawn |
| DateTimePicker.DateTimePicker.SwitchToMonthView | src/lib/components/finzly-date-time-picker/finzly-date-time-picker.component.ts:169-171 | the month view is shown |
| DateTimePicker.DateTimePicker.SwitchToYearView | src/lib/components/finzly-date-time-picker/finzly-date-time-picker.component.ts:173-175 | the year view is shown |
| DateTimePicker.DateTimePicker.SwitchToDateView | src/lib/components/finzly-date-time-picker/finzly-date-time-picker.component.ts:177-179 | the day view is shown |
| DateTimePicker.DateTimePicker.SelectYear | src/lib/components/finzly-date-time-picker/finzly-date-time-picker.component.ts:181-185 | the 1st of the shown month in the chosen year (1900 + year for a year in 0..99), then the month view |
| DateTimePicker.DateTimePicker.SelectMonth | src/lib/components/finzly-date-time-picker/finzly-date-time-picker.component.ts:187-191 | the 1st of the chosen month of the shown year (through the constructor's mapping), then the day view |
| DateTimePicker.DateTimePicker.ShiftYears | src/lib/components/finzly-date-time-picker/finzly-date-time-picker.component.ts:193-207 | the 1st of the shown month `delta` years away, through the constructor's mapping; the grid is not redrawn |
| DateTimePicker.DateTimePicker.IncrementHour | src/lib/components/finzly-date-time-picker/finzly-date-time-picker.component.ts:290-297 | one hour forward round the dial, then the value is recombined and reported |
| DateTimePicker.DateTimePicker.DecrementHour | src/lib/components/finzly-date-time-picker/finzly-date-time-picker.component.ts:299-306 | one hour back round the dial, then the value is recombined and reported |
| DateTimePicker.DateTimePicker.IncrementMinute | src/lib/components/finzly-date-time-picker/finzly-date-time-picker.component.ts:308-311 | one minute forward, 59 wrapping to 0, then the value is recombined and reported |
| DateTimePicker.DateTimePicker.DecrementMinute | src/lib/components/finzly-date-time-picker/finzly-date-time-picker.component.ts:313-316 | one minute back, 0 wrapping to 59, then the value is recombined and reported |
| DateTimePicker.DateTimePicker.TogglePeriod | src/lib/components/finzly-date-time-picker/finzly-date-time-picker.component.ts:318-321 | AM and PM swap, then the value is recombined and reported |
| DateTimePicker.DateTimePicker.ApplyDateTime | src/lib/components/finzly-date-time-picker/finzly-date-time-picker.component.ts:323-326 | the value is recombined and reported, then the picker closes in the day view with a touch |
| DateTimePicker.FormattedDateTimeReadsTime | src/lib/components/finzly-date-time-picker/finzly-date-time-picker.component.ts:377-383 | the text after the date reads back through `parseTime` as the clock's hour and minute, and its period on a 12-hour clock |
| DateFormat.MonthName | src/lib/pipes/finzly-date-format.pipe.ts:80-88 | month index 0..11 gives the long English name or its three-letter short form, never shorter than three letters |
| DateFormat.ShortIsPrefixOfLong | src/lib/pipes/finzly-date-format.pipe.ts:82-85 | every short month name is the first three letters of the long one |
| DateFormat.Hours12 | src/lib/pipes/finzly-date-format.pipe.ts:59 | `hours % 12 \|\| 12` lies in 1..12 and agrees with the 24-hour hour modulo 12 |
| DateFormat.Meridiem | src/lib/pipes/finzly-date-format.pipe.ts:60 | the period is "PM" exactly when the hour is 12 or later, and "AM" otherwise |
| DateFormat.LastTwo | src/lib/pipes/finzly-date-format.pipe.ts:64 | `slice(-2)` is the suffix of the year text of length min(2, length): the last two characters, or all of a shorter text |
| DateFormat.TokenTexts | src/lib/pipes/finzly-date-format.pipe.ts:53-77 | one replacement text per token of the chain, in the chain's order |
| DateFormat.ReplaceChainAbsent | src/lib/pipes/finzly-date-format.pipe.ts:62-77 | a chain of first-occurrence replacements none of whose tokens occurs leaves the text unchanged |
| DateFormat.FormatWithoutTokens | src/lib/pipes/finzly-date-format.pipe.ts:62-77 | a format containing none of the fifteen tokens is returned unchanged |
| DateFormat.DefaultFormat | src/lib/pipes/finzly-date-format.pipe.ts:52-78 | the default format 'MM/dd/yyyy' gives the two-digit month, a slash, the two-digit day, a slash and the year |
| DateFormat.ChainOverDigits | src/lib/pipes/finzly-date-format.pipe.ts:62-77 | once the text is digits, '-' and '/' only, no later letter token can rewrite it |
| DateFormat.MonthNameRewritten | src/lib/pipes/finzly-date-format.pipe.ts:65-76 | as written, 'MMMM' on 9:00 on 5 March 2024 gives "3amrc9", not "March": later tokens rewrite the inserted name |
| DateFormat.TokenAt | src/lib/pipes/finzly-date-format.pipe.ts:63-77 | finds the first token, in the chain's order (longest first), that starts at a given position, or none |
| DateFormat.TokenAtFirst | src/lib/pipes/finzly-date-format.pipe.ts:63-77 | a token that starts at the position with no earlier token starting there is the one found |
| DateFormat.IntendedMonthName | src/lib/pipes/finzly-date-format.pipe.ts:65 | with a single left-to-right pass 'MMMM' gives the long month name for every date |
| DateFormat.IntendedDefaultFormat | src/lib/pipes/finzly-date-format.pipe.ts:62-77 | on the default format the single pass and the replace chain agree |
| DateFormat.Transform | src/lib/pipes/finzly-date-format.pipe.ts:8-18 | a falsy value or an unparseable date gives the empty string; a date gives the corrected single-pass formatter's text (not the replace chain as written) |
| Toastr.NewToast | src/lib/components/finzly-toastr/finzly-toastr.service.ts:137-151 | the new toast carries the given identifier, the caller's title, message, width and callback, and is entering |
| Toastr.MessageOnlyDefaults | src/lib/components/finzly-toastr/finzly-toastr.service.ts:141-149 | a toast given only a message is an entering info toast with the default duration, dismissible, with icon and progress bar, not solid, medium sized |
| Toastr.TypedConfig | src/lib/components/finzly-toastr/finzly-toastr.service.ts:64-131 | the typed helpers pass their own type, message and title, each replaced by the caller's override when the caller's configuration has that key, even with the value undefined; the other settings are the caller's |
| Toastr.TypedHelperUndefined | src/lib/components/finzly-toastr/finzly-toastr.service.ts:64-70 | a type, title or message the caller writes as undefined replaces the helper's own, so the toast is an info toast, or has no title, or no message |
| Toastr.TypedHelperType | src/lib/components/finzly-toastr/finzly-toastr.service.ts:64-131 | without a type override the toast a typed helper shows has the helper's type |
| Toastr.DismissKeepsOrder | src/lib/components/finzly-toastr/finzly-toastr.service.ts:175-191 | dismiss keeps the list's length and identifiers in order, changes only toasts with the identifier (to leaving) and runs at most that identifier's callback |
| Toastr.DismissNoOp | src/lib/components/finzly-toastr/finzly-toastr.service.ts:179 | dismissing an unknown identifier or a toast already leaving changes nothing and runs no callback |
| Toastr.DismissEntering | src/lib/components/finzly-toastr/finzly-toastr.service.ts:179-189 | dismissing an entering toast turns exactly that toast to leaving and runs its callback exactly when it has one |
| Toastr.DismissIdempotent | src/lib/components/finzly-toastr/finzly-toastr.service.ts:175-191 | dismissing twice is the same as dismissing once |
| Toastr.RemoveExactly | src/lib/components/finzly-toastr/finzly-toastr.service.ts:196-199 | remove deletes exactly the toasts with the identifier and keeps every other |
| Toastr.RemoveAppend | src/lib/components/finzly-toastr/finzly-toastr.service.ts:198 | remove keeps the order of the remaining toasts |
| Toastr.RemoveUnique | src/lib/components/finzly-toastr/finzly-toastr.service.ts:196-199 | removing keeps the identifiers unique |
| Toastr.CountAfterLeave | src/lib/components/finzly-toastr/finzly-toastr.service.ts:181-183 | turning one entering toast to leaving lowers the number on screen by one |
| Toastr.ShowAsWritten | src/lib/components/finzly-toastr/finzly-toastr.service.ts:153-160 | as written the new list is the list before the cap's dismissal plus the new toast, and an empty list with a cap of zero or less throws |
| Toastr.ShowAsWrittenRunsCallbackTwice | src/lib/components/finzly-toastr/finzly-toastr.service.ts:153-167 | as written, with a cap of one a second toast runs the first toast's callback yet publishes it still entering beside the new one, so its timer runs the callback again |
| Toastr.ShowCorrectedKeepsCap | src/lib/components/finzly-toastr/finzly-toastr.service.ts:155-160 | with the cap corrected and at least one, showing a toast never puts more toasts on screen than the cap |
| Toastr.DismissConsistent | src/lib/components/finzly-toastr/finzly-toastr.service.ts:175-191 | dismiss keeps identifiers unique and every toast whose callback ran leaving, so no callback runs twice |
| Toastr.RemoveConsistent | src/lib/components/finzly-toastr/finzly-toastr.service.ts:196-199 | remove keeps that bookkeeping consistent |
| Toastr.ShowCorrectedConsistent | src/lib/components/finzly-toastr/finzly-toastr.service.ts:136-170 | the corrected show of a fresh toast keeps that bookkeeping consistent |
| Toastr.ClearStep | src/lib/components/finzly-toastr/finzly-toastr.service.ts:206 | each turn of clear's loop dismisses the next toast of the snapshot and runs its callback when it was entering and has one |
| Toastr.ClearLeavesAll | src/lib/components/finzly-toastr/finzly-toastr.service.ts:204-207 | clear removes no toast, keeps the order and leaves every toast leaving, none on screen |
| Toastr.ClearIdempotent | src/lib/components/finzly-toastr/finzly-toastr.service.ts:204-207 | a second clear changes nothing and runs no callback |
| Toastr.ToastrService.constructor | src/lib/components/finzly-toastr/finzly-toastr.service.ts:32-35 | the service starts with no toasts, position top-right, a default duration of 5000 and a cap of 5 |
| Toastr.ToastrService.Configure | src/lib/components/finzly-toastr/finzly-toastr.service.ts:45-59 | each setting supplied replaces the current one and the others stay |
| Toastr.ToastrService.Dismiss | src/lib/components/finzly-toastr/finzly-toastr.service.ts:175-191 | the board after dismiss is the dismiss function of the board before, keeping the bookkeeping consistent |
| Toastr.ToastrService.Expire | src/lib/components/finzly-toastr/finzly-toastr.service.ts:163-167 | a scheduled timer going off dismisses its toast |
| Toastr.ToastrService.Show | src/lib/components/finzly-toastr/finzly-toastr.service.ts:136-170 | corrected: a fresh identifier is handed out, at the cap the oldest entering toast is dismissed, the toast joins the end of the list, and a positive duration schedules its timer |
| Toastr.ToastrService.ShowTyped | src/lib/components/finzly-toastr/finzly-toastr.service.ts:64-131 | each typed helper is the corrected show of its typed configuration, with the same new identifier and the same auto-dismissal timer |
| Toastr.ToastrService.Remove | src/lib/components/finzly-toastr/finzly-toastr.service.ts:196-199 | the list afterwards is the list without the identifier's toasts |
| Toastr.ToastrService.Clear | src/lib/components/finzly-toastr/finzly-toastr.service.ts:204-207 | the loop over the snapshot leaves the board that dismissing each toast in turn gives |
| Dialogs.Merged | src/lib/components/finzly-dialog/finzly-dialog.service.ts:61 | every setting of the dialog is the caller's value when the caller gave the key (even as undefined), otherwise the default |
| Dialogs.EmptyConfigDefaults | src/lib/components/finzly-dialog/finzly-dialog.service.ts:159-173 | a dialog opened with no settings closes on backdrop click and on Escape, shows "OK" and "Cancel" and has no custom buttons |
| Dialogs.CallerOverridesShorthand | src/lib/components/finzly-dialog/finzly-dialog.service.ts:82-131 | whatever setting the caller passes to a shorthand wins over the shorthand's settings and the defaults |
| Dialogs.ConfirmTexts | src/lib/components/finzly-dialog/finzly-dialog.service.ts:82-90 | unless the caller sets them, confirm shows "Confirm" and "Cancel" |
| Dialogs.AlertTexts | src/lib/components/finzly-dialog/finzly-dialog.service.ts:92-100 | unless the caller sets them, alert shows "OK" and no cancel text: its explicit undefined hides the default "Cancel" |
| Dialogs.ShorthandTypes | src/lib/components/finzly-dialog/finzly-dialog.service.ts:102-131 | unless the caller sets a type, success, error and warning give their own type |
| Dialogs.CloseStep | src/lib/components/finzly-dialog/finzly-dialog.service.ts:133-148 | without a current dialog close changes nothing |
| Dialogs.OpenStep | src/lib/components/finzly-dialog/finzly-dialog.service.ts:48-80 | open leaves a new current dialog, not yet showing, with the merged settings, attached to the page, with an open timer scheduled |
| Dialogs.FireCorrected | src/lib/components/finzly-dialog/finzly-dialog.service.ts:139-146 | the intended close step detaches the dialog it was scheduled for, leaves a different current dialog alone and consumes its step |
| Dialogs.PendingIdsAppend | src/lib/components/finzly-dialog/finzly-dialog.service.ts:139-146 | scheduling one more close step adds its dialog to those still to be removed |
| Dialogs.CloseTidy | src/lib/components/finzly-dialog/finzly-dialog.service.ts:133-148 | close keeps every attached dialog either current or with a close step coming |
| Dialogs.OpenTidy | src/lib/components/finzly-dialog/finzly-dialog.service.ts:48-80 | open keeps every attached dialog either current or with a close step coming |
| Dialogs.FireCorrectedTidy | src/lib/components/finzly-dialog/finzly-dialog.service.ts:139-146 | the intended close step keeps every attached dialog either current or with a close step coming |
| Dialogs.OpenOverOpenAsWritten | src/lib/components/finzly-dialog/finzly-dialog.service.ts:139-146 | as written, opening a dialog over an open one and letting the first close step run leaves no current dialog, detaches the new dialog and leaves the old one attached with no step to remove it |
| Dialogs.OpenOverOpenCorrected | src/lib/components/finzly-dialog/finzly-dialog.service.ts:139-146 | with the intended close step the same sequence keeps the new dialog current and attached and removes the old one |
| Dialogs.Resolution | src/lib/components/finzly-dialog/finzly-dialog.service.ts:150-157 | an afterClosed promise resolves exactly once a result has been emitted after it was made |
| Dialogs.ResolutionStable | src/lib/components/finzly-dialog/finzly-dialog.service.ts:152-154 | later emissions never change what a promise resolved with |
| Dialogs.DialogService.constructor | src/lib/components/finzly-dialog/finzly-dialog.service.ts:40-46 | the service starts with no dialog, nothing attached, no pending step and nothing emitted |
| Dialogs.DialogService.Close | src/lib/components/finzly-dialog/finzly-dialog.service.ts:133-148 | the state after close is the close step of the state before, keeping the page tidy |
| Dialogs.DialogService.Open | src/lib/components/finzly-dialog/finzly-dialog.service.ts:48-80 | a fresh number is handed out and the state after is the open step of the state before, keeping the page tidy |
| Dialogs.DialogService.OpenShorthand | src/lib/components/finzly-dialog/finzly-dialog.service.ts:82-131 | each shorthand is open of its own settings followed by the caller's |
| Dialogs.DialogService.OpenTimerFires | src/lib/components/finzly-dialog/finzly-dialog.service.ts:70-74 | the open animation's timer shows the current dialog, whichever it is, as open, keeping the service's invariant |
| Dialogs.DialogService.CloseTimerFires | src/lib/components/finzly-dialog/finzly-dialog.service.ts:139-146 | corrected: the deferred close step removes the dialog it was scheduled for and keeps the page tidy |
| Dialogs.DialogService.AfterClosed | src/lib/components/finzly-dialog/finzly-dialog.service.ts:150-157 | a new promise is unresolved and waits for the next emitted result |
| Dialogs.ButtonClass | src/lib/components/finzly-dialog/finzly-dialog.component.ts:68-101 | the eight known button types give "btn btn-<type>"; any other or no type gives "btn btn-outline" |
| Dialogs.ButtonClassInjective | src/lib/components/finzly-dialog/finzly-dialog.component.ts:68-101 | distinct known button types get distinct classes |
| Dialogs.HasCustomButtons | src/lib/components/finzly-dialog/finzly-dialog.component.ts:103-105 | true exactly when a non-empty list of custom buttons is configured |
| Dialogs.ButtonResult | src/lib/components/finzly-dialog/finzly-dialog.component.ts:64 | a custom button closes with its own result when it has one, otherwise with true, never undefined |
| Dialogs.DialogComponent.constructor | src/lib/components/finzly-dialog/finzly-dialog.component.ts:13-29 | the component starts with the default settings, closed, with no button loading and nothing passed to closeDialog |
| Dialogs.DialogComponent.OnBackdropClick | src/lib/components/finzly-dialog/finzly-dialog.component.ts:31-35 | a backdrop click closes with null exactly when closeOnBackdropClick is truthy |
| Dialogs.DialogComponent.OnEscapePress | src/lib/components/finzly-dialog/finzly-dialog.component.ts:111-116 | Escape closes with null exactly when closeOnEscape is truthy |
| Dialogs.DialogComponent.OnCancel | src/lib/components/finzly-dialog/finzly-dialog.component.ts:37-39 | cancel closes with false |
| Dialogs.DialogComponent.OnConfirm | src/lib/components/finzly-dialog/finzly-dialog.component.ts:41-43 | confirm closes with true |
| Dialogs.DialogComponent.OnCustomButtonClick | src/lib/components/finzly-dialog/finzly-dialog.component.ts:45-66 | a disabled or loading button does nothing; a button with an action starts loading and awaits it; one without closes with its result or true unless closeOnClick is false |
| Dialogs.DialogComponent.ActionSettles | src/lib/components/finzly-dialog/finzly-dialog.component.ts:53-65 | whether the awaited action returned or threw, the button stops loading and the dialog closes with its result or true unless closeOnClick is false |
| Dropdown.IndexFrom | src/lib/components/finzly-dropdown/finzly-dropdown.component.ts:134-136 | `indexOf` finds the first position holding the value, or none when no position holds it |
| Dropdown.ToggleFlips | src/lib/components/finzly-dropdown/finzly-dropdown.component.ts:133-139 | on a list without duplicates, selecting an option in multi mode flips its value's membership, keeps every other value's and keeps the list free of duplicates |
| Dropdown.ToggleTwiceAbsent | src/lib/components/finzly-dropdown/finzly-dropdown.component.ts:134-139 | selecting an unselected option twice restores the selection exactly |
| Dropdown.ToggleTwicePresent | src/lib/components/finzly-dropdown/finzly-dropdown.component.ts:134-139 | deselecting and reselecting a value restores the same values with that value moved to the end |
| Dropdown.Filtered | src/lib/components/finzly-dropdown/finzly-dropdown.component.ts:227-237 | an empty search term shows every option |
| Dropdown.FilterByMembers | src/lib/components/finzly-dropdown/finzly-dropdown.component.ts:231-235 | the filter keeps exactly the options whose lower-cased label or description contains the lower-cased term |
| Dropdown.FilterByAppend | src/lib/components/finzly-dropdown/finzly-dropdown.component.ts:232-235 | the filter keeps the options' order |
| Dropdown.FindFrom | src/lib/components/finzly-dropdown/finzly-dropdown.component.ts:172-175 | `find` yields the first option carrying the value, or none when no option carries it |
| Dropdown.LabelOr | src/lib/components/finzly-dropdown/finzly-dropdown.component.ts:163-164 | the fallback when no option carries the value; otherwise the label of the first option carrying it, or the fallback when that label is empty |
| Dropdown.DisplayTextIsSelectedLabel | src/lib/components/finzly-dropdown/finzly-dropdown.component.ts:159-201 | getDisplayText and getSelectedLabel always give the same text |
| Dropdown.Dropdown.constructor | src/lib/components/finzly-dropdown/finzly-dropdown.component.ts:28-48 | the dropdown starts closed with an empty search, null as the single value, no values, no options shown and nothing reported |
| Dropdown.Dropdown.NgOnInit | src/lib/components/finzly-dropdown/finzly-dropdown.component.ts:57-61 | every option is shown |
| Dropdown.Dropdown.OptionsChanged | src/lib/components/finzly-dropdown/finzly-dropdown.component.ts:63-81 | new options are only noted: nothing shown or selected changes |
| Dropdown.Dropdown.WriteValue | src/lib/components/finzly-dropdown/finzly-dropdown.component.ts:84-91 | in multi mode a non-array becomes the empty list; in single mode null, undefined and '' become null and any other value is kept; the other mode's state stays |
| Dropdown.Dropdown.SetDisabledState | src/lib/components/finzly-dropdown/finzly-dropdown.component.ts:101-103 | the disabled flag takes the given value |
| Dropdown.Dropdown.ToggleDropdown | src/lib/components/finzly-dropdown/finzly-dropdown.component.ts:106-128 | ignored while disabled; otherwise the list flips open or shut with the search cleared, and opening shows every option and reports a touch |
| Dropdown.Dropdown.SelectOption | src/lib/components/finzly-dropdown/finzly-dropdown.component.ts:130-150 | a disabled option changes nothing; in multi mode the value is toggled and the new list reported; in single mode it becomes the value, is reported, and the list closes with the search cleared and every option shown |
| Dropdown.Dropdown.DisplayText | src/lib/components/finzly-dropdown/finzly-dropdown.component.ts:159-179 | the placeholder without a selection, "N items selected" for two or more values, otherwise the first matching option's label (`Dropdown.LabelOr`), the placeholder when none matches or its label is empty |
| Dropdown.Dropdown.OptionLabel | src/lib/components/finzly-dropdown/finzly-dropdown.component.ts:203-206 | the empty string when no option carries the value |
| Dropdown.Dropdown.RemoveValue | src/lib/components/finzly-dropdown/finzly-dropdown.component.ts:208-218 | ignored while disabled or when the value is not selected; otherwise the value's first occurrence goes and the new list is reported |
| Dropdown.Dropdown.OnSearch | src/lib/components/finzly-dropdown/finzly-dropdown.component.ts:220-225 | the term is taken, the options filtered by it and the term emitted |
| Dropdown.Dropdown.FilterOptions | src/lib/components/finzly-dropdown/finzly-dropdown.component.ts:227-237 | the options shown are those the current term selects |
| Dropdown.Dropdown.ClearSelection | src/lib/components/finzly-dropdown/finzly-dropdown.component.ts:239-250 | nothing is selected afterwards and the empty selection ([] or null) is reported |
| Dropdown.Dropdown.OnClickOutside | src/lib/components/finzly-dropdown/finzly-dropdown.component.ts:262-271 | a click outside an open list closes it, clears the search and shows every option; any other click changes nothing |
| Dropdown.Dropdown.OnEscape | src/lib/components/finzly-dropdown/finzly-dropdown.component.ts:273-278 | the list is closed, the search cleared and every option shown |
| Dropdown.Dropdown.OnEnter | src/lib/components/finzly-dropdown/finzly-dropdown.component.ts:280-286 | with the list open and exactly one option shown, that option is selected as by a click: a disabled one changes nothing, in multi-select it is toggled and the new list reported, in single-select it becomes the value, is reported, and the list closes with the search cleared; otherwise nothing changes |
| Dropdown.Dropdown.SelectedLabel | src/lib/components/finzly-dropdown/finzly-dropdown.component.ts:181-201 | `getSelectedLabel` gives the same text as `getDisplayText` in every state |
| InputEmail.LastIndexBelow | src/lib/components/finzly-input-email/finzly-input-email.component.ts:44 | the last position of the character below a bound, or none when it does not occur there |
| InputEmail.FirstIndexFrom | src/lib/components/finzly-input-email/finzly-input-email.component.ts:44 | the first position of the character from a point on, or none when it does not occur there |
| InputEmail.MatchesEmailIsPattern | src/lib/components/finzly-input-email/finzly-input-email.component.ts:44 | the computed test accepts exactly the strings of `^[a-zA-Z0-9._%+\-']+@[a-zA-Z0-9.-]+\.[a-zA-Z]{2,}$`, whose domain between the '@' and the last '.' is non-empty |
| InputEmail.NoAtInParts | src/lib/components/finzly-input-email/finzly-input-email.component.ts:44 | none of the pattern's three character classes admits '@' |
| InputEmail.PatternHasOneAt | src/lib/components/finzly-input-email/finzly-input-email.component.ts:44 | every string the pattern accepts has exactly one '@' |
| InputEmail.ValidateMeaning | src/lib/components/finzly-input-email/finzly-input-email.component.ts:83-106 | after trimming, an empty value is valid exactly when the field is optional (message errorText or "Email is required"); any other value is valid exactly when it matches the pattern (message errorText or "Please enter a valid email address"); a valid value has no message |
| InputEmail.ValidateSeesTrimmed | src/lib/components/finzly-input-email/finzly-input-email.component.ts:85 | values that trim alike are judged alike |
| InputEmail.EmptyRequiredShowsError | src/lib/components/finzly-input-email/finzly-input-email.component.ts:87-95 | after leaving the field empty, the error shows exactly when the field is required |
| InputEmail.InputEmail.constructor | src/lib/components/finzly-input-email/finzly-input-email.component.ts:33-40 | the field starts empty, valid, untouched, with no message and nothing reported |
| InputEmail.InputEmail.ValidateEmail | src/lib/components/finzly-input-email/finzly-input-email.component.ts:83-106 | the validity flag and message become the validation of the current value |
| InputEmail.InputEmail.WriteValue | src/lib/components/finzly-input-email/finzly-input-email.component.ts:47-52 | null or '' store '', any other value is stored; the value is validated only once the field was left |
| InputEmail.InputEmail.StoreValue | src/lib/components/finzly-input-email/finzly-input-email.component.ts:48-51 | the value is stored and validated only once the field was left |
| InputEmail.InputEmail.SetDisabledState | src/lib/components/finzly-input-email/finzly-input-email.component.ts:62-64 | the disabled flag takes the given value |
| InputEmail.InputEmail.OnInputChange | src/lib/components/finzly-input-email/finzly-input-email.component.ts:66-75 | the typed value is stored, validated once the field was left, and reported |
| InputEmail.InputEmail.OnInputBlur | src/lib/components/finzly-input-email/finzly-input-email.component.ts:77-81 | the field counts as left from then on, the value is validated and a touch reported |
| InputEmail.InputEmail.State | src/lib/components/finzly-input-email/finzly-input-email.component.ts:108-119 | default until the field is left; then error exactly when invalid and success exactly when valid with a non-empty value; never warning |
| InputEmail.InputEmail.ShowError | src/lib/components/finzly-input-email/finzly-input-email.component.ts:159-161 | the error shows exactly when the field was left, is invalid and has a message |
| InputEmail.InputEmail.ShowHelper | src/lib/components/finzly-input-email/finzly-input-email.component.ts:155-157 | the helper text shows exactly when there is one and the field is not in error |
| InputEmail.InputEmail.DisplayErrorText | src/lib/components/finzly-input-email/finzly-input-email.component.ts:163-165 | non-empty whenever the error shows, and then the validation message; '' exactly when both messages are empty; errorText when there is no validation message |
| InputEmail.EmptyDomainRejected | src/lib/components/finzly-input-email/finzly-input-email.component.ts:44 | "a@.co", whose domain is empty, is rejected by the test and the pattern; "a@b.co" is accepted |
| AmountFormatter.KeepAmountChars | src/lib/directives/amount-formatter.directive.ts:54 | the text keeps exactly its digits, '.' and '-' characters, and text made only of them is unchanged |
| AmountFormatter.Without | src/lib/directives/amount-formatter.directive.ts:58 | removing every occurrence of a character keeps exactly the other characters |
| AmountFormatter.Count | src/lib/directives/amount-formatter.directive.ts:69-70 | a character is counted zero times exactly when it does not occur |
| AmountFormatter.KeepFirstDot | src/lib/directives/amount-formatter.directive.ts:71 | joining the parts after the first '.' leaves at most one '.', keeps the first character and draws the rest from the rest |
| AmountFormatter.CutFraction | src/lib/directives/amount-formatter.directive.ts:75-77 | cutting the fraction keeps a prefix of the text whose fraction has at most the precision's length, and leaves a short enough fraction alone |
| AmountFormatter.FixSignShape | src/lib/directives/amount-formatter.directive.ts:57-66 | the sign step leaves amount characters only, no '-' without allowNegative, at most a leading '-' with it (exactly when the text started with one), and every digit in order |
| AmountFormatter.SanitizeShape | src/lib/directives/amount-formatter.directive.ts:51-78 | corrected: the sanitised text has amount characters only, at most one '.', a '-' only in front and only when negatives are allowed and the stripped text started with one, no more fraction characters than the precision, and digits that are a prefix of the typed digits |
| AmountFormatter.AsWrittenAgreesOnOneDot | src/lib/directives/amount-formatter.directive.ts:68-78 | typed text with at most one '.' is sanitised the same as written and corrected |
| AmountFormatter.AsWrittenKeepsLongFraction | src/lib/directives/amount-formatter.directive.ts:69-78 | as written, "1.2.3" at precision 1 becomes "1.23", two fraction digits, because the fraction is measured on the parts split before the dots were merged |
| AmountFormatter.CorrectedCutsLongFraction | src/lib/directives/amount-formatter.directive.ts:69-78 | with the fraction limited after the dots are merged, "1.2.3" at precision 1 becomes "1.2" |
| AmountFormatter.SanitizeFixes | src/lib/directives/amount-formatter.directive.ts:51-78 | text already in the sanitised shape is left as it is |
| AmountFormatter.SanitizeIdempotent | src/lib/directives/amount-formatter.directive.ts:51-78 | corrected: sanitising twice is sanitising once, so re-reading the field on the next keystroke changes nothing |
| AmountFormatter.DigitsValue | src/lib/directives/amount-formatter.directive.ts:81 | a string of n digits has a value below 10^n |
| AmountFormatter.FractionValue | src/lib/directives/amount-formatter.directive.ts:81 | the digits after the point have a value in [0, 1) |
| AmountFormatter.ParseSanitized | src/lib/directives/amount-formatter.directive.ts:81 | `parseFloat` of sanitised text is NaN exactly when no digit is left, and negative only after a leading '-' |
| AmountFormatter.NumericValue | src/lib/directives/amount-formatter.directive.ts:81 | the empty text and a lone '-' give no number; anything else is parsed |
| AmountFormatter.ClampMeaning | src/lib/directives/amount-formatter.directive.ts:84-96 | a number above maxValue becomes maxValue, else one below minValue becomes minValue, and any other number, NaN among them, is kept |
| AmountFormatter.ClampWithinBounds | src/lib/directives/amount-formatter.directive.ts:84-96 | with minValue at most maxValue every clamped finite number lies within the bounds |
| AmountFormatter.ClampIdempotent | src/lib/directives/amount-formatter.directive.ts:84-96 | clamping a clamped number keeps it as it is when minValue is at most maxValue |
| AmountFormatter.EnteredNull | src/lib/directives/amount-formatter.directive.ts:81-96 | typing stores no number exactly when the sanitised text is empty or a lone '-' |
| AmountFormatter.EnteredNaN | src/lib/directives/amount-formatter.directive.ts:81 | typing stores NaN exactly when the sanitised text has characters but no digit ("." or "-.") |
| AmountFormatter.EnteredWithinBounds | src/lib/directives/amount-formatter.directive.ts:84-96 | with consistent bounds a finite number stored by typing lies within them |
| AmountFormatter.UnsignedStaysNonNegative | src/lib/directives/amount-formatter.directive.ts:57-96 | without allowNegative typing never stores a negative number unless maxValue is negative |
| AmountFormatter.AmountFormatterDirective.Default | src/lib/directives/amount-formatter.directive.ts:16-23 | the inputs' defaults: two decimals, negatives allowed, no bounds, no number and an empty field |
| AmountFormatter.AmountFormatterDirective.constructor | src/lib/directives/amount-formatter.directive.ts:16-25 | the directive starts with the given inputs, no number and an empty field |
| AmountFormatter.AmountFormatterDirective.WriteValue | src/lib/directives/amount-formatter.directive.ts:27-34 | the number is stored; a number is shown formatted and null shows an empty field |
| AmountFormatter.AmountFormatterDirective.SetDisabledState | src/lib/directives/amount-formatter.directive.ts:44-46 | the field's disabled flag takes the given value |
| AmountFormatter.AmountFormatterDirective.SanitizeInput | src/lib/directives/amount-formatter.directive.ts:51-78 | corrected: the loop-free rewrite of the typed text yields the corrected sanitised text, in the sanitised shape |
| AmountFormatter.AmountFormatterDirective.OnInput | src/lib/directives/amount-formatter.directive.ts:49-101 | corrected: the sanitised text is parsed and clamped; the number is stored and reported, and the field shows the sanitised text or the bound it was moved to |
| AmountFormatter.AmountFormatterDirective.OnBlur | src/lib/directives/amount-formatter.directive.ts:104-114 | a touch is reported; a stored number is shown formatted; an empty field or lone '-' is cleared and null reported, so a lone '-' never survives leaving the field |
| AmountFormatter.AmountFormatterDirective.OnFocus | src/lib/directives/amount-formatter.directive.ts:117-122 | a stored number is shown plain; without one the field is left alone |
| ComponentData.Categories | demo/src/app/services/component-data.service.ts:13-56 | the category table has seven rows |
| ComponentData.FindById | demo/src/app/services/component-data.service.ts:62-64 | the entry found is in the catalogue and has the id; none is found exactly when no entry has the id |
| ComponentData.FindByIdFirst | demo/src/app/services/component-data.service.ts:63 | the entry found is the first one in catalogue order with the id |
| ComponentData.ByCategory | demo/src/app/services/component-data.service.ts:66-68 | the entries kept are exactly the catalogue's entries of that category |
| ComponentData.ByCategoryAppend | demo/src/app/services/component-data.service.ts:67 | filtering keeps catalogue order |
| ComponentData.ByCategoryCounts | demo/src/app/models/component-doc.model.ts:41-48 | the seven categories partition the catalogue: their entry counts add up to the catalogue's size |
| ComponentData.CategoryInfoOf | demo/src/app/services/component-data.service.ts:74-76 | the row found is a table row with that id |
| ComponentData.FindCategory | demo/src/app/services/component-data.service.ts:75 | the row found has the id; none is found exactly when no row has it |
| ComponentData.CategoryInfoTotal | demo/src/app/services/component-data.service.ts:74-76 | every category has a row in the table |
| ComponentData.RecentlyViewed | demo/src/app/services/component-data.service.ts:78-83 | the recently viewed entries are catalogue entries whose ids are stored, at most one per stored id |
| ComponentData.RecentlyViewedAppend | demo/src/app/services/component-data.service.ts:80-82 | the entries come in the stored ids' order |
| ComponentData.RecentlyViewedAllKnown | demo/src/app/services/component-data.service.ts:80-82 | when every stored id is in the catalogue, the i-th entry returned has the i-th stored id |
| ComponentData.WithoutId | demo/src/app/services/component-data.service.ts:90 | the filter keeps exactly the other ids and leaves a list without the id unchanged |
| ComponentData.AddRecent | demo/src/app/services/component-data.service.ts:87-92 | the viewed id comes first, does not occur again, is followed by the other ids in their old order, and the list is cut to 10 entries |
| ComponentData.WithoutIdDistinct | demo/src/app/services/component-data.service.ts:90 | filtering keeps a list free of repeats |
| ComponentData.AddRecentDistinct | demo/src/app/services/component-data.service.ts:89-92 | adding keeps the recent list free of repeats |
| ComponentData.AddRecentHeadUnchanged | demo/src/app/services/component-data.service.ts:89-92 | viewing the most recent entry again leaves a short list of distinct ids unchanged |
| ComponentData.AddRecentIsPermutation | demo/src/app/services/component-data.service.ts:89-92 | viewing an id already listed, with nothing cut, only reorders the list |
| ComponentData.WithoutIdOnce | demo/src/app/services/component-data.service.ts:90-91 | putting a listed id in front of the list without it gives the same ids when there are no repeats |
| ComponentData.ComponentDataService.constructor | demo/src/app/services/component-data.service.ts:10 | the service holds the given catalogue and stored recent list |
| ComponentData.ComponentDataService.GetComponentById | demo/src/app/services/component-data.service.ts:62-64 | the entry found is in the catalogue with the id; none exactly when no entry has it |
| ComponentData.ComponentDataService.GetComponentsByCategory | demo/src/app/services/component-data.service.ts:66-68 | exactly the catalogue's entries of the category |
| ComponentData.ComponentDataService.GetRecentlyViewed | demo/src/app/services/component-data.service.ts:78-83 | only catalogue entries whose ids are stored |
| ComponentData.ComponentDataService.AddToRecentlyViewed | demo/src/app/services/component-data.service.ts:85-95 | the stored list becomes the recent list with the id added at the front |
| Search.NormalizeIdempotent | demo/src/app/services/search.service.ts:17 | lower-casing and trimming an already normalised query changes nothing |
| Search.ContextShowsMatch | demo/src/app/services/search.service.ts:77-84 | the context of a match contains the matched text, after "..." and 50 characters when cut at the front, and is at most 50 characters plus "..." longer on each side |
| Search.ExtractMatchContextNoMatch | demo/src/app/services/search.service.ts:75 | where the query does not occur the context is at most the first 50 characters of the text followed by "..." |
| Search.FirstTag | demo/src/app/services/search.service.ts:42-43 | the tag found is a tag of the component that contains the query; none exactly when no tag does |
| Search.FirstProperty | demo/src/app/services/search.service.ts:50-53 | the property found is one whose lower-cased name or description contains the query; none exactly when no property does |
| Search.ResultForMeaning | demo/src/app/services/search.service.ts:30-61 | a component gives a result exactly when it matches somewhere, and its match type is the first of name, description, tag, property in which it matches |
| Search.ResultForMatchText | demo/src/app/services/search.service.ts:30-61 | a name match shows the name, a description match its context, a tag match the first matching tag and a property match the first matching property's name |
| Search.FirstTagIsFirst | demo/src/app/services/search.service.ts:43 | the tag found is the first matching tag in order |
| Search.FirstPropertyIsFirst | demo/src/app/services/search.service.ts:50-53 | the property found is the first matching property in order |
| Search.Collect | demo/src/app/services/search.service.ts:29-62 | at most one result per component, each the result of a catalogue component for the query |
| Search.CollectStep | demo/src/app/services/search.service.ts:29-62 | each turn of the walk appends the next component's result, if any |
| Search.CollectAppend | demo/src/app/services/search.service.ts:29-62 | results follow catalogue order |
| Search.CollectFinds | demo/src/app/services/search.service.ts:29-62 | a catalogue component appears among the results exactly when it matches somewhere |
| Search.SearchResults | demo/src/app/services/search.service.ts:21-24 | a query that is blank after lower-casing and trimming gives no results |
| Search.SearchNormalizedQuery | demo/src/app/services/search.service.ts:16-24 | searching for the stored normalised query finds the same as searching for the typed query |
| Search.SearchService.constructor | demo/src/app/services/search.service.ts:11-14 | the service starts with an empty stored query |
| Search.SearchService.SetSearchQuery | demo/src/app/services/search.service.ts:16-18 | the query is stored lower-cased and trimmed |
| Search.SearchService.Search | demo/src/app/services/search.service.ts:20-65 | the walk over the catalogue returns exactly the search results for the query |
| Search.SearchService.SearchComponents | demo/src/app/services/search.service.ts:67-71 | the stored query is searched when it is non-empty, the given query otherwise |
| CodeGenerator.FormatEntryForms | demo/src/app/services/code-generator.service.ts:56-72 | an emitted property gives one attribute on its own line: `[key]="true"` for true, `key="value"` for a string, `[key]="value"` otherwise; undefined, null, '' and false give nothing |
| CodeGenerator.FormatPropertiesAppend | demo/src/app/services/code-generator.service.ts:56-72 | attributes come out in the properties' key order |
| CodeGenerator.OmittedEntry | demo/src/app/services/code-generator.service.ts:57-68 | a property that is undefined, null, '' or false can be removed without changing the output |
| CodeGenerator.FormatEventsAppend | demo/src/app/services/code-generator.service.ts:74-78 | event bindings come out in key order |
| CodeGenerator.FormatEventsLength | demo/src/app/services/code-generator.service.ts:74-78 | every event binding adds its own line of at least seven characters |
| CodeGenerator.GenerateHTMLCodeShape | demo/src/app/services/code-generator.service.ts:14-24 | the snippet is the opening tag with the attributes and bindings, the content on its own indented line exactly when there is content, then the closing tag |
| CodeGenerator.Capitalize | demo/src/app/services/code-generator.service.ts:88-90 | same length, first character upper-cased, the rest unchanged |
| CodeGenerator.CapitalizeIdempotent | demo/src/app/services/code-generator.service.ts:88-90 | capitalising a capitalised name changes nothing |
| CodeGenerator.HandlerNameSame | demo/src/app/services/code-generator.service.ts:80-90 | two events get the same handler name exactly when they differ at most in the case of their first letter |
| CodeGenerator.GenerateEventHandler | demo/src/app/services/code-generator.service.ts:80-86 | the stub starts with the handler name "on" plus the capitalised event name |
| Text.IndexOf | demo/src/app/services/search.service.ts:74 | the position found is the first occurrence of the pattern; none exactly when the pattern occurs nowhere |
| Text.TrimShape | src/lib/components/finzly-input-email/finzly-input-email.component.ts:85 | `trim` yields the text without its leading and trailing whitespace: a slice of it with only whitespace outside and none at either end |
| Text.TrimIdempotent | src/lib/components/finzly-input-email/finzly-input-email.component.ts:85 | trimming twice is trimming once |
| Text.LowerTrim | demo/src/app/services/search.service.ts:17 | lower-casing and trimming can be done in either order |
| Text.Pad2 | src/lib/pipes/finzly-date-format.pipe.ts:54-58 | `padStart(2, '0')` of a number below 100 is its two decimal digits |
| Text.Lower | demo/src/app/services/search.service.ts:17 | `toLowerCase` keeps the length and lower-cases each ASCII letter, leaving other characters |
| Text.NatToString | src/lib/components/finzly-dropdown/finzly-dropdown.component.ts:166 | `String(n)` of a count is one or more decimal digits, one digit exactly below 10 and no leading zero |
| Text.ReplaceFirstMeaning | src/lib/pipes/finzly-date-format.pipe.ts:62-77 | `replace` of a string pattern leaves the text unchanged when the pattern is absent, and otherwise puts the replacement in place of the first occurrence only |

## Left out

- Browser and framework plumbing is not modelled:
  - DOM access and `ElementRef`;
  - outside-click, Escape and Enter listeners (modelled only as the state change they cause);
  - dropdown positioning, body-scroll locking and focus handling;
  - `NgZone`, `ChangeDetectorRef`, `ngOnDestroy` and `trackBy` helpers;
  - `registerOnChange`/`registerOnTouched`.
- `onChange`, `onTouched`, `selectionChange`, `searchChange`, `onClose` and `closeDialog` are recorded as lists (or counts) of the calls made.
- The dialog's `createComponent`/`attachView`/`appendChild` become a set of attached dialog numbers.
- `setTimeout` is modelled as explicit timer events. Their interleaving with other calls is chosen by the caller of the model.
- Dates carry no time zone, and the pipe's `timezone` argument (`applyTimezone`, `Intl.DateTimeFormat`) is not modelled.
  - `new Date(string)` parsing becomes the three cases absent, unparseable and a date.
- Amounts are exact rationals (`real`), so floating-point rounding, `-0` and `parseFloat` precision are not modelled.
  - `formatValue` (`Intl.NumberFormat`) and `Number.toString` are kept symbolic as the field texts `Formatted` and `Printed`.
  - `decimalPrecision` is an integer.
- `toLowerCase`/`toUpperCase` act on ASCII letters only.
  - `trim` and `\s` remove the ASCII whitespace and the no-break space, not the other Unicode spaces.
- JavaScript orders integer-like object keys before the others. The code generator takes the entries of an object in the order given.
- Toast ids are a counter. The service's `generateId` uses `Date.now()` and `Math.random()`.
- The recently-viewed list reads `localStorage` as an optional list of ids, so a stored text that is not valid JSON (which throws in `JSON.parse`) is not modelled.
- `getAllComponents` and `getAllCategories` only return a field. The search service takes the catalogue as a constant.
- The code generator's `generateTypeScriptCode`, `generateModuleImport`, `formatCode` and `formatHTML` (string templates and indentation) are not modelled.
- `getTypeIcon` of the dialog component returns fixed SVG markup and is not modelled.
- The pickers' and the e-mail input's `inputClass` getters are CSS-class string builders and are not modelled.
  - The same goes for the pickers' `showHelper` and `showError`.
- `isCurrentYear`, `isSelectedYear`, `isCurrentMonth`, `isSelectedMonth`, `currentYear` and `currentMonthIndex` of the pickers are one-line comparisons of the shown date and are not modelled.
- Dropdown.Dropdown.IsSelected: `isSelected` (and `hasSelection`) are one-line membership tests with no contract of their own; the display text and the selection methods state their effect.
- `setDisabledState` of the three date pickers and the time picker only copies a flag. The `disabled` guard it feeds is modelled where it is read.
- A dropdown option's value is a primitive (undefined, null, boolean, integer, string), so `===` is equality.
  - Object values compared by reference and `NaN` are not modelled.
- An awaited dialog button action is split into two events: the click (`OnCustomButtonClick`) and the action settling (`ActionSettles`).
- A time picker's `minuteStep` is a positive integer.
  - The minute list and the inverse property assume a step that divides 60.
- `parseInt` is applied to the `(\d+)` groups of the time expression, which hold only decimal digits, so its other inputs (signs, spaces, a radix prefix) are not modelled.
- DateTimePicker.HourStepKeepsPeriod: stepping 11 AM up gives 12 AM, i.e. midnight of the same day. This is modelled as written, since the steppers never touch the period.
- AmountFormatter.AmountFormatterDirective.OnInput: typing "." or "-." stores NaN and reports it, as the code does.
- Dropdown.Dropdown.OptionsChanged: only notes the new options. `ngOnChanges` tracks a reference and a length that nothing reads, so those two fields are not modelled.
- Dropdown.Dropdown.OptionLabel: states only the missing case. The found case is `Dropdown.LabelOr` with the empty fallback.
- DateFormat.Transform: returns the corrected single-pass formatter (`DateFormat.FormatIntended`), not the pipe's replace chain, so 'MMMM' gives "March" where the pipe as written gives "3amrc9". The chain as written is `DateFormat.FormatDate` (see Findings).
- CalendarGrid.FormattedValue: the pickers' `formattedDate` goes through the corrected formatter, as `DateFormat.Transform` does, not through the replace chain as written.
- CustomDatePicker.CustomDatePicker.FormattedDate: the same corrected formatter as `CalendarGrid.FormattedValue`.
- DateTimePicker.FormattedDateTime: the date part goes through the corrected formatter (`CalendarGrid.FormattedValue`), not the pipe's replace chain that the `formattedDateTime` getter calls; the two agree on the default 'MM/dd/yyyy' (`DateFormat.IntendedDefaultFormat`).
- DatePicker.LabelsFor: the cached formatted date goes through the corrected formatter (`CalendarGrid.FormattedValue`), not the pipe's replace chain; the two agree on the default 'MM/dd/yyyy' (`DateFormat.IntendedDefaultFormat`).
- DatePicker.DatePicker.UpdateCachedValues: the caches equal `DatePicker.LabelsFor`, so the cached formatted date is the corrected formatter's, not the pipe's replace chain.
- AmountFormatter.AmountFormatterDirective.OnInput: reads the corrected sanitised text, so at precision 1 "1.2.3" stores 1.2, where the directive as written stores 1.23 (`AmountFormatter.SanitizeAsWritten`, see Findings).
- AmountFormatter.AmountFormatterDirective.SanitizeInput: yields the corrected sanitised text; the text as written keeps the whole fraction after two or more dots.
- AmountFormatter.SanitizeShape: the fraction bound holds for the corrected sanitiser only; as written, "1.2.3" at precision 1 gives "1.23".
- AmountFormatter.SanitizeIdempotent: holds for the corrected sanitiser only; as written, "1.2.3" at precision 1 becomes "1.23" and the next keystroke cuts it to "1.2".
- DatePicker.DatePicker.NgOnInit: draws the corrected grid (`CalendarGrid.GridFor`), whose leading and trailing cells are flagged by their own dates; the component as written never flags them in January and December (`DatePicker.AsWrittenGrid`, see Findings).
- DatePicker.DatePicker.GenerateCalendar: `calendarDays` is the corrected grid, not `DatePicker.AsWrittenGrid`.
- DatePicker.DatePicker.Refresh: redraws the corrected grid.
- DatePicker.DatePicker.WriteValue: redraws the corrected grid.
- DatePicker.DatePicker.SelectDate: redraws the corrected grid.
- DatePicker.DatePicker.PreviousMonth: redraws the corrected grid.
- DatePicker.DatePicker.NextMonth: redraws the corrected grid.
- DatePicker.DatePicker.GoToToday: redraws the corrected grid.
- DatePicker.DatePicker.SelectYear: redraws the corrected grid.
- DatePicker.DatePicker.SelectMonth: redraws the corrected grid.
- Toastr.ToastrService.Show: uses the corrected `Toastr.ShowCorrected`. At the cap it counts the entering toasts only and dismisses the oldest entering one, and it publishes the board after the dismissal. The service as written tests `currentToasts.length`, dismisses `currentToasts[0]` and publishes the snapshot taken before (see Findings).
- Toastr.ToastrService.ShowTyped: goes through the corrected `Toastr.ToastrService.Show`.
- Dialogs.DialogService.CloseTimerFires: runs the corrected step (`Dialogs.FireCorrected`), which removes the dialog `close` was called on; as written the step tears down whichever dialog is current (`Dialogs.FireAsWritten`, see Findings).
- CalendarGrid.MonthNavigationRoundTrip: is stated only for a shown year, and an intermediate year, that the constructor keeps (outside 0..99). From January of year 100, `previousMonth` then `nextMonth` reaches January 2000 (`CalendarGrid.NavigationLeavesYear100`).
- DatePicker.AsWrittenAgreesInsideYear: is stated only for years outside 0..99, where the constructor's year and the shown year are the same.
- Dropdown.Dropdown.WriteValue: stores the given values as a value. The component keeps the caller's array by reference and later changes it in place with `splice` and `push`, so the caller's array changes too; that aliasing is not modelled.
- CustomDatePicker.CustomDatePicker.ApplyCustom: the offset `value` is an integer. The source passes it to `setDate`, `setMonth` and `setFullYear`, which truncate a fractional value; fractional offsets are not modelled.

## Findings

| source | as written | input that shows it | evidently intended | confidence | as-written member | corrected member |
|---|---|---|---|---|---|---|
| src/lib/components/finzly-toastr/finzly-toastr.service.ts:153-160 | at the cap (`currentToasts.length`, leaving toasts included), `show` dismisses `currentToasts[0]` and then publishes the snapshot taken before the dismissal plus the new toast. So the list grows past the cap, the dismissed toast is published as entering again, and its timer later runs its `onClose` a second time | cap 1, one toast with an `onClose` on screen, then `show` a second toast | at most `maxToasts` entering toasts on screen; the oldest entering toast is dismissed and stays dismissed (the corrected show counts entering toasts and dismisses the oldest of them) | not executed | Toastr.ShowAsWrittenRunsCallbackTwice | Toastr.ShowCorrectedKeepsCap |
| src/lib/components/finzly-date-picker/finzly-date-picker.component.ts:212-213 | leading and trailing cells compare `month - 1` and `month + 1` with the shown year, so in January and December they are never flagged today or selected | January 1970 shown, today 31 December 1969: cell 3 is today but not flagged | a cell is flagged when its own calendar date is today or the selected date | not executed | DatePicker.NewYearsEveNotFlagged | CalendarGrid.Grid |
| src/lib/components/finzly-dialog/finzly-dialog.service.ts:139-146 | the deferred close step tears down whichever dialog is current when the timer fires | `open` A, then `open` B before A's close step runs: the step destroys B and A stays attached | the step removes the dialog `close` was called on | not executed | Dialogs.OpenOverOpenAsWritten | Dialogs.OpenOverOpenCorrected |
| src/lib/directives/amount-formatter.directive.ts:69-78 | the fraction is limited using the parts split before extra dots are merged, so text with two or more dots keeps its whole fraction | "1.2.3" at precision 1 gives "1.23" | at most `decimalPrecision` fraction digits, "1.2" | not executed | AmountFormatter.AsWrittenKeepsLongFraction | AmountFormatter.CorrectedCutsLongFraction |
| src/lib/pipes/finzly-date-format.pipe.ts:62-77 | each `replace` searches the text produced so far, so later tokens rewrite the month name that 'MMMM' inserted | 'MMMM' at 9:00 on 5 March 2024 gives "3amrc9" | "March": every token replaced once, inserted text left alone | not executed | DateFormat.MonthNameRewritten | DateFormat.IntendedMonthName |
