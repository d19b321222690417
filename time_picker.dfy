/**
 * The time picker (`finzly-time-picker`): a clock whose value is the string `formattedTime`
 * ("HH:MM" or "HH:MM AM"), read back with `parseTime` when a value is written.
 */
module TimePicker {
  import opened Options
  import opened ClockTime

  /** The clock fields `hour`, `minute` and `period`. */
  datatype Clock = Clock(hour: int, minute: int, period: Period)

  /**
   * The clock `parseTime` leaves behind: without a match nothing changes; with one, hour and
   * minute are the numbers read, and the period changes only when a suffix was read.
   */
  function AfterParse(s: string, c: Clock): Clock {
    match ParseTime(s)
    case None => c
    case Some(p) => Clock(p.hour, p.minute, p.period.GetOr(c.period))
  }

  /** A string in which the expression matches nowhere leaves the clock as it was. */
  lemma NoMatchKeepsClock(s: string, c: Clock)
    requires forall k :: 0 <= k <= |s| ==> !MatchesAt(s, k)
    ensures AfterParse(s, c) == c
  {
    ParseTimeLeftmost(s);
  }

  /**
   * With a match, the clock holds the numbers of the leftmost match; the period changes
   * exactly when that match carries an AM/PM suffix.
   */
  lemma MatchSetsClock(s: string, c: Clock)
    requires exists k :: 0 <= k <= |s| && MatchesAt(s, k)
    ensures exists k ::
      0 <= k <= |s| && MatchesAt(s, k) && (forall k' :: 0 <= k' < k ==> !MatchesAt(s, k')) &&
      AfterParse(s, c) == Clock(MatchAt(s, k).hour, MatchAt(s, k).minute, MatchAt(s, k).period.GetOr(c.period))
  {
    ParseTimeLeftmost(s);
  }

  /**
   * Writing back the picker's own `formattedTime` restores hour and minute, and the period
   * on a 12-hour clock; on a 24-hour clock the string has no suffix and the period stays.
   */
  lemma FormattedTimeReloads(hour: nat, minute: nat, period: Period, use24Hour: bool, before: Clock)
    ensures AfterParse(FormattedTime(hour, minute, period, use24Hour), before) ==
      Clock(hour, minute, if use24Hour then before.period else period)
  {
    ParseFormattedTime(hour, minute, period, use24Hour);
  }

  /** The time picker component's state. */
  class TimePicker {
    const use24Hour: bool
    const minuteStep: int
    var disabled: bool
    var hour: int
    var minute: int
    var period: Period
    var isTimePickerOpen: bool
    /** The strings reported through `onChange`, oldest first. */
    var changes: seq<string>
    /** How often `onTouched` was called. */
    var touches: nat

    function ClockNow(): Clock
      reads this`hour, this`minute, this`period
    {
      Clock(hour, minute, period)
    }

    /** `formattedTime`. */
    function ShownTime(): string
      reads this`hour, this`minute, this`period
    {
      FormattedTime(hour, minute, period, use24Hour)
    }

    /** `hours`. */
    function Hours(): (hs: seq<int>)
      ensures forall h :: h in hs <==> HourInRange(h, use24Hour)
    {
      HourList(use24Hour)
    }

    /** `minutes`: needs a positive step (a step of 0 asks for an unbounded list). */
    function Minutes(): (ms: seq<int>)
      requires minuteStep > 0
      ensures |ms| == 60 / minuteStep && forall m :: m in ms ==> OnMinuteGrid(m, minuteStep)
    {
      MinuteListGrid(minuteStep);
      MinuteList(minuteStep)
    }

    constructor (use24Hour: bool, minuteStep: int, disabled: bool)
      ensures this.use24Hour == use24Hour && this.minuteStep == minuteStep && this.disabled == disabled
      ensures ClockNow() == Clock(12, 0, AM) && !isTimePickerOpen && changes == [] && touches == 0
    {
      this.use24Hour := use24Hour;
      this.minuteStep := minuteStep;
      this.disabled := disabled;
      hour := 12;
      minute := 0;
      period := AM;
      isTimePickerOpen := false;
      changes := [];
      touches := 0;
    }

    /** `writeValue`: a non-empty string is parsed into the clock; null or '' changes nothing. */
    method WriteValue(value: Option<string>)
      modifies this`hour, this`minute, this`period
      ensures value.None? || value.value == "" ==> ClockNow() == old(ClockNow())
      ensures value.Some? && value.value != "" ==> ClockNow() == AfterParse(value.value, old(ClockNow()))
    {
      if value.Some? && value.value != "" {
        ParseTimeInto(value.value);
      }
    }

    /** `parseTime`: the leftmost "digits:digits" with an optional AM/PM, case ignored. */
    method ParseTimeInto(timeString: string)
      modifies this`hour, this`minute, this`period
      ensures ClockNow() == AfterParse(timeString, old(ClockNow()))
    {
      var parts := ParseTime(timeString);
      if parts.Some? {
        hour := parts.value.hour;
        minute := parts.value.minute;
        if parts.value.period.Some? {
          period := parts.value.period.value;
        }
      }
    }

    /** `toggleTimePicker`: ignored while disabled; closing reports a touch. */
    method ToggleTimePicker()
      modifies this`isTimePickerOpen, this`touches
      ensures disabled ==> isTimePickerOpen == old(isTimePickerOpen) && touches == old(touches)
      ensures !disabled ==> isTimePickerOpen == !old(isTimePickerOpen)
      ensures !disabled ==> touches == if isTimePickerOpen then old(touches) else old(touches) + 1
    {
      if !disabled {
        isTimePickerOpen := !isTimePickerOpen;
        if !isTimePickerOpen {
          touches := touches + 1;
        }
      }
    }

    /** `closeTimePicker`: closed, and a touch reported. */
    method CloseTimePicker()
      modifies this`isTimePickerOpen, this`touches
      ensures !isTimePickerOpen && touches == old(touches) + 1
    {
      isTimePickerOpen := false;
      touches := touches + 1;
    }

    /** `updateValue`: report `formattedTime`. */
    method UpdateValue()
      modifies this`changes
      ensures changes == old(changes) + [ShownTime()]
    {
      changes := changes + [ShownTime()];
    }

    /** `incrementHour`: one hour up round the dial, then report. */
    method IncrementHour()
      modifies this`hour, this`changes
      ensures hour == ClockTime.IncrementHour(old(hour), use24Hour)
      ensures changes == old(changes) + [ShownTime()]
    {
      hour := ClockTime.IncrementHour(hour, use24Hour);
      UpdateValue();
    }

    /** `decrementHour`: one hour down round the dial, then report. */
    method DecrementHour()
      modifies this`hour, this`changes
      ensures hour == ClockTime.DecrementHour(old(hour), use24Hour)
      ensures changes == old(changes) + [ShownTime()]
    {
      hour := ClockTime.DecrementHour(hour, use24Hour);
      UpdateValue();
    }

    /** `incrementMinute`: one step up, wrapping past 59, then report. */
    method IncrementMinute()
      modifies this`minute, this`changes
      ensures minute == ClockTime.IncrementMinute(old(minute), minuteStep)
      ensures changes == old(changes) + [ShownTime()]
    {
      minute := ClockTime.IncrementMinute(minute, minuteStep);
      UpdateValue();
    }

    /** `decrementMinute`: one step down, 0 wrapping to `60 - minuteStep`, then report. */
    method DecrementMinute()
      modifies this`minute, this`changes
      ensures minute == ClockTime.DecrementMinute(old(minute), minuteStep)
      ensures changes == old(changes) + [ShownTime()]
    {
      minute := ClockTime.DecrementMinute(minute, minuteStep);
      UpdateValue();
    }

    /** `togglePeriod`: AM and PM swap, then report. */
    method TogglePeriod()
      modifies this`period, this`changes
      ensures period == ClockTime.TogglePeriod(old(period))
      ensures changes == old(changes) + [ShownTime()]
    {
      period := ClockTime.TogglePeriod(period);
      UpdateValue();
    }

    /** `selectTime`: report the time and close. */
    method SelectTime()
      modifies this`changes, this`isTimePickerOpen, this`touches
      ensures changes == old(changes) + [ShownTime()]
      ensures !isTimePickerOpen && touches == old(touches) + 1
    {
      UpdateValue();
      CloseTimePicker();
    }

    /** `selectHour`: take the hour as given, then report. */
    method SelectHour(h: int)
      modifies this`hour, this`changes
      ensures hour == h && changes == old(changes) + [ShownTime()]
    {
      hour := h;
      UpdateValue();
    }

    /** `selectMinute`: take the minute as given, then report. */
    method SelectMinute(m: int)
      modifies this`minute, this`changes
      ensures minute == m && changes == old(changes) + [ShownTime()]
    {
      minute := m;
      UpdateValue();
    }
  }
}
