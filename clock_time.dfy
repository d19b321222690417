/**
 * Time-of-day arithmetic shared by the time picker and the date-time picker: the hour and
 * minute steppers, the AM/PM toggle, the `hours` and `minutes` lists, `formattedTime`, and
 * the time picker's `parseTime`, which reads the first match of the case-insensitive regular
 * expression `(\d+):(\d+)\s*(AM|PM)?`.
 */
module ClockTime {
  import opened Options
  import opened Text

  datatype Period = AM | PM

  /** JavaScript's `a % n` for a positive `n`: the remainder truncated toward zero. */
  function JsRem(a: int, n: int): (r: int)
    requires n > 0
    ensures a >= 0 ==> 0 <= r < n
    ensures a < 0 ==> -n < r <= 0
  {
    if a >= 0 then a % n else -((-a) % n)
  }

  // ---------------------------------------------------------------- hours

  /** The hours the pickers offer: 0..23 on a 24-hour clock, 1..12 on a 12-hour clock. */
  predicate HourInRange(hour: int, use24Hour: bool) {
    if use24Hour then 0 <= hour < 24 else 1 <= hour <= 12
  }

  /** The number of hours on the dial, and the first of them. */
  function DialSize(use24Hour: bool): int { if use24Hour then 24 else 12 }
  function DialStart(use24Hour: bool): int { if use24Hour then 0 else 1 }

  /** `incrementHour`: `(hour + 1) % 24` on a 24-hour clock; 12 wraps to 1 on a 12-hour clock. */
  function IncrementHour(hour: int, use24Hour: bool): (h: int)
    ensures HourInRange(hour, use24Hour) ==> HourInRange(h, use24Hour)
    ensures HourInRange(hour, use24Hour) ==>
      h - DialStart(use24Hour) == (hour - DialStart(use24Hour) + 1) % DialSize(use24Hour)
  {
    if use24Hour then JsRem(hour + 1, 24)
    else if hour == 12 then 1
    else hour + 1
  }

  /** `decrementHour`: 0 wraps to 23 on a 24-hour clock, 1 wraps to 12 on a 12-hour clock. */
  function DecrementHour(hour: int, use24Hour: bool): (h: int)
    ensures HourInRange(hour, use24Hour) ==> HourInRange(h, use24Hour)
    ensures HourInRange(hour, use24Hour) ==>
      h - DialStart(use24Hour) == (hour - DialStart(use24Hour) - 1) % DialSize(use24Hour)
  {
    if use24Hour then (if hour == 0 then 23 else hour - 1)
    else if hour == 1 then 12
    else hour - 1
  }

  /** On the dial the two hour steppers undo each other. */
  lemma HourSteppersInverse(hour: int, use24Hour: bool)
    requires HourInRange(hour, use24Hour)
    ensures DecrementHour(IncrementHour(hour, use24Hour), use24Hour) == hour
    ensures IncrementHour(DecrementHour(hour, use24Hour), use24Hour) == hour
  {
  }

  /** `incrementHour` pressed `n` times. */
  function IncrementHourTimes(hour: int, use24Hour: bool, n: nat): int
    decreases n
  {
    if n == 0 then hour else IncrementHour(IncrementHourTimes(hour, use24Hour, n - 1), use24Hour)
  }

  /** Pressing `incrementHour` `n` times moves `n` places round the dial. */
  lemma {:induction false} IncrementHourPosition(hour: int, use24Hour: bool, n: nat)
    requires HourInRange(hour, use24Hour)
    ensures HourInRange(IncrementHourTimes(hour, use24Hour, n), use24Hour)
    ensures IncrementHourTimes(hour, use24Hour, n) - DialStart(use24Hour) ==
      (hour - DialStart(use24Hour) + n) % DialSize(use24Hour)
    decreases n
  {
    if n > 0 {
      IncrementHourPosition(hour, use24Hour, n - 1);
      ModSuccessor(hour - DialStart(use24Hour), n - 1, DialSize(use24Hour));
    }
  }

  /**
   * After a full turn of the dial (24 or 12 presses of `incrementHour`) the hour is back
   * where it started, and never earlier.
   */
  lemma IncrementHourCycle(hour: int, use24Hour: bool, n: nat)
    requires HourInRange(hour, use24Hour)
    ensures IncrementHourTimes(hour, use24Hour, n) == hour <==> n % DialSize(use24Hour) == 0
  {
    IncrementHourPosition(hour, use24Hour, n);
    ModOffset(hour - DialStart(use24Hour), n, DialSize(use24Hour));
  }

  /** `((x + k) % size + 1) % size == (x + k + 1) % size`. */
  lemma ModSuccessor(x: int, k: int, size: int)
    requires size == 12 || size == 24
    ensures ((x + k) % size + 1) % size == (x + k + 1) % size
  {
    var y := x + k;
    var q, r := y / size, y % size;
    assert y + 1 == size * q + (r + 1);
    if r + 1 == size {
      assert y + 1 == size * (q + 1);
      MultipleDivMod(size, q + 1);
    } else {
      MultipleDivModPlus(size, q, r + 1);
    }
  }

  /** `(d * q + r) % d == r` for `0 <= r < d`. */
  lemma MultipleDivModPlus(d: int, q: int, r: int)
    requires d > 0 && 0 <= r < d
    ensures (d * q + r) % d == r
  {
    var x := d * q + r;
    var q', r' := x / d, x % d;
    assert d * (q + 1) == d * q + d && d * (q' + 1) == d * q' + d;
    if q' < q {
      MulMonotone(d, q' + 1, q);
    } else if q' > q {
      MulMonotone(d, q + 1, q');
    }
  }

  /** For `0 <= x < size`, `(x + n) % size == x` exactly when `n` is a multiple of `size`. */
  lemma ModOffset(x: int, n: nat, size: int)
    requires size == 12 || size == 24
    requires 0 <= x < size
    ensures (x + n) % size == x <==> n % size == 0
  {
    if size == 12 {
      assert (x + n) % 12 == x <==> n % 12 == 0;
    }
  }

  /** `hours`: 0..23 on a 24-hour clock, 1..12 on a 12-hour clock, in order. */
  function HourList(use24Hour: bool): (hs: seq<int>)
    ensures |hs| == DialSize(use24Hour)
    ensures forall i, j :: 0 <= i < j < |hs| ==> hs[i] < hs[j]
    ensures forall h :: h in hs <==> HourInRange(h, use24Hour)
  {
    var hs := if use24Hour then seq(24, i => i) else seq(12, i => i + 1);
    assert forall h :: HourInRange(h, use24Hour) ==> hs[h - DialStart(use24Hour)] == h;
    hs
  }

  // ---------------------------------------------------------------- minutes

  /** The step divides the hour, as the `minutes` list assumes (1, 5, 15, 30, ...). */
  predicate DividesHour(step: int) {
    0 < step && 60 % step == 0
  }

  /** A minute the `minutes` list offers for a positive step: a multiple of the step below 60. */
  predicate OnMinuteGrid(minute: int, step: int)
    requires step > 0
  {
    0 <= minute < 60 && minute % step == 0
  }

  /** `incrementMinute`: `(minute + step) % 60`, with JavaScript's remainder. */
  function IncrementMinute(minute: int, step: int): (m: int)
    ensures minute + step >= 0 ==> 0 <= m < 60
  {
    JsRem(minute + step, 60)
  }

  /** `decrementMinute`: 0 wraps to `60 - step`, anything else goes down by the step. */
  function DecrementMinute(minute: int, step: int): (m: int)
  {
    if minute == 0 then 60 - step else minute - step
  }

  /** Multiplying by a non-negative number keeps the order. */
  lemma MulMonotone(d: int, a: int, b: int)
    requires d >= 0 && a <= b
    ensures d * a <= d * b
  {
    assert d * b == d * a + d * (b - a);
  }

  /** `(d * k) / d == k` and `(d * k) % d == 0`. */
  lemma MultipleDivMod(d: int, k: int)
    requires d > 0
    ensures (d * k) / d == k && (d * k) % d == 0
  {
    var x := d * k;
    var q, r := x / d, x % d;
    assert x == d * q + r;
    assert d * (q + 1) == d * q + d && d * (k + 1) == d * k + d;
    if q < k {
      MulMonotone(d, q + 1, k);
    } else if q > k {
      MulMonotone(d, k + 1, q);
    }
  }

  /** A multiple of a step that divides the hour is at most one step below 60. */
  lemma GridRoom(minute: int, step: int)
    requires DividesHour(step) && OnMinuteGrid(minute, step)
    ensures minute + step <= 60
  {
    var q, t := minute / step, 60 / step;
    assert minute == step * q && 60 == step * t;
    if t < q + 1 {
      MulMonotone(step, t, q);
    }
    MulMonotone(step, q + 1, t);
    assert step * (q + 1) == step * q + step;
  }

  /** Adding or removing a step keeps a multiple of the step a multiple of it. */
  lemma StepMultiple(minute: int, step: int)
    requires step > 0 && minute % step == 0
    ensures (minute + step) % step == 0 && (minute - step) % step == 0
  {
    var q := minute / step;
    assert minute == step * q;
    assert minute + step == step * (q + 1);
    assert minute - step == step * (q - 1);
    MultipleDivMod(step, q + 1);
    MultipleDivMod(step, q - 1);
  }

  /** The minute steppers keep a minute on the grid of a step that divides the hour. */
  lemma MinuteSteppersStayOnGrid(minute: int, step: int)
    requires DividesHour(step) && OnMinuteGrid(minute, step)
    ensures OnMinuteGrid(IncrementMinute(minute, step), step)
    ensures OnMinuteGrid(DecrementMinute(minute, step), step)
  {
    GridRoom(minute, step);
    StepMultiple(minute, step);
    assert (60 - step) % step == 0 by { StepMultiple(60, step); }
    if minute != 0 {
      assert minute >= step;
    }
  }

  /** On the grid of a step that divides the hour, the two minute steppers undo each other. */
  lemma MinuteSteppersInverse(minute: int, step: int)
    requires DividesHour(step) && OnMinuteGrid(minute, step)
    ensures DecrementMinute(IncrementMinute(minute, step), step) == minute
    ensures IncrementMinute(DecrementMinute(minute, step), step) == minute
  {
    GridRoom(minute, step);
    if minute != 0 {
      assert minute >= step;
    }
  }

  /** `minutes`: `60 / minuteStep` entries (the length truncated), the multiples of the step. */
  function MinuteList(step: int): (ms: seq<int>)
    requires step > 0
    ensures |ms| == 60 / step
  {
    seq(60 / step, i => i * step)
  }

  /**
   * Every entry of `minutes` is on the grid; when the step divides the hour every grid
   * minute is listed. (With a step of 7 the list stops at 49, though 56 is on the grid.)
   */
  lemma MinuteListGrid(step: int)
    requires step > 0
    ensures forall m :: m in MinuteList(step) ==> OnMinuteGrid(m, step)
    ensures DividesHour(step) ==> forall m :: OnMinuteGrid(m, step) <==> m in MinuteList(step)
  {
    var ms := MinuteList(step);
    forall m | m in ms
      ensures OnMinuteGrid(m, step)
    {
      var i :| 0 <= i < |ms| && ms[i] == m;
      ListedOnGrid(i, step);
    }
    if DividesHour(step) {
      forall m | OnMinuteGrid(m, step)
        ensures m in ms
      {
        GridListed(m, step);
        assert ms[m / step] == m;
      }
    }
  }

  lemma ListedOnGrid(i: int, step: int)
    requires step > 0 && 0 <= i < 60 / step
    ensures OnMinuteGrid(i * step, step)
  {
    var t := 60 / step;
    MulMonotone(step, i, t - 1);
    MulMonotone(step, 0, i);
    assert 60 == step * t + 60 % step;
    assert step * (t - 1) == step * t - step;
    assert i * step == step * i;
    MultipleDivMod(step, i);
  }

  lemma GridListed(m: int, step: int)
    requires DividesHour(step) && OnMinuteGrid(m, step)
    ensures 0 <= m / step < 60 / step && (m / step) * step == m
  {
    GridRoom(m, step);
    var q, t := m / step, 60 / step;
    assert m == step * q && 60 == step * t;
    if q < 0 {
      MulMonotone(step, q, -1);
    }
    if t <= q {
      MulMonotone(step, t, q);
    }
  }

  // ---------------------------------------------------------------- period

  /** `togglePeriod`: AM becomes PM and PM becomes AM. */
  function TogglePeriod(p: Period): (r: Period)
    ensures r != p
  {
    if p == AM then PM else AM
  }

  /** Toggling twice restores the period. */
  lemma TogglePeriodTwice(p: Period)
    ensures TogglePeriod(TogglePeriod(p)) == p
  {
  }

  function PeriodText(p: Period): string {
    if p == AM then "AM" else "PM"
  }

  // ---------------------------------------------------------------- formatting

  /** `String(n).padStart(2, '0')` for any integer (a negative number keeps its sign). */
  function PadStart2(n: int): (s: string)
    ensures n >= 0 ==> s == Pad2(n)
  {
    var digits := IntToString(n);
    if |digits| < 2 then "0" + digits else digits
  }

  /** `formattedTime`: "HH:MM" on a 24-hour clock, "HH:MM AM" or "HH:MM PM" on a 12-hour one. */
  function FormattedTime(hour: int, minute: int, period: Period, use24Hour: bool): (s: string)
    ensures 0 <= hour < 100 && 0 <= minute < 100 ==>
      |s| == (if use24Hour then 5 else 8) && s[2] == ':' &&
      s[0] == DigitChar(hour / 10) && s[1] == DigitChar(hour % 10) &&
      s[3] == DigitChar(minute / 10) && s[4] == DigitChar(minute % 10)
    ensures !use24Hour && 0 <= hour < 100 && 0 <= minute < 100 ==>
      s[5] == ' ' && s[6..] == PeriodText(period)
  {
    var clock := PadStart2(hour) + ":" + PadStart2(minute);
    if use24Hour then clock else clock + " " + PeriodText(period)
  }

  // ---------------------------------------------------------------- parsing

  /** The length of the run of decimal digits (`\d+`, taken greedily) starting at index `i`. */
  function DigitRun(s: string, i: nat): (n: nat)
    requires i <= |s|
    ensures i + n <= |s|
    decreases |s| - i
  {
    if i < |s| && IsDigit(s[i]) then 1 + DigitRun(s, i + 1) else 0
  }

  /** The length of the run of white space (`\s*`) starting at index `i`. */
  function SpaceRun(s: string, i: nat): (n: nat)
    requires i <= |s|
    ensures i + n <= |s|
    decreases |s| - i
  {
    if i < |s| && IsSpace(s[i]) then 1 + SpaceRun(s, i + 1) else 0
  }

  predicate AllDigits(s: string) {
    forall k :: 0 <= k < |s| ==> IsDigit(s[k])
  }

  /** The value of a decimal digit character. */
  function DigitValue(c: char): int {
    c as int - '0' as int
  }

  /** The `n` characters of `s` from index `i`, read as a decimal number. */
  function NumberAt(s: string, i: nat, n: nat): int
    requires i + n <= |s|
    decreases n
  {
    if n == 0 then 0 else 10 * NumberAt(s, i, n - 1) + DigitValue(s[i + n - 1])
  }

  /** `parseInt(digits, 10)`, for a string of decimal digits. */
  function DigitsValue(digits: string): int {
    NumberAt(digits, 0, |digits|)
  }

  /** Reading digits inside a longer string is reading them on their own. */
  lemma {:induction false} NumberAtShift(x: string, y: string, z: string, n: nat)
    requires n <= |y|
    ensures NumberAt(x + y + z, |x|, n) == NumberAt(y, 0, n)
    decreases n
  {
    if n > 0 {
      NumberAtShift(x, y, z, n - 1);
      assert (x + y + z)[|x| + n - 1] == y[n - 1];
    }
  }

  /** Reading the digits `String(n)` writes gives back `n`. */
  lemma {:induction false} DigitsValueOfNat(n: nat)
    ensures DigitsValue(NatToString(n)) == n
    decreases n
  {
    var s := NatToString(n);
    if n >= 10 {
      var front := NatToString(n / 10);
      DigitsValueOfNat(n / 10);
      assert s == [] + front + [DigitChar(n % 10)];
      NumberAtShift([], front, [DigitChar(n % 10)], |front|);
    }
  }

  /**
   * `String(n)` for an integer reads back: the digits of a non-negative number give the
   * number, and a negative number is a '-' followed by the digits of its magnitude.
   */
  lemma IntToStringReadsBack(n: int)
    ensures n >= 0 ==> AllDigits(IntToString(n)) && DigitsValue(IntToString(n)) == n
    ensures n < 0 ==> var r := IntToString(n);
      |r| >= 2 && r[0] == '-' && AllDigits(r[1..]) && DigitsValue(r[1..]) == -n
  {
    if n >= 0 {
      DigitsValueOfNat(n);
    } else {
      DigitsValueOfNat(-n);
      assert IntToString(n)[1..] == NatToString(-n);
    }
  }

  /** A leading zero does not change the value of the first `k` digits. */
  lemma {:induction false} LeadingZeroPrefix(digits: string, k: nat)
    requires k <= |digits|
    ensures NumberAt("0" + digits, 0, k + 1) == NumberAt(digits, 0, k)
    decreases k
  {
    if k > 0 {
      LeadingZeroPrefix(digits, k - 1);
      assert ("0" + digits)[k] == digits[k - 1];
    }
  }

  /** A leading zero does not change the value read. */
  lemma LeadingZero(digits: string)
    ensures DigitsValue("0" + digits) == DigitsValue(digits)
  {
    LeadingZeroPrefix(digits, |digits|);
  }

  /** Reading the two or more digits `padStart(2, '0')` writes gives back the number. */
  lemma Pad2Value(n: nat)
    ensures AllDigits(Pad2(n)) && DigitsValue(Pad2(n)) == n
  {
    DigitsValueOfNat(n);
    if |NatToString(n)| < 2 {
      LeadingZero(NatToString(n));
    }
  }

  /** The regular expression matches at index `i`: digits, a colon, digits. */
  predicate MatchesAt(s: string, i: nat)
    requires i <= |s|
  {
    var a := DigitRun(s, i);
    a > 0 && i + a < |s| && s[i + a] == ':' && DigitRun(s, i + a + 1) > 0
  }

  /** The captured groups: hour, minute and, when present, the period (any letter case). */
  datatype ParsedTime = ParsedTime(hour: int, minute: int, period: Option<Period>)

  /** The optional `(AM|PM)` group, compared without regard to case, at index `k`. */
  function SuffixAt(s: string, k: nat): Option<Period>
    requires k <= |s|
  {
    if k + 2 <= |s| && UpperChar(s[k]) == 'A' && UpperChar(s[k + 1]) == 'M' then Some(AM)
    else if k + 2 <= |s| && UpperChar(s[k]) == 'P' && UpperChar(s[k + 1]) == 'M' then Some(PM)
    else None
  }

  /** The `\s*(AM|PM)?` tail read from index `e`: white space skipped, then an optional period. */
  function PeriodAfter(s: string, e: nat): Option<Period>
    requires e <= |s|
  {
    SuffixAt(s, e + SpaceRun(s, e))
  }

  /** What a match at index `i` captures. */
  function MatchAt(s: string, i: nat): ParsedTime
    requires i <= |s| && MatchesAt(s, i)
  {
    var a := DigitRun(s, i);
    var j := i + a + 1;
    var b := DigitRun(s, j);
    ParsedTime(NumberAt(s, i, a), NumberAt(s, j, b), PeriodAfter(s, j + b))
  }

  /** The regular-expression search from index `i` on: the first index where it matches. */
  function ParseFrom(s: string, i: nat): Option<ParsedTime>
    requires i <= |s|
    decreases |s| - i
  {
    if i == |s| then None
    else if MatchesAt(s, i) then Some(MatchAt(s, i))
    else ParseFrom(s, i + 1)
  }

  /** `timeString.match(...)`: the leftmost match's groups, or nothing. */
  function ParseTime(s: string): Option<ParsedTime> {
    ParseFrom(s, 0)
  }

  /**
   * The search from `i` finds nothing exactly when no index from `i` on matches, and
   * otherwise returns the groups of the first index from `i` on that matches.
   */
  lemma {:induction false} ParseFromLeftmost(s: string, i: nat)
    requires i <= |s|
    ensures ParseFrom(s, i).None? <==> forall k :: i <= k <= |s| ==> !MatchesAt(s, k)
    ensures ParseFrom(s, i).Some? ==>
      exists k :: i <= k <= |s| && MatchesAt(s, k) && ParseFrom(s, i).value == MatchAt(s, k) &&
        forall k' :: i <= k' < k ==> !MatchesAt(s, k')
    decreases |s| - i
  {
    if i == |s| {
      assert !MatchesAt(s, i);
    } else if MatchesAt(s, i) {
      assert ParseFrom(s, i) == Some(MatchAt(s, i));
      assert FirstMatchFrom(s, i, i);
    } else {
      assert ParseFrom(s, i) == ParseFrom(s, i + 1);
      ParseFromLeftmost(s, i + 1);
      if ParseFrom(s, i).Some? {
        var k :| i + 1 <= k <= |s| && MatchesAt(s, k) && ParseFrom(s, i + 1).value == MatchAt(s, k) &&
          forall k' :: i + 1 <= k' < k ==> !MatchesAt(s, k');
        assert FirstMatchFrom(s, i, k);
      }
    }
  }

  /** Index `k` is the first index from `i` on where the expression matches, and the search reads it. */
  predicate FirstMatchFrom(s: string, i: nat, k: nat)
    requires i <= |s|
  {
    i <= k <= |s| && MatchesAt(s, k) && ParseFrom(s, i) == Some(MatchAt(s, k)) &&
    forall k' :: i <= k' < k ==> !MatchesAt(s, k')
  }

  /** `parseTime` finds the leftmost match, and finds none exactly when there is none. */
  lemma ParseTimeLeftmost(s: string)
    ensures ParseTime(s).None? <==> forall k :: 0 <= k <= |s| ==> !MatchesAt(s, k)
    ensures ParseTime(s).Some? ==>
      exists k :: 0 <= k <= |s| && MatchesAt(s, k) && ParseTime(s).value == MatchAt(s, k) &&
        forall k' :: 0 <= k' < k ==> !MatchesAt(s, k')
  {
    ParseFromLeftmost(s, 0);
  }

  /** A digit run that is known to end after `n` characters has length `n`. */
  lemma {:induction false} DigitRunExact(s: string, i: nat, n: nat)
    requires i + n <= |s|
    requires forall k :: i <= k < i + n ==> IsDigit(s[k])
    requires i + n == |s| || !IsDigit(s[i + n])
    ensures DigitRun(s, i) == n
    decreases n
  {
    if n > 0 {
      DigitRunExact(s, i + 1, n - 1);
    }
  }

  /** When the expression matches at index 0, that is the match `parseTime` reads. */
  lemma MatchAtStart(s: string)
    requires 0 < |s| && MatchesAt(s, 0)
    ensures ParseTime(s) == Some(MatchAt(s, 0))
  {
  }

  /** The groups of a match at index 0, read off the lengths of its two digit runs. */
  lemma MatchGroups(s: string, a: nat, b: nat)
    requires 0 < a < |s| && DigitRun(s, 0) == a && s[a] == ':'
    requires a + 1 + b <= |s| && 0 < b && DigitRun(s, a + 1) == b
    ensures MatchesAt(s, 0)
    ensures MatchAt(s, 0) == ParsedTime(NumberAt(s, 0, a), NumberAt(s, a + 1, b), PeriodAfter(s, a + 1 + b))
  {
  }

  /** The digit runs of "digits:digits" followed by a non-digit. */
  lemma ClockRuns(h: string, m: string, tail: string)
    requires |h| > 0 && |m| > 0 && AllDigits(h) && AllDigits(m)
    requires tail == [] || !IsDigit(tail[0])
    ensures var s := h + ":" + m + tail;
      |h| < |s| && s[|h|] == ':' && DigitRun(s, 0) == |h| && DigitRun(s, |h| + 1) == |m|
  {
    var s := h + ":" + m + tail;
    var j := |h| + 1;
    assert forall k :: 0 <= k < |h| ==> s[k] == h[k];
    DigitRunExact(s, 0, |h|);
    assert forall k :: j <= k < j + |m| ==> s[k] == m[k - j];
    DigitRunExact(s, j, |m|);
  }

  /** In "digits:digits" followed by a non-digit, the search matches at once and reads both numbers. */
  lemma ClockMatch(h: string, m: string, tail: string)
    requires |h| > 0 && |m| > 0 && AllDigits(h) && AllDigits(m)
    requires tail == [] || !IsDigit(tail[0])
    ensures var s := h + ":" + m + tail; var e := |h| + 1 + |m|;
      e <= |s| && s[e..] == tail &&
      ParseTime(s) == Some(ParsedTime(DigitsValue(h), DigitsValue(m), PeriodAfter(s, e)))
  {
    var s := h + ":" + m + tail;
    ClockRuns(h, m, tail);
    MatchGroups(s, |h|, |m|);
    MatchAtStart(s);
    assert s == [] + h + (":" + m + tail);
    NumberAtShift([], h, ":" + m + tail, |h|);
    NumberAtShift(h + ":", m, tail, |m|);
    assert s[|h| + 1 + |m|..] == tail;
  }

  /** The tail `formattedTime` writes after the minutes reads back as its period, or as none. */
  lemma PeriodOfTail(s: string, e: nat, period: Period, use24Hour: bool)
    requires e <= |s| && s[e..] == if use24Hour then "" else " " + PeriodText(period)
    ensures PeriodAfter(s, e) == if use24Hour then None else Some(period)
  {
    if use24Hour {
      assert e == |s|;
    } else {
      assert s[e] == ' ' && s[e + 1] == PeriodText(period)[0] && s[e + 2] == 'M';
      assert SpaceRun(s, e + 1) == 0;
    }
  }

  /**
   * `parseTime(formattedTime)` gives back the hour and the minute, and the period on a
   * 12-hour clock (on a 24-hour clock there is no suffix, so the period is left alone).
   */
  lemma ParseFormattedTime(hour: nat, minute: nat, period: Period, use24Hour: bool)
    ensures ParseTime(FormattedTime(hour, minute, period, use24Hour)) ==
      Some(ParsedTime(hour, minute, if use24Hour then None else Some(period)))
  {
    var tail := if use24Hour then "" else " " + PeriodText(period);
    FormattedTimeParts(hour, minute, period, use24Hour);
    ParseClockWithTail(hour, minute, tail, period, use24Hour);
  }

  /** `formattedTime` of natural numbers is the two padded numbers, a colon and the period tail. */
  lemma FormattedTimeParts(hour: nat, minute: nat, period: Period, use24Hour: bool)
    ensures FormattedTime(hour, minute, period, use24Hour) ==
      Pad2(hour) + ":" + Pad2(minute) + (if use24Hour then "" else " " + PeriodText(period))
  {
  }

  /** The padded numbers followed by a period tail read back as those numbers and that tail's period. */
  lemma ParseClockWithTail(hour: nat, minute: nat, tail: string, period: Period, use24Hour: bool)
    requires tail == if use24Hour then "" else " " + PeriodText(period)
    ensures ParseTime(Pad2(hour) + ":" + Pad2(minute) + tail) ==
      Some(ParsedTime(hour, minute, if use24Hour then None else Some(period)))
  {
    var h, m := Pad2(hour), Pad2(minute);
    Pad2Value(hour);
    Pad2Value(minute);
    var s := h + ":" + m + tail;
    var e := |h| + 1 + |m|;
    ClockMatch(h, m, tail);
    PeriodOfTail(s, e, period, use24Hour);
  }
}
