/**
 * The amount formatter (`finzlyAmountFormatter`): whatever is typed into an amount field is
 * reduced to a signed decimal string, parsed, and clamped to the configured bounds; leaving
 * the field shows the number formatted, entering it again shows the plain number.
 */
module AmountFormatter {
  import opened Options
  import opened Text

  /** The characters `/[^\d.-]/g` does not remove: ASCII digits, '.' and '-'. */
  predicate IsAmountChar(c: char) {
    IsDigit(c) || c == '.' || c == '-'
  }

  function Max0(n: int): nat {
    if n < 0 then 0 else n
  }

  /** `s.replace(/[^\d.-]/g, '')`. */
  function KeepAmountChars(s: string): (r: string)
    ensures forall x :: x in r <==> x in s && IsAmountChar(x)
    ensures (forall x :: x in s ==> IsAmountChar(x)) ==> r == s
  {
    if s == [] then []
    else if IsAmountChar(s[0]) then [s[0]] + KeepAmountChars(s[1..])
    else KeepAmountChars(s[1..])
  }

  /** `s.replace(/c/g, '')`. */
  function Without(s: string, c: char): (r: string)
    ensures forall x :: x in r <==> x in s && x != c
    ensures c !in s ==> r == s
  {
    if s == [] then []
    else if s[0] == c then Without(s[1..], c)
    else [s[0]] + Without(s[1..], c)
  }

  /** The number of occurrences of `c` in `s`. */
  function Count(s: string, c: char): (n: nat)
    ensures n == 0 <==> c !in s
    ensures n <= |s|
  {
    if s == [] then 0 else (if s[0] == c then 1 else 0) + Count(s[1..], c)
  }

  /**
   * `onInput`'s sign step: without `allowNegative` every '-' is removed; with it every '-' is removed
   * and one is put back in front when the value started with one.
   */
  function FixSign(v: string, allowNegative: bool): string {
    if allowNegative && |v| > 0 && v[0] == '-' then ['-'] + Without(v, '-') else Without(v, '-')
  }

  /**
   * `parts[0] + '.' + parts.slice(1).join('')` with `parts = s.split('.')`: the first '.'
   * stays and every later one is removed.
   */
  function KeepFirstDot(s: string): (r: string)
    ensures forall x :: x in r ==> x in s
    ensures s != [] ==> r != [] && r[0] == s[0] && forall x :: x in r[1..] ==> x in s[1..]
    ensures Count(r, '.') <= 1
  {
    if s == [] then []
    else if s[0] == '.' then ['.'] + Without(s[1..], '.')
    else [s[0]] + KeepFirstDot(s[1..])
  }

  /** `onInput`'s dot merge, which applies only when `split('.')` gives more than two parts. */
  function MergeDots(v: string): string {
    if Count(v, '.') > 1 then KeepFirstDot(v) else v
  }

  /** `parts[1]`: what follows the first '.', or nothing when there is none. */
  function FractionOf(s: string): (f: string)
    ensures '.' !in s ==> f == []
    ensures |f| <= |s|
  {
    if s == [] then [] else if s[0] == '.' then s[1..] else FractionOf(s[1..])
  }

  /** `parts[0]`: what precedes the first '.'. */
  function BeforeDot(s: string): (b: string)
    ensures |b| <= |s| && b == s[..|b|]
  {
    if s == [] || s[0] == '.' then [] else [s[0]] + BeforeDot(s[1..])
  }

  /**
   * `parts[0] + '.' + parts[1].substring(0, n)`: everything up to the first '.', then at
   * most `n` characters of the fraction. It is a prefix of `s`, it leaves a short enough
   * fraction alone, and its fraction has at most `n` characters.
   */
  function CutFraction(s: string, n: nat): (r: string)
    ensures |r| <= |s| && r == s[..|r|]
    ensures s != [] ==> r != []
    ensures |FractionOf(r)| <= n
    ensures |FractionOf(s)| <= n ==> r == s
  {
    if s == [] then []
    else if s[0] == '.' then s[..1 + (if n < |s| - 1 then n else |s| - 1)]
    else [s[0]] + CutFraction(s[1..], n)
  }

  /**
   * `onInput`'s dot and precision steps as written: `parts` is split before the extra dots are removed, so the
   * fraction is cut only when the value had exactly one '.'. A negative precision cuts the
   * whole fraction, as `substring(0, n)` does for `n < 0`.
   */
  function LimitAsWritten(v: string, precision: int): string {
    if Count(v, '.') == 1 && |FractionOf(v)| > precision then CutFraction(v, Max0(precision))
    else MergeDots(v)
  }

  /** `onInput`'s dot and precision steps, with `parts` split again after the extra dots go. */
  function LimitCorrected(v: string, precision: int): string {
    var merged := MergeDots(v);
    if Count(merged, '.') == 1 && |FractionOf(merged)| > precision then CutFraction(merged, Max0(precision))
    else merged
  }

  /** The text `onInput` writes back to the field, as written. */
  function SanitizeAsWritten(raw: string, allowNegative: bool, precision: int): string {
    LimitAsWritten(FixSign(KeepAmountChars(raw), allowNegative), precision)
  }

  /** The text `onInput` writes back, with the fraction limited after the dots are merged. */
  function Sanitize(raw: string, allowNegative: bool, precision: int): string {
    LimitCorrected(FixSign(KeepAmountChars(raw), allowNegative), precision)
  }

  /** No '-' after the first character. */
  predicate SignFirst(s: string) {
    s == [] || '-' !in s[1..]
  }

  predicate StartsWithMinus(s: string) {
    s != [] && s[0] == '-'
  }

  /**
   * The shape a typed amount is reduced to: amount characters only, no '-' at all without
   * `allowNegative` and none after the first character with it, at most one '.', and no
   * more fraction characters than the precision allows.
   */
  predicate Sanitized(s: string, allowNegative: bool, precision: int) {
    (forall x :: x in s ==> IsAmountChar(x)) &&
    (allowNegative || '-' !in s) &&
    SignFirst(s) &&
    Count(s, '.') <= 1 &&
    |FractionOf(s)| <= Max0(precision)
  }

  /** The digits of `s`, in order. */
  function Digits(s: string): (r: string)
    ensures forall x :: x in r <==> x in s && IsDigit(x)
  {
    if s == [] then []
    else if IsDigit(s[0]) then [s[0]] + Digits(s[1..])
    else Digits(s[1..])
  }

  lemma {:induction false} DigitsAppend(a: string, b: string)
    ensures Digits(a + b) == Digits(a) + Digits(b)
  {
    if a == [] {
      assert a + b == b;
    } else {
      assert (a + b)[0] == a[0] && (a + b)[1..] == a[1..] + b;
      DigitsAppend(a[1..], b);
      if IsDigit(a[0]) {
        assert Digits(a) == [a[0]] + Digits(a[1..]);
      }
    }
  }

  /** Taking a prefix keeps a prefix of the digits. */
  lemma DigitsOfPrefix(s: string, k: nat)
    requires k <= |s|
    ensures Digits(s[..k]) <= Digits(s)
  {
    assert s == s[..k] + s[k..];
    DigitsAppend(s[..k], s[k..]);
  }

  lemma {:induction false} DigitsWithout(s: string, c: char)
    requires !IsDigit(c)
    ensures Digits(Without(s, c)) == Digits(s)
  {
    if s != [] {
      DigitsWithout(s[1..], c);
      if s[0] != c {
        assert ([s[0]] + Without(s[1..], c))[1..] == Without(s[1..], c);
      }
    }
  }

  lemma {:induction false} DigitsKeepAmountChars(s: string)
    ensures Digits(KeepAmountChars(s)) == Digits(s)
  {
    if s != [] {
      DigitsKeepAmountChars(s[1..]);
      if IsAmountChar(s[0]) {
        assert ([s[0]] + KeepAmountChars(s[1..]))[1..] == KeepAmountChars(s[1..]);
      }
    }
  }

  lemma {:induction false} DigitsKeepFirstDot(s: string)
    ensures Digits(KeepFirstDot(s)) == Digits(s)
  {
    if s != [] {
      if s[0] == '.' {
        DigitsWithout(s[1..], '.');
        assert (['.'] + Without(s[1..], '.'))[1..] == Without(s[1..], '.');
      } else {
        DigitsKeepFirstDot(s[1..]);
        assert ([s[0]] + KeepFirstDot(s[1..]))[1..] == KeepFirstDot(s[1..]);
      }
    }
  }

  /** The sign step leaves amount characters, at most a leading '-', and every digit in order. */
  lemma FixSignShape(v: string, allowNegative: bool)
    requires forall x :: x in v ==> IsAmountChar(x)
    ensures var r := FixSign(v, allowNegative);
      (forall x :: x in r ==> IsAmountChar(x)) &&
      (allowNegative || '-' !in r) &&
      SignFirst(r) &&
      (StartsWithMinus(r) <==> allowNegative && StartsWithMinus(v)) &&
      Digits(r) == Digits(v)
  {
    var w := Without(v, '-');
    DigitsWithout(v, '-');
    if allowNegative && StartsWithMinus(v) {
      assert (['-'] + w)[1..] == w;
    } else if w != [] {
      assert w[0] in w;
      assert forall x :: x in w[1..] ==> x in w;
    }
  }

  /** A prefix keeps the first character and draws the rest from the rest. */
  lemma PrefixTail(s: string, r: string)
    requires r != [] && |r| <= |s| && r == s[..|r|]
    ensures r[0] == s[0] && forall x :: x in r[1..] ==> x in s[1..]
  {
    forall x | x in r[1..]
      ensures x in s[1..]
    {
      var k :| 0 <= k < |r| - 1 && r[1..][k] == x;
      assert s[1..][k] == x;
    }
  }

  lemma {:induction false} CountOfPrefix(s: string, k: nat, c: char)
    requires k <= |s|
    ensures Count(s[..k], c) <= Count(s, c)
  {
    if k > 0 {
      assert s[..k][1..] == s[1..][..k - 1];
      CountOfPrefix(s[1..], k - 1, c);
    }
  }

  /** Dropping dots and cutting the fraction keep what the sign step established. */
  lemma LimitKeeps(v: string, r: string, allowNegative: bool)
    requires (forall x :: x in v ==> IsAmountChar(x)) && (allowNegative || '-' !in v) && SignFirst(v)
    requires r == MergeDots(v) || (r != [] && |r| <= |v| && r == v[..|r|])
    ensures (forall x :: x in r ==> IsAmountChar(x)) && (allowNegative || '-' !in r) && SignFirst(r)
    ensures StartsWithMinus(r) <==> StartsWithMinus(v)
  {
    if r != MergeDots(v) {
      PrefixTail(v, r);
      assert forall x :: x in r ==> x in v by {
        forall x | x in r
          ensures x in v
        {
          var k :| 0 <= k < |r| && r[k] == x;
          assert v[k] == x;
        }
      }
    } else if Count(v, '.') > 1 {
      assert v != [];
    }
  }

  /** The digits of the limited value are a prefix of the digits it was made from. */
  lemma LimitDigits(v: string, r: string)
    requires r == MergeDots(v) || (|r| <= |MergeDots(v)| && r == MergeDots(v)[..|r|])
    ensures Digits(r) <= Digits(v)
  {
    var m := MergeDots(v);
    if Count(v, '.') > 1 {
      DigitsKeepFirstDot(v);
    }
    if r != m {
      DigitsOfPrefix(m, |r|);
    }
  }

  /**
   * What the (corrected) sanitiser guarantees: the result has the sanitised shape, it starts
   * with '-' exactly when negatives are allowed and the stripped input did, and its digits
   * are a prefix of the typed digits: digits are only ever dropped from the end of the
   * fraction.
   */
  lemma SanitizeShape(raw: string, allowNegative: bool, precision: int)
    ensures var r := Sanitize(raw, allowNegative, precision);
      Sanitized(r, allowNegative, precision) &&
      (StartsWithMinus(r) <==> allowNegative && StartsWithMinus(KeepAmountChars(raw))) &&
      Digits(r) <= Digits(raw)
  {
    var kept := KeepAmountChars(raw);
    var v := FixSign(kept, allowNegative);
    FixSignShape(kept, allowNegative);
    DigitsKeepAmountChars(raw);
    var m := MergeDots(v);
    LimitKeeps(v, m, allowNegative);
    var r := Sanitize(raw, allowNegative, precision);
    if Count(m, '.') == 1 && |FractionOf(m)| > precision {
      assert r == CutFraction(m, Max0(precision));
      assert m != [] by { assert '.' in m; }
      LimitKeeps(m, r, allowNegative);
      CountOfPrefix(m, |r|, '.');
    }
    LimitDigits(v, r);
  }

  lemma {:induction false} CountKeepAmountChars(s: string)
    ensures Count(KeepAmountChars(s), '.') == Count(s, '.')
  {
    if s != [] {
      CountKeepAmountChars(s[1..]);
      if IsAmountChar(s[0]) {
        assert ([s[0]] + KeepAmountChars(s[1..]))[1..] == KeepAmountChars(s[1..]);
      }
    }
  }

  lemma {:induction false} CountWithout(s: string, c: char, d: char)
    requires c != d
    ensures Count(Without(s, c), d) == Count(s, d)
  {
    if s != [] {
      CountWithout(s[1..], c, d);
      if s[0] != c {
        assert ([s[0]] + Without(s[1..], c))[1..] == Without(s[1..], c);
      }
    }
  }

  /** Typed text with at most one '.' is sanitised alike as written and corrected. */
  lemma AsWrittenAgreesOnOneDot(raw: string, allowNegative: bool, precision: int)
    requires Count(raw, '.') <= 1
    ensures SanitizeAsWritten(raw, allowNegative, precision) == Sanitize(raw, allowNegative, precision)
  {
    var kept := KeepAmountChars(raw);
    CountKeepAmountChars(raw);
    CountWithout(kept, '-', '.');
    if allowNegative && StartsWithMinus(kept) {
      assert (['-'] + Without(kept, '-'))[1..] == Without(kept, '-');
    }
  }

  /** "1.2.3" keeps all its characters through the sign step. */
  lemma TwoDotsSignStep()
    ensures FixSign(KeepAmountChars("1.2.3"), true) == "1.2.3"
  {
    assert KeepAmountChars("1.2.3") == "1.2.3";
  }

  /** Merging the dots of "1.2.3" gives "1.23". */
  lemma TwoDotsMergeStep()
    ensures Count("1.2.3", '.') == 2 && MergeDots("1.2.3") == "1.23"
    ensures Count("1.23", '.') == 1 && FractionOf("1.23") == "23"
  {
    assert KeepFirstDot("1.2.3") == "1.23";
  }

  /**
   * With two or more dots the fraction is not cut as written: "1.2.3" at precision 1 is
   * sanitised to "1.23", two fraction digits.
   */
  lemma AsWrittenKeepsLongFraction()
    ensures SanitizeAsWritten("1.2.3", true, 1) == "1.23"
    ensures |FractionOf(SanitizeAsWritten("1.2.3", true, 1))| == 2
  {
    TwoDotsSignStep();
    TwoDotsMergeStep();
  }

  /** Cutting the fraction of "1.23" to one digit gives "1.2". */
  lemma TwoDotsCutStep()
    ensures CutFraction("1.23", 1) == "1.2"
  {
    assert "1.23"[1..] == ".23";
    assert CutFraction(".23", 1) == ".2";
  }

  /** The corrected sanitiser cuts the same input to "1.2". */
  lemma CorrectedCutsLongFraction()
    ensures Sanitize("1.2.3", true, 1) == "1.2"
  {
    TwoDotsSignStep();
    TwoDotsMergeStep();
    TwoDotsCutStep();
  }

  /** A string already in the sanitised shape is left as it is. */
  lemma SanitizeFixes(s: string, allowNegative: bool, precision: int)
    requires Sanitized(s, allowNegative, precision)
    ensures Sanitize(s, allowNegative, precision) == s
  {
    if allowNegative && StartsWithMinus(s) {
      assert s == ['-'] + s[1..];
      assert Without(s, '-') == Without(s[1..], '-');
    } else if s != [] {
      assert forall x :: x in s ==> x == s[0] || x in s[1..];
    }
  }

  /** Sanitising twice is sanitising once: re-reading the field on the next keystroke changes nothing. */
  lemma SanitizeIdempotent(raw: string, allowNegative: bool, precision: int)
    ensures var r := Sanitize(raw, allowNegative, precision);
      Sanitize(r, allowNegative, precision) == r
  {
    SanitizeShape(raw, allowNegative, precision);
    SanitizeFixes(Sanitize(raw, allowNegative, precision), allowNegative, precision);
  }

  /** A number as `parseFloat` returns it; amounts are exact decimals here. */
  datatype Number = NaN | Finite(r: real)

  /** `10^n`. */
  function Pow10(n: nat): (p: nat)
    ensures p >= 1
  {
    if n == 0 then 1 else 10 * Pow10(n - 1)
  }

  /** The value of a string of decimal digits. */
  function DigitsValue(ds: string): (v: nat)
    requires forall x :: x in ds ==> IsDigit(x)
    ensures v < Pow10(|ds|)
  {
    if ds == [] then 0
    else
      var last := ds[|ds| - 1];
      assert last in ds && IsDigit(last);
      assert forall x :: x in ds[..|ds| - 1] ==> x in ds;
      DigitsValue(ds[..|ds| - 1]) * 10 + (last as int - '0' as int)
  }

  /** The value of the digits after the point: `0.d1d2...`. */
  function FractionValue(ds: string): (q: real)
    requires forall x :: x in ds ==> IsDigit(x)
    ensures 0.0 <= q < 1.0
  {
    var d := DigitsValue(ds) as real;
    var p := Pow10(|ds|) as real;
    assert 0.0 <= d < p;
    QuotientBelowOne(d, p);
    d / p
  }

  /** A non-negative number below a positive one divides by it to a proper fraction. */
  lemma QuotientBelowOne(d: real, p: real)
    requires 0.0 <= d < p
    ensures 0.0 <= d / p < 1.0
  {
    var q := d / p;
    assert q * p == d;
  }

  /**
   * `parseFloat` on a sanitised string: NaN when no digit is left ("", ".", "-."), otherwise
   * the whole digits plus the fraction digits, negated after a leading '-'.
   */
  function ParseSanitized(s: string): (n: Number)
    ensures n.NaN? <==> Digits(s) == []
    ensures n.Finite? && n.r < 0.0 ==> StartsWithMinus(s)
  {
    var negative := StartsWithMinus(s);
    var body := if negative then s[1..] else s;
    if Digits(body) == [] then NaN
    else
      var magnitude := DigitsValue(Digits(BeforeDot(body))) as real + FractionValue(Digits(FractionOf(body)));
      Finite(if negative then -magnitude else magnitude)
  }

  /** `onInput`'s conversion: the empty value and a lone '-' are no number; anything else is parsed. */
  function NumericValue(value: string): (n: Option<Number>)
    ensures n.None? <==> value == "" || value == "-"
    ensures n.Some? ==> n.value == ParseSanitized(value)
  {
    if value == "" || value == "-" then None else Some(ParseSanitized(value))
  }

  /** `onInput`'s min/max validation: the bound a parsed number was moved to, if any. */
  datatype Clamped = Kept(n: Number) | ToMax(bound: real) | ToMin(bound: real)

  function Clamp(n: Number, maxValue: Option<real>, minValue: Option<real>): Clamped {
    if n.Finite? && maxValue.Some? && n.r > maxValue.value then ToMax(maxValue.value)
    else if n.Finite? && minValue.Some? && n.r < minValue.value then ToMin(minValue.value)
    else Kept(n)
  }

  function ClampedValue(c: Clamped): Number {
    match c
    case Kept(n) => n
    case ToMax(b) => Finite(b)
    case ToMin(b) => Finite(b)
  }

  /**
   * A number above `maxValue` becomes `maxValue`, one below `minValue` becomes `minValue`,
   * and any other number (NaN among them, which compares false) is kept. With consistent
   * bounds the result lies between them.
   */
  lemma ClampMeaning(n: Number, maxValue: Option<real>, minValue: Option<real>)
    ensures var v := ClampedValue(Clamp(n, maxValue, minValue));
      (n.NaN? ==> v == n) &&
      (n.Finite? ==> v.Finite?) &&
      (n.Finite? && maxValue.Some? && n.r > maxValue.value ==> v.r == maxValue.value) &&
      (n.Finite? && (maxValue.None? || n.r <= maxValue.value) && minValue.Some? && n.r < minValue.value ==>
        v.r == minValue.value) &&
      (n.Finite? && (maxValue.None? || n.r <= maxValue.value) && (minValue.None? || minValue.value <= n.r) ==>
        v == n)
  {
  }

  /** With `minValue <= maxValue` every clamped number lies within the bounds. */
  lemma ClampWithinBounds(n: Number, maxValue: Option<real>, minValue: Option<real>)
    requires maxValue.Some? && minValue.Some? ==> minValue.value <= maxValue.value
    ensures var v := ClampedValue(Clamp(n, maxValue, minValue));
      v.Finite? ==> (maxValue.None? || v.r <= maxValue.value) && (minValue.None? || minValue.value <= v.r)
  {
  }

  /** Clamping a clamped number changes nothing when `minValue <= maxValue`. */
  lemma ClampIdempotent(n: Number, maxValue: Option<real>, minValue: Option<real>)
    requires maxValue.Some? && minValue.Some? ==> minValue.value <= maxValue.value
    ensures var v := ClampedValue(Clamp(n, maxValue, minValue));
      Clamp(v, maxValue, minValue) == Kept(v)
  {
  }

  /** What `onInput` stores in `numericValue` for the typed text `raw`. */
  function Entered(raw: string, allowNegative: bool, precision: int, maxValue: Option<real>, minValue: Option<real>)
    : Option<Number>
  {
    match NumericValue(Sanitize(raw, allowNegative, precision))
    case None => None
    case Some(n) => Some(ClampedValue(Clamp(n, maxValue, minValue)))
  }

  /** The field's text: typed, `Number.toString`, or `Intl.NumberFormat` with a precision. */
  datatype FieldText = Typed(s: string) | Printed(n: Number) | Formatted(n: Number, precision: int)

  /** What `onInput` leaves in the field for the typed text `raw`. */
  function EnteredText(raw: string, allowNegative: bool, precision: int, maxValue: Option<real>, minValue: Option<real>)
    : FieldText
  {
    var value := Sanitize(raw, allowNegative, precision);
    match NumericValue(value)
    case None => Typed(value)
    case Some(n) =>
      match Clamp(n, maxValue, minValue)
      case Kept(_) => Typed(value)
      case ToMax(b) => Printed(Finite(b))
      case ToMin(b) => Printed(Finite(b))
  }

  /** Typing leaves no number exactly when the sanitised text is empty or a lone '-'. */
  lemma EnteredNull(raw: string, allowNegative: bool, precision: int, maxValue: Option<real>, minValue: Option<real>)
    ensures var value := Sanitize(raw, allowNegative, precision);
      Entered(raw, allowNegative, precision, maxValue, minValue).None? <==> value == "" || value == "-"
  {
  }

  /** Typing yields NaN exactly when the sanitised text has a character but no digit ("." or "-."). */
  lemma EnteredNaN(raw: string, allowNegative: bool, precision: int, maxValue: Option<real>, minValue: Option<real>)
    ensures var value := Sanitize(raw, allowNegative, precision);
      Entered(raw, allowNegative, precision, maxValue, minValue) == Some(NaN) <==>
        value != "" && value != "-" && Digits(value) == []
  {
    var value := Sanitize(raw, allowNegative, precision);
    if value != "" && value != "-" {
      ClampMeaning(ParseSanitized(value), maxValue, minValue);
    }
  }

  /** With `minValue <= maxValue`, a number stored by typing lies within the bounds. */
  lemma EnteredWithinBounds(raw: string, allowNegative: bool, precision: int, maxValue: Option<real>, minValue: Option<real>)
    requires maxValue.Some? && minValue.Some? ==> minValue.value <= maxValue.value
    ensures var e := Entered(raw, allowNegative, precision, maxValue, minValue);
      e.Some? && e.value.Finite? ==>
        (maxValue.None? || e.value.r <= maxValue.value) && (minValue.None? || minValue.value <= e.value.r)
  {
    var value := Sanitize(raw, allowNegative, precision);
    if value != "" && value != "-" {
      ClampWithinBounds(ParseSanitized(value), maxValue, minValue);
    }
  }

  /** Without `allowNegative`, typing never stores a negative number unless `maxValue` is negative. */
  lemma UnsignedStaysNonNegative(raw: string, precision: int, maxValue: Option<real>, minValue: Option<real>)
    requires maxValue.None? || maxValue.value >= 0.0
    ensures var e := Entered(raw, false, precision, maxValue, minValue);
      e.Some? && e.value.Finite? ==> e.value.r >= 0.0
  {
    SanitizeShape(raw, false, precision);
  }

  /**
   * The directive's state. `onChange` and `onTouched` are recorded as the values reported and
   * the number of touches; the input element's text is `text`.
   */
  class AmountFormatterDirective {
    const decimalPrecision: int
    const allowNegative: bool
    const maxValue: Option<real>
    const minValue: Option<real>
    var numericValue: Option<Number>
    var text: FieldText
    var disabled: bool
    var changes: seq<Option<Number>>
    var touches: nat

    /**
     * With no number stored the field shows "" or a lone '-', and typed text is always in
     * the sanitised shape.
     */
    predicate Valid()
      reads this
    {
      (numericValue.None? ==> text == Typed("") || text == Typed("-")) &&
      (text.Typed? ==> Sanitized(text.s, allowNegative, decimalPrecision))
    }

    /** The inputs' defaults: two decimals, negatives allowed, no bounds. */
    constructor Default()
      ensures decimalPrecision == 2 && allowNegative && maxValue.None? && minValue.None?
      ensures numericValue.None? && text == Typed("") && !disabled && changes == [] && touches == 0
      ensures Valid()
    {
      decimalPrecision := 2;
      allowNegative := true;
      maxValue := None;
      minValue := None;
      numericValue := None;
      text := Typed("");
      disabled := false;
      changes := [];
      touches := 0;
    }

    constructor (decimalPrecision: int, allowNegative: bool, maxValue: Option<real>, minValue: Option<real>)
      ensures this.decimalPrecision == decimalPrecision && this.allowNegative == allowNegative
      ensures this.maxValue == maxValue && this.minValue == minValue
      ensures numericValue.None? && text == Typed("") && !disabled && changes == [] && touches == 0
      ensures Valid()
    {
      this.decimalPrecision := decimalPrecision;
      this.allowNegative := allowNegative;
      this.maxValue := maxValue;
      this.minValue := minValue;
      numericValue := None;
      text := Typed("");
      disabled := false;
      changes := [];
      touches := 0;
    }

    /** `writeValue`: the number is stored and shown formatted; null shows an empty field. */
    method WriteValue(value: Option<Number>)
      modifies this`numericValue, this`text
      ensures numericValue == value
      ensures value.Some? ==> text == Formatted(value.value, decimalPrecision)
      ensures value.None? ==> text == Typed("")
      ensures Valid()
    {
      numericValue := value;
      if value.Some? {
        text := Formatted(value.value, decimalPrecision);
      } else {
        text := Typed("");
      }
    }

    /** `setDisabledState`. */
    method SetDisabledState(isDisabled: bool)
      modifies this`disabled
      ensures disabled == isDisabled
    {
      disabled := isDisabled;
    }

    /** `onInput`'s sanitising: the typed text rewritten step by step, with the fraction limited last. */
    method SanitizeInput(raw: string) returns (value: string)
      ensures value == Sanitize(raw, allowNegative, decimalPrecision)
      ensures Sanitized(value, allowNegative, decimalPrecision)
    {
      value := KeepAmountChars(raw);
      if !allowNegative {
        value := Without(value, '-');
      } else {
        var hasNegative := |value| > 0 && value[0] == '-';
        value := Without(value, '-');
        if hasNegative {
          value := ['-'] + value;
        }
      }
      if Count(value, '.') > 1 {
        value := KeepFirstDot(value);
      }
      // The parts are taken after the extra dots are gone, so the fraction is always limited.
      if Count(value, '.') == 1 && |FractionOf(value)| > decimalPrecision {
        value := CutFraction(value, Max0(decimalPrecision));
      }
      SanitizeShape(raw, allowNegative, decimalPrecision);
    }

    /**
     * `onInput`: the sanitised text is parsed and clamped; the number is stored and reported,
     * and the field shows the sanitised text or the bound it was moved to.
     */
    method OnInput(raw: string)
      modifies this`numericValue, this`text, this`changes
      ensures numericValue == Entered(raw, allowNegative, decimalPrecision, maxValue, minValue)
      ensures text == EnteredText(raw, allowNegative, decimalPrecision, maxValue, minValue)
      ensures changes == old(changes) + [numericValue]
      ensures Valid()
    {
      var value := SanitizeInput(raw);
      if value == "" || value == "-" {
        numericValue := None;
        text := Typed(value);
      } else {
        var numValue := ParseSanitized(value);
        if numValue.Finite? && maxValue.Some? && numValue.r > maxValue.value {
          text := Printed(Finite(maxValue.value));
          numericValue := Some(Finite(maxValue.value));
        } else if numValue.Finite? && minValue.Some? && numValue.r < minValue.value {
          text := Printed(Finite(minValue.value));
          numericValue := Some(Finite(minValue.value));
        } else {
          text := Typed(value);
          numericValue := Some(numValue);
        }
      }
      changes := changes + [numericValue];
    }

    /**
     * `onBlur`: a touch is reported; a stored number is shown formatted, and an empty field or
     * a lone '-' is cleared and null reported. A lone '-' never survives leaving the field.
     */
    method OnBlur()
      requires Valid()
      modifies this`numericValue, this`text, this`changes, this`touches
      ensures touches == old(touches) + 1
      ensures old(numericValue).Some? ==>
        numericValue == old(numericValue) && text == Formatted(numericValue.value, decimalPrecision) &&
        changes == old(changes)
      ensures old(numericValue).None? ==>
        numericValue.None? && text == Typed("") && changes == old(changes) + [None]
      ensures text != Typed("-")
      ensures Valid()
    {
      touches := touches + 1;
      if numericValue.Some? {
        text := Formatted(numericValue.value, decimalPrecision);
      } else if text == Typed("-") || text == Typed("") {
        text := Typed("");
        numericValue := None;
        changes := changes + [None];
      }
    }

    /** `onFocus`: a stored number is shown plain, for editing. */
    method OnFocus()
      requires Valid()
      modifies this`text
      ensures numericValue.Some? ==> text == Printed(numericValue.value)
      ensures numericValue.None? ==> text == old(text)
      ensures Valid()
    {
      if numericValue.Some? {
        text := Printed(numericValue.value);
      }
    }
  }
}
