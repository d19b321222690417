/**
 * The date formatting pipe: a chain of fifteen `replace` calls on the format string, each
 * replacing only the first occurrence of its token, in a fixed order. Because each call
 * searches the text produced so far, later tokens can rewrite text inserted by earlier ones
 * (`FormatDate`); `FormatIntended` is the single left-to-right pass the tokens call for.
 */
module DateFormat {
  import opened Options
  import opened Civil
  import opened Text

  const LongMonths: seq<string> := ["January", "February", "March", "April", "May", "June",
    "July", "August", "September", "October", "November", "December"]
  const ShortMonths: seq<string> := ["Jan", "Feb", "Mar", "Apr", "May", "Jun",
    "Jul", "Aug", "Sep", "Oct", "Nov", "Dec"]

  /** `getMonthName(monthIndex, long ? 'long' : 'short')`. */
  function MonthName(monthIndex: int, long: bool): (s: string)
    requires 0 <= monthIndex < 12
    ensures |s| >= 3
    ensures long ==> s == LongMonths[monthIndex]
    ensures !long ==> s == ShortMonths[monthIndex]
  {
    if long then LongMonths[monthIndex] else ShortMonths[monthIndex]
  }

  /** Every short month name is the first three letters of the long one. */
  lemma ShortIsPrefixOfLong(monthIndex: int)
    requires 0 <= monthIndex < 12
    ensures MonthName(monthIndex, false) == MonthName(monthIndex, true)[..3]
  {
  }

  /** `date.getHours() % 12 || 12`: the hour on a 12-hour clock. */
  function Hours12(hour: int): (h: int)
    requires 0 <= hour < 24
    ensures 1 <= h <= 12
    ensures h % 12 == hour % 12
  {
    if hour % 12 == 0 then 12 else hour % 12
  }

  /** `date.getHours() >= 12 ? 'PM' : 'AM'`. */
  function Meridiem(hour: int): (s: string)
    ensures s == "PM" || s == "AM"
    ensures s == "PM" <==> hour >= 12
  {
    if hour >= 12 then "PM" else "AM"
  }

  /** `String(year).slice(-2)`: the last two characters, or all of a shorter string. */
  function LastTwo(s: string): (r: string)
    ensures |s| >= 2 ==> r == s[|s| - 2..]
    ensures |s| < 2 ==> r == s
    ensures |r| == if |s| < 2 then |s| else 2
    ensures |r| <= |s| && r == s[|s| - |r|..]
  {
    if |s| >= 2 then s[|s| - 2..] else s
  }

  /** The fifteen tokens, in the order the pipe replaces them. */
  const Tokens: seq<string> := ["yyyy", "yy", "MMMM", "MMM", "MM", "M", "dd", "d",
    "HH", "hh", "h", "mm", "ss", "a", "A"]

  /** The text token `k` of `Tokens` stands for, for the instant `i`. */
  function TokenText(i: Instant, k: int): string
    requires IsValidInstant(i) && 0 <= k < |Tokens|
  {
    var year := IntToString(i.date.year);
    var hours12 := Hours12(i.time.hour);
    var ampm := Meridiem(i.time.hour);
    match k
    case 0 => year
    case 1 => LastTwo(year)
    case 2 => MonthName(i.date.month, true)
    case 3 => MonthName(i.date.month, false)
    case 4 => Pad2(i.date.month + 1)
    case 5 => NatToString(i.date.month + 1)
    case 6 => Pad2(i.date.day)
    case 7 => NatToString(i.date.day)
    case 8 => Pad2(i.time.hour)
    case 9 => Pad2(hours12)
    case 10 => NatToString(hours12)
    case 11 => Pad2(i.time.minute)
    case 12 => Pad2(i.time.second)
    case 13 => Lower(ampm)
    case _ => ampm
  }

  /** The texts of all fifteen tokens, in the order of `Tokens`. */
  function TokenTexts(i: Instant): (texts: seq<string>)
    requires IsValidInstant(i)
    ensures |texts| == |Tokens|
  {
    seq(|Tokens|, k requires 0 <= k < |Tokens| => TokenText(i, k))
  }

  /**
   * The replace chain from position `from` on:
   * `s.replace(tokens[from], texts[from]).replace(tokens[from + 1], texts[from + 1])...`.
   */
  function ReplaceChain(s: string, tokens: seq<string>, texts: seq<string>, from: nat): (r: string)
    requires |tokens| == |texts| && from <= |tokens|
    decreases |tokens| - from
  {
    if from == |tokens| then s
    else ReplaceChain(ReplaceFirst(s, tokens[from], texts[from]), tokens, texts, from + 1)
  }

  /** A chain none of whose tokens occurs in the text it meets leaves the text alone. */
  lemma {:induction false} ReplaceChainAbsent(s: string, tokens: seq<string>, texts: seq<string>, from: nat)
    requires |tokens| == |texts| && from <= |tokens|
    requires forall k :: from <= k < |tokens| ==> !Contains(s, tokens[k])
    ensures ReplaceChain(s, tokens, texts, from) == s
    decreases |tokens| - from
  {
    if from < |tokens| {
      IndexOfContains(s, tokens[from]);
      ReplaceChainAbsent(s, tokens, texts, from + 1);
    }
  }

  /** `formatDate` as written: the fifteen first-occurrence replacements in order. */
  function FormatDate(i: Instant, format: string): (r: string)
    requires IsValidInstant(i)
  {
    ReplaceChain(format, Tokens, TokenTexts(i), 0)
  }

  /** A format that contains none of the tokens comes back unchanged. */
  lemma FormatWithoutTokens(i: Instant, format: string)
    requires IsValidInstant(i)
    requires forall k :: 0 <= k < |Tokens| ==> !Contains(format, Tokens[k])
    ensures FormatDate(i, format) == format
  {
    ReplaceChainAbsent(format, Tokens, TokenTexts(i), 0);
  }

  /** A pattern whose first character never occurs in `s` does not occur in `s`. */
  lemma AbsentByFirstChar(s: string, pat: string)
    requires |pat| > 0
    requires forall k :: 0 <= k < |s| ==> s[k] != pat[0]
    ensures IndexOf(s, pat) == None
  {
    forall j | 0 <= j <= |s| ensures !OccursAt(s, pat, j) {
      if j + |pat| <= |s| {
        assert s[j..j + |pat|][0] == s[j];
      }
    }
  }

  /** The same, stated by membership. */
  lemma AbsentChar(s: string, pat: string)
    requires |pat| > 0 && pat[0] !in s
    ensures IndexOf(s, pat) == None
  {
    AbsentByFirstChar(s, pat);
  }

  /**
   * A run of 'M's longer than the position of the first non-'M' cannot start before it, and
   * none starts after it when no later character is an 'M'.
   */
  lemma NoneAfterSlash(s: string, pat: string, p: nat)
    requires p < |s| && s[p] != 'M' && |pat| > p
    requires forall k :: 0 <= k < |pat| ==> pat[k] == 'M'
    requires forall k :: p < k < |s| ==> s[k] != 'M'
    ensures IndexOf(s, pat) == None
  {
    forall j | 0 <= j <= |s| ensures !OccursAt(s, pat, j) {
      if j + |pat| <= |s| {
        if j <= p {
          assert s[j..j + |pat|][p - j] == s[p];
        } else {
          assert s[j..j + |pat|][0] == s[j];
        }
      }
    }
  }

  /** Text made of digits, '-' and '/' only. */
  predicate DigitsOrSign(s: string) {
    forall k :: 0 <= k < |s| ==> IsDigit(s[k]) || s[k] == '-' || s[k] == '/'
  }

  /** A chain over text made of digits, '-' and '/' only, with letter tokens, changes nothing. */
  lemma {:induction false} ChainOverDigits(s: string, tokens: seq<string>, texts: seq<string>, from: nat)
    requires |tokens| == |texts| && from <= |tokens|
    requires DigitsOrSign(s)
    requires forall k :: from <= k < |tokens| ==> |tokens[k]| > 0 && IsAsciiLetter(tokens[k][0])
    ensures ReplaceChain(s, tokens, texts, from) == s
    decreases |tokens| - from
  {
    if from < |tokens| {
      AbsentByFirstChar(s, tokens[from]);
      ChainOverDigits(s, tokens, texts, from + 1);
    }
  }

  /** Every token starts with a letter. */
  lemma TokensStartWithLetters()
    ensures forall k :: 0 <= k < |Tokens| ==> |Tokens[k]| > 0 && IsAsciiLetter(Tokens[k][0])
  {
    forall k | 0 <= k < |Tokens| ensures |Tokens[k]| > 0 && IsAsciiLetter(Tokens[k][0]) {
      assert Tokens[k][0] in "yMdHhmsaA";
    }
  }

  /** The year step of the default format: 'yyyy' is the only place a 'y' occurs. */
  lemma DefaultYearStep(year: string)
    requires DigitsOrSign(year)
    ensures ReplaceFirst("MM/dd/yyyy", Tokens[0], year) == "MM/dd/" + year
  {
    assert Tokens[0] == "yyyy";
    var s0: string := "MM/dd/yyyy";
    assert OccursAt(s0, "yyyy", 6);
    forall j | 0 <= j < 6 ensures !OccursAt(s0, "yyyy", j) {
      assert s0[j] != 'y';
      assert s0[j..j + 4][0] == s0[j];
    }
    IndexOfFirst(s0, "yyyy", 6);
    assert s0[..6] == "MM/dd/" && s0[10..] == "";
  }

  /** After the year is in, 'yy', 'MMMM' and 'MMM' are absent and 'MM' is at the start. */
  lemma DefaultMonthStep(year: string, month: string)
    requires DigitsOrSign(year)
    ensures IndexOf("MM/dd/" + year, Tokens[1]) == None
    ensures IndexOf("MM/dd/" + year, Tokens[2]) == None
    ensures IndexOf("MM/dd/" + year, Tokens[3]) == None
    ensures ReplaceFirst("MM/dd/" + year, Tokens[4], month) == month + "/dd/" + year
  {
    assert Tokens[1] == "yy" && Tokens[2] == "MMMM" && Tokens[3] == "MMM" && Tokens[4] == "MM";
    var s1 := "MM/dd/" + year;
    assert forall k :: 6 <= k < |s1| ==> s1[k] == year[k - 6];
    AbsentByFirstChar(s1, "yy");
    assert s1[2] == '/';
    NoneAfterSlash(s1, "MMMM", 2);
    NoneAfterSlash(s1, "MMM", 2);
    assert OccursAt(s1, "MM", 0);
  }

  /** After the month is in, 'M' is absent and 'dd' follows the first slash. */
  lemma DefaultDayStep(year: string, month: string, day: string)
    requires DigitsOrSign(year) && DigitsOrSign(month)
    ensures IndexOf(month + "/dd/" + year, Tokens[5]) == None
    ensures ReplaceFirst(month + "/dd/" + year, Tokens[6], day) == month + "/" + day + "/" + year
  {
    assert Tokens[5] == "M" && Tokens[6] == "dd";
    var s2 := month + "/dd/" + year;
    assert forall k :: 0 <= k < |s2| ==>
      (k < |month| && s2[k] == month[k]) || |month| <= k < |month| + 4 ||
      (k >= |month| + 4 && s2[k] == year[k - |month| - 4]);
    AbsentByFirstChar(s2, "M");
    var m := |month|;
    assert s2[m + 1] == 'd' && s2[m + 2] == 'd';
    assert s2[m + 1..m + 3] == "dd";
    assert OccursAt(s2, "dd", m + 1);
    forall j | 0 <= j < |month| + 1 ensures !OccursAt(s2, "dd", j) {
      assert s2[j] != 'd';
    }
  }

  /** Concatenating digit texts with slashes gives digit text. */
  lemma DigitsJoined(year: string, month: string, day: string)
    requires DigitsOrSign(year) && DigitsOrSign(month) && DigitsOrSign(day)
    ensures DigitsOrSign(month + "/" + day + "/" + year)
  {
    var s3 := month + "/" + day + "/" + year;
    assert forall k :: 0 <= k < |s3| ==>
      (k < |month| && s3[k] == month[k]) || k == |month| ||
      (|month| < k <= |month| + |day| && s3[k] == day[k - |month| - 1]) || k == |month| + |day| + 1 ||
      (k > |month| + |day| + 1 && s3[k] == year[k - |month| - |day| - 2]);
  }

  /** The first six tokens of the chain on 'MM/dd/yyyy' put in the year and the month. */
  lemma DefaultChainHead(texts: seq<string>)
    requires |texts| == |Tokens|
    requires DigitsOrSign(texts[0])
    ensures ReplaceChain("MM/dd/yyyy", Tokens, texts, 0) ==
      ReplaceChain(texts[4] + "/dd/" + texts[0], Tokens, texts, 5)
  {
    var year, month := texts[0], texts[4];
    DefaultYearStep(year);
    DefaultMonthStep(year, month);
    var s1 := "MM/dd/" + year;
    ChainStep("MM/dd/yyyy", s1, texts, 0);
    ChainSkip(s1, texts, 1);
    ChainSkip(s1, texts, 2);
    ChainSkip(s1, texts, 3);
    ChainStep(s1, month + "/dd/" + year, texts, 4);
  }

  /** The chain on 'MM/dd/yyyy' for any texts whose year, month and day are digit text. */
  lemma DefaultChain(texts: seq<string>)
    requires |texts| == |Tokens|
    requires DigitsOrSign(texts[0]) && DigitsOrSign(texts[4]) && DigitsOrSign(texts[6])
    ensures ReplaceChain("MM/dd/yyyy", Tokens, texts, 0) == texts[4] + "/" + texts[6] + "/" + texts[0]
  {
    var year, month, day := texts[0], texts[4], texts[6];
    DefaultChainHead(texts);
    DefaultDayStep(year, month, day);
    var s2, s3 := month + "/dd/" + year, month + "/" + day + "/" + year;
    ChainSkip(s2, texts, 5);
    ChainStep(s2, s3, texts, 6);
    DigitsJoined(year, month, day);
    TokensStartWithLetters();
    ChainOverDigits(s3, Tokens, texts, 7);
  }

  /** The year text is digits after an optional minus sign. */
  lemma YearIsDigits(year: int)
    ensures DigitsOrSign(IntToString(year))
  {
    var s := IntToString(year);
    if year < 0 {
      assert forall k :: 1 <= k < |s| ==> s[k] == NatToString(-year)[k - 1];
    }
  }

  /**
   * The default format 'MM/dd/yyyy' gives the two-digit month, the two-digit day and the
   * year, e.g. "03/05/2024".
   */
  lemma DefaultFormat(i: Instant)
    requires IsValidInstant(i)
    ensures FormatDate(i, "MM/dd/yyyy") ==
      Pad2(i.date.month + 1) + "/" + Pad2(i.date.day) + "/" + IntToString(i.date.year)
  {
    var texts := TokenTexts(i);
    YearIsDigits(i.date.year);
    DefaultChain(texts);
  }

  /** One link of the chain: the token at `from` is replaced in `s`, giving `t`. */
  lemma ChainStep(s: string, t: string, texts: seq<string>, from: nat)
    requires |texts| == |Tokens| && from < |Tokens|
    requires ReplaceFirst(s, Tokens[from], texts[from]) == t
    ensures ReplaceChain(s, Tokens, texts, from) == ReplaceChain(t, Tokens, texts, from + 1)
  {
  }

  /** One link of the chain whose token does not occur. */
  lemma ChainSkip(s: string, texts: seq<string>, from: nat)
    requires |texts| == |Tokens| && from < |Tokens|
    requires IndexOf(s, Tokens[from]) == None
    ensures ReplaceChain(s, Tokens, texts, from) == ReplaceChain(s, Tokens, texts, from + 1)
  {
  }

  /** "March" holds no run of two or more 'M's. */
  lemma MarchHasOneM()
    ensures IndexOf("March", "MMM") == None
    ensures IndexOf("March", "MM") == None
  {
    var m: string := "March";
    assert m[1] == 'a' && m[2] == 'r' && m[3] == 'c' && m[4] == 'h';
    var p3: string, p2: string := "MMM", "MM";
    assert p3[0] == 'M' && p3[1] == 'M' && p3[2] == 'M';
    assert p2[0] == 'M' && p2[1] == 'M';
    NoneAfterSlash(m, p3, 1);
    NoneAfterSlash(m, p2, 1);
  }

  /** 'h' occurs in "3arch" only at its end, so "hh" does not occur. */
  lemma LastH()
    ensures IndexOf("3arch", "h") == Some(4)
    ensures IndexOf("3arch", "hh") == None
  {
    var s: string := "3arch";
    assert OccursAt(s, "h", 4);
    forall j | 0 <= j < 4 ensures !OccursAt(s, "h", j) && !OccursAt(s, "hh", j) {
      assert s[j..j + 1][0] == s[j];
    }
    IndexOfFirst(s, "h", 4);
  }

  /** The 'M' token replaces the capital of "March". */
  lemma RewriteM()
    ensures ReplaceFirst("March", "M", "3") == "3arch"
  {
    IndexOfFirst("March", "M", 0);
    assert "March"[1..] == "arch";
  }

  /** The 'h' token replaces the last letter of "3arch". */
  lemma RewriteH()
    ensures ReplaceFirst("3arch", "h", "9") == "3arc9"
  {
    LastH();
    assert "3arch"[..4] == "3arc";
  }

  /** The 'a' token replaces the "a" of "3arc9". */
  lemma RewriteA()
    ensures ReplaceFirst("3arc9", "a", "am") == "3amrc9"
  {
    var t: string := "3arc9";
    assert OccursAt(t, "a", 1);
    assert !OccursAt(t, "a", 0) by {
      assert t[0..1][0] == '3';
    }
    IndexOfFirst(t, "a", 1);
    assert t[..1] == "3" && t[2..] == "rc9";
  }

  /** What the first five tokens find in 'MMMM' and in the long name put in its place. */
  lemma MarchHeadFacts()
    ensures IndexOf("MMMM", Tokens[0]) == None && IndexOf("MMMM", Tokens[1]) == None
    ensures ReplaceFirst("MMMM", Tokens[2], "March") == "March"
    ensures IndexOf("March", Tokens[3]) == None && IndexOf("March", Tokens[4]) == None
  {
    assert Tokens[0] == "yyyy" && Tokens[1] == "yy" && Tokens[2] == "MMMM";
    assert Tokens[3] == "MMM" && Tokens[4] == "MM";
    AbsentChar("MMMM", "yyyy");
    AbsentChar("MMMM", "yy");
    IndexOfFirst("MMMM", "MMMM", 0);
    MarchHasOneM();
  }

  /** What the tokens from 'M' to 'hh' find in "March" and then in "3arch". */
  lemma MarchMiddleFacts()
    ensures ReplaceFirst("March", Tokens[5], "3") == "3arch"
    ensures IndexOf("3arch", Tokens[6]) == None && IndexOf("3arch", Tokens[7]) == None
    ensures IndexOf("3arch", Tokens[8]) == None && IndexOf("3arch", Tokens[9]) == None
  {
    assert Tokens[5] == "M" && Tokens[6] == "dd" && Tokens[7] == "d";
    assert Tokens[8] == "HH" && Tokens[9] == "hh";
    RewriteM();
    AbsentChar("3arch", "dd");
    AbsentChar("3arch", "d");
    AbsentChar("3arch", "HH");
    LastH();
  }

  /** What the tokens from 'h' to 'A' find in "3arch" and what follows from it. */
  lemma MarchTailFacts()
    ensures ReplaceFirst("3arch", Tokens[10], "9") == "3arc9"
    ensures IndexOf("3arc9", Tokens[11]) == None && IndexOf("3arc9", Tokens[12]) == None
    ensures ReplaceFirst("3arc9", Tokens[13], "am") == "3amrc9"
    ensures IndexOf("3amrc9", Tokens[14]) == None
  {
    assert Tokens[10] == "h" && Tokens[11] == "mm" && Tokens[12] == "ss";
    assert Tokens[13] == "a" && Tokens[14] == "A";
    RewriteH();
    RewriteA();
    AbsentChar("3arc9", "mm");
    AbsentChar("3arc9", "ss");
    AbsentChar("3amrc9", "A");
  }

  /** The first five tokens turn 'MMMM' into the long name, here "March". */
  lemma MarchHead(texts: seq<string>)
    requires |texts| == |Tokens| && texts[2] == "March"
    ensures ReplaceChain("MMMM", Tokens, texts, 0) == ReplaceChain("March", Tokens, texts, 5)
  {
    MarchHeadFacts();
    ChainSkip("MMMM", texts, 0);
    ChainSkip("MMMM", texts, 1);
    ChainStep("MMMM", "March", texts, 2);
    ChainSkip("March", texts, 3);
    ChainSkip("March", texts, 4);
  }

  /** The 'M' token then rewrites the capital M of the inserted name. */
  lemma MarchMiddle(texts: seq<string>)
    requires |texts| == |Tokens| && texts[5] == "3"
    ensures ReplaceChain("March", Tokens, texts, 5) == ReplaceChain("3arch", Tokens, texts, 10)
  {
    MarchMiddleFacts();
    ChainStep("March", "3arch", texts, 5);
    ChainSkip("3arch", texts, 6);
    ChainSkip("3arch", texts, 7);
    ChainSkip("3arch", texts, 8);
    ChainSkip("3arch", texts, 9);
  }

  /** The 'h' token rewrites its "h" and the 'a' token its "a". */
  lemma MarchTail(texts: seq<string>)
    requires |texts| == |Tokens| && texts[10] == "9" && texts[13] == "am"
    ensures ReplaceChain("3arch", Tokens, texts, 10) == "3amrc9"
  {
    MarchTailFacts();
    ChainStep("3arch", "3arc9", texts, 10);
    ChainSkip("3arc9", texts, 11);
    ChainSkip("3arc9", texts, 12);
    ChainStep("3arc9", "3amrc9", texts, 13);
    ChainSkip("3amrc9", texts, 14);
  }

  /** The texts for 9:00 on 5 March 2024 that the 'MMMM' example meets. */
  lemma MarchTexts()
    ensures TokenTexts(MarchMorning)[2] == "March"
    ensures TokenTexts(MarchMorning)[5] == "3"
    ensures TokenTexts(MarchMorning)[10] == "9"
    ensures TokenTexts(MarchMorning)[13] == "am"
  {
    assert NatToString(3) == "3";
    assert NatToString(9) == "9";
    assert Lower("AM") == "am";
  }

  /** 9:00 on 5 March 2024, used to exhibit the self-rewrite. */
  const MarchMorning: Instant := Instant(Date(2024, 2, 5), Time(9, 0, 0, 0))

  /**
   * As written, 'MMMM' for a March date does not give "March": the 'M' token rewrites the
   * capital of the inserted name, 'h' its "h" and 'a' its "a".
   */
  lemma MonthNameRewritten()
    ensures FormatDate(MarchMorning, "MMMM") == "3amrc9"
    ensures FormatDate(MarchMorning, "MMMM") != MonthName(2, true)
  {
    var texts := TokenTexts(MarchMorning);
    MarchTexts();
    MarchHead(texts);
    MarchMiddle(texts);
    MarchTail(texts);
  }

  /** The index of the first token (in `Tokens` order) that starts at position `k` of `format`. */
  function TokenAt(format: string, k: nat, from: nat): (r: Option<nat>)
    requires from <= |Tokens|
    ensures r.Some? ==> from <= r.value < |Tokens| && OccursAt(format, Tokens[r.value], k)
    ensures r.None? ==> forall t :: from <= t < |Tokens| ==> !OccursAt(format, Tokens[t], k)
    ensures r.Some? ==> forall t :: from <= t < r.value ==> !OccursAt(format, Tokens[t], k)
    decreases |Tokens| - from
  {
    if from == |Tokens| then None
    else if OccursAt(format, Tokens[from], k) then Some(from)
    else TokenAt(format, k, from + 1)
  }

  /**
   * The intended formatter: one left-to-right pass over the format, where each token
   * (longest first, in `Tokens` order) is replaced by its text and any other character is
   * copied; inserted text is never looked at again.
   */
  function FormatIntended(i: Instant, format: string): string
    requires IsValidInstant(i)
  {
    SinglePass(TokenTexts(i), format)
  }

  /** The single pass with the texts given for the tokens. */
  function SinglePass(texts: seq<string>, format: string): string
    requires |texts| == |Tokens|
    decreases |format|
  {
    if format == [] then ""
    else match TokenAt(format, 0, 0)
      case None => [format[0]] + SinglePass(texts, format[1..])
      case Some(t) => texts[t] + SinglePass(texts, format[|Tokens[t]|..])
  }

  /** `TokenAt` finds the first token, in `Tokens` order, that starts at `k`. */
  lemma {:induction false} TokenAtFirst(format: string, k: nat, from: nat, t: nat)
    requires from <= t < |Tokens| && OccursAt(format, Tokens[t], k)
    requires forall u :: from <= u < t ==> !OccursAt(format, Tokens[u], k)
    ensures TokenAt(format, k, from) == Some(t)
    decreases t - from
  {
    if from < t {
      TokenAtFirst(format, k, from + 1, t);
    }
  }

  /** No token starts at a character that is not a letter. */
  lemma NoTokenAtNonLetter(format: string)
    requires |format| > 0 && !IsAsciiLetter(format[0])
    ensures TokenAt(format, 0, 0) == None
  {
    TokensStartWithLetters();
    forall u | 0 <= u < |Tokens| ensures !OccursAt(format, Tokens[u], 0) {
      if |Tokens[u]| <= |format| {
        assert format[0..|Tokens[u]|][0] == format[0];
      }
    }
  }

  /** 'MMMM' is the first token found at the start of "MMMM". */
  lemma LongMonthTokenFirst()
    ensures TokenAt("MMMM", 0, 0) == Some(2)
    ensures "MMMM"[|Tokens[2]|..] == ""
  {
    assert Tokens[0] == "yyyy" && Tokens[1] == "yy" && Tokens[2] == "MMMM";
    assert OccursAt("MMMM", "MMMM", 0);
    assert "MMMM"[0..2][0] == 'M' && "MMMM"[0..4][0] == 'M';
    TokenAtFirst("MMMM", 0, 0, 2);
  }

  /** With the intended formatter, 'MMMM' is the month's long name for every instant. */
  lemma IntendedMonthName(i: Instant)
    requires IsValidInstant(i)
    ensures FormatIntended(i, "MMMM") == MonthName(i.date.month, true)
  {
    var texts := TokenTexts(i);
    LongMonthTokenFirst();
    SinglePassToken(texts, "MMMM", 2, "");
  }

  /** 'MM' is the first token found at the start of the default format. */
  lemma DefaultMonthTokenFirst()
    ensures TokenAt("MM/dd/yyyy", 0, 0) == Some(4)
    ensures "MM/dd/yyyy"[|Tokens[4]|..] == "/dd/yyyy"
  {
    var f: string := "MM/dd/yyyy";
    assert Tokens[0] == "yyyy" && Tokens[1] == "yy" && Tokens[2] == "MMMM";
    assert Tokens[3] == "MMM" && Tokens[4] == "MM";
    assert f[0..2] == "MM" && f[0..3] != "MMM" && f[0..4] != "MMMM" && f[0..2] != "yy" && f[0..4] != "yyyy";
    TokenAtFirst(f, 0, 0, 4);
  }

  /** 'dd' is the first token found at the start of "dd/yyyy". */
  lemma DayTokenFirst()
    ensures TokenAt("dd/yyyy", 0, 0) == Some(6)
    ensures "dd/yyyy"[|Tokens[6]|..] == "/yyyy"
  {
    var f: string := "dd/yyyy";
    assert Tokens[0] == "yyyy" && Tokens[1] == "yy" && Tokens[2] == "MMMM";
    assert Tokens[3] == "MMM" && Tokens[4] == "MM" && Tokens[5] == "M" && Tokens[6] == "dd";
    assert f[0..2] == "dd";
    forall u | 0 <= u < 6 ensures !OccursAt(f, Tokens[u], 0) {
      assert |Tokens[u]| > 0 && Tokens[u][0] != 'd';
      if |Tokens[u]| <= |f| {
        assert f[0..|Tokens[u]|][0] == 'd';
      }
    }
    TokenAtFirst(f, 0, 0, 6);
  }

  /** 'yyyy' is the first token found at the start of "yyyy". */
  lemma YearTokenFirst()
    ensures TokenAt("yyyy", 0, 0) == Some(0)
    ensures "yyyy"[|Tokens[0]|..] == ""
  {
    assert Tokens[0] == "yyyy";
    assert OccursAt("yyyy", "yyyy", 0);
  }

  /** One step of the single pass where a token starts the format. */
  lemma SinglePassToken(texts: seq<string>, format: string, t: nat, rest: string)
    requires |texts| == |Tokens| && format != []
    requires TokenAt(format, 0, 0) == Some(t) && format[|Tokens[t]|..] == rest
    ensures SinglePass(texts, format) == texts[t] + SinglePass(texts, rest)
  {
  }

  /** One step of the single pass where no token starts the format. */
  lemma SinglePassCopy(texts: seq<string>, format: string, rest: string)
    requires |texts| == |Tokens| && format != []
    requires TokenAt(format, 0, 0) == None && format[1..] == rest
    ensures SinglePass(texts, format) == [format[0]] + SinglePass(texts, rest)
  {
  }

  /** The single pass on the tail "/yyyy" of the default format. */
  lemma SinglePassYear(texts: seq<string>)
    requires |texts| == |Tokens|
    ensures SinglePass(texts, "/yyyy") == "/" + texts[0]
  {
    NoTokenAtNonLetter("/yyyy");
    assert ["/yyyy"[0]] == "/" && "/yyyy"[1..] == "yyyy";
    SinglePassCopy(texts, "/yyyy", "yyyy");
    YearTokenFirst();
    SinglePassToken(texts, "yyyy", 0, "");
  }

  /** The single pass on the tail "dd/yyyy" of the default format. */
  lemma SinglePassDay(texts: seq<string>)
    requires |texts| == |Tokens|
    ensures SinglePass(texts, "dd/yyyy") == texts[6] + "/" + texts[0]
  {
    DayTokenFirst();
    SinglePassToken(texts, "dd/yyyy", 6, "/yyyy");
    var tail := SinglePass(texts, "/yyyy");
    SinglePassYear(texts);
    assert tail == "/" + texts[0];
    assert SinglePass(texts, "dd/yyyy") == texts[6] + tail;
  }

  /** The single pass on the tail "/dd/yyyy" of the default format. */
  lemma SinglePassSlashDay(texts: seq<string>)
    requires |texts| == |Tokens|
    ensures SinglePass(texts, "/dd/yyyy") == "/" + (texts[6] + "/" + texts[0])
  {
    NoTokenAtNonLetter("/dd/yyyy");
    assert ["/dd/yyyy"[0]] == "/" && "/dd/yyyy"[1..] == "dd/yyyy";
    SinglePassCopy(texts, "/dd/yyyy", "dd/yyyy");
    SinglePassDay(texts);
  }

  /** The first step of the single pass on the default format replaces 'MM'. */
  lemma SinglePassMonth(texts: seq<string>)
    requires |texts| == |Tokens|
    ensures SinglePass(texts, "MM/dd/yyyy") == texts[4] + SinglePass(texts, "/dd/yyyy")
  {
    DefaultMonthTokenFirst();
    SinglePassToken(texts, "MM/dd/yyyy", 4, "/dd/yyyy");
  }

  /** Regrouping the default format's pieces. */
  lemma ConcatFour(a: string, b: string, c: string)
    ensures a + ("/" + (b + "/" + c)) == a + "/" + b + "/" + c
  {
  }

  /** The single pass on the whole default format. */
  lemma SinglePassDefault(texts: seq<string>)
    requires |texts| == |Tokens|
    ensures SinglePass(texts, "MM/dd/yyyy") == texts[4] + "/" + texts[6] + "/" + texts[0]
  {
    SinglePassMonth(texts);
    SinglePassSlashDay(texts);
    ConcatFour(texts[4], texts[6], texts[0]);
  }

  /** The intended formatter gives the same as the pipe on the default format. */
  lemma IntendedDefaultFormat(i: Instant)
    requires IsValidInstant(i)
    ensures FormatIntended(i, "MM/dd/yyyy") == FormatDate(i, "MM/dd/yyyy")
  {
    var texts := TokenTexts(i);
    YearIsDigits(i.date.year);
    DefaultChain(texts);
    SinglePassDefault(texts);
  }

  /** What the pipe is handed: nothing (a falsy value), a string `Date` cannot parse, or a date. */
  datatype DateValue = Absent | Unparseable | At(instant: Instant)

  /**
   * `transform(value, format)` without a time zone: '' for a falsy value or an invalid
   * date, otherwise the formatted date (with the intended single-pass formatter).
   */
  function Transform(value: DateValue, format: string): (r: string)
    requires value.At? ==> IsValidInstant(value.instant)
    ensures !value.At? ==> r == ""
    ensures value.At? ==> r == FormatIntended(value.instant, format)
  {
    match value
    case At(i) => FormatIntended(i, format)
    case _ => ""
  }
}
