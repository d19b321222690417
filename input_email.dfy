/**
 * The e-mail input (`finzly-input-email`): a text value validated against a simple e-mail
 * pattern once the field has been left for the first time.
 */
module InputEmail {
  import opened Options
  import opened Text

  /** Characters of the local part: `[a-zA-Z0-9._%+\-']`. */
  predicate IsLocalChar(c: char) {
    IsAsciiLetter(c) || IsDigit(c) || c == '.' || c == '_' || c == '%' || c == '+' || c == '-' || c == '\''
  }

  /** Characters of the domain before its last dot: `[a-zA-Z0-9.-]`. */
  predicate IsDomainChar(c: char) {
    IsAsciiLetter(c) || IsDigit(c) || c == '.' || c == '-'
  }

  predicate AllLocal(s: string) { forall k :: 0 <= k < |s| ==> IsLocalChar(s[k]) }
  predicate AllDomain(s: string) { forall k :: 0 <= k < |s| ==> IsDomainChar(s[k]) }
  predicate AllLetters(s: string) { forall k :: 0 <= k < |s| ==> IsAsciiLetter(s[k]) }

  /**
   * The language of `^[a-zA-Z0-9._%+\-']+@[a-zA-Z0-9.-]+\.[a-zA-Z]{2,}$`: a way to cut the
   * string into a non-empty local part, '@', a non-empty domain part, '.' and a suffix of
   * two or more letters.
   */
  ghost predicate EmailPattern(s: string) {
    exists i, j :: 0 < i && i + 1 < j < |s| - 2 && s[i] == '@' && s[j] == '.' &&
      AllLocal(s[..i]) && AllDomain(s[i + 1..j]) && AllLetters(s[j + 1..])
  }

  /** The last position of `c` in `s`, searching down from `k`. */
  function LastIndexBelow(s: string, c: char, k: nat): (r: Option<nat>)
    requires k <= |s|
    ensures r.Some? ==> r.value < k && s[r.value] == c
    ensures r.Some? ==> forall m :: r.value < m < k ==> s[m] != c
    ensures r.None? ==> forall m :: 0 <= m < k ==> s[m] != c
  {
    if k == 0 then None
    else if s[k - 1] == c then Some(k - 1)
    else LastIndexBelow(s, c, k - 1)
  }

  /** The first position of `c` in `s` from `k` on. */
  function FirstIndexFrom(s: string, c: char, k: nat): (r: Option<nat>)
    requires k <= |s|
    ensures r.Some? ==> k <= r.value < |s| && s[r.value] == c
    ensures r.Some? ==> forall m :: k <= m < r.value ==> s[m] != c
    ensures r.None? ==> forall m :: k <= m < |s| ==> s[m] != c
    decreases |s| - k
  {
    if k == |s| then None
    else if s[k] == c then Some(k)
    else FirstIndexFrom(s, c, k + 1)
  }

  /**
   * The pattern test, computed: the first '@' ends a non-empty local part, and the last '.'
   * comes after at least one domain character and is followed by two or more letters.
   */
  function MatchesEmail(s: string): bool {
    match FirstIndexFrom(s, '@', 0)
    case None => false
    case Some(i) =>
      match LastIndexBelow(s, '.', |s|)
      case None => false
      case Some(j) =>
        0 < i && i + 1 < j < |s| - 2 && AllLocal(s[..i]) && AllDomain(s[i + 1..j]) && AllLetters(s[j + 1..])
  }

  /** An '@' preceded only by local characters is the first '@'. */
  lemma FirstAtIs(s: string, i: nat)
    requires i < |s| && s[i] == '@' && AllLocal(s[..i])
    ensures FirstIndexFrom(s, '@', 0) == Some(i)
  {
    forall m | 0 <= m < i
      ensures s[m] != '@'
    {
      assert s[..i][m] == s[m];
    }
  }

  /** A '.' followed only by letters is the last '.'. */
  lemma LastDotIs(s: string, j: nat)
    requires j < |s| && s[j] == '.' && AllLetters(s[j + 1..])
    ensures LastIndexBelow(s, '.', |s|) == Some(j)
  {
    forall m | j < m < |s|
      ensures s[m] != '.'
    {
      assert s[j + 1..][m - j - 1] == s[m];
    }
  }

  /** The computed test accepts exactly the strings of the pattern's language. */
  lemma {:induction false} MatchesEmailIsPattern(s: string)
    ensures MatchesEmail(s) <==> EmailPattern(s)
  {
    if EmailPattern(s) {
      var i, j :| 0 < i && i + 1 < j < |s| - 2 && s[i] == '@' && s[j] == '.' &&
        AllLocal(s[..i]) && AllDomain(s[i + 1..j]) && AllLetters(s[j + 1..]);
      FirstAtIs(s, i);
      LastDotIs(s, j);
    }
    if MatchesEmail(s) {
      var i := FirstIndexFrom(s, '@', 0).value;
      var j := LastIndexBelow(s, '.', |s|).value;
      assert s[i] == '@' && s[j] == '.';
    }
  }

  /** An '@' directly before the last '.' leaves the domain empty, which the pattern rejects. */
  lemma EmptyDomainRejected()
    ensures !MatchesEmail("a@.co") && !EmailPattern("a@.co")
    ensures MatchesEmail("a@b.co")
  {
    var s, t := "a@.co", "a@b.co";
    FirstAtIs(s, 1);
    LastDotIs(s, 2);
    MatchesEmailIsPattern(s);
    FirstAtIs(t, 1);
    LastDotIs(t, 3);
    assert AllDomain(t[2..3]) && AllLetters(t[4..]);
  }

  /** None of the three parts of the pattern can hold an '@'. */
  lemma NoAtInParts(x: string)
    ensures AllLocal(x) || AllDomain(x) || AllLetters(x) ==> forall k :: 0 <= k < |x| ==> x[k] != '@'
  {
  }

  /** A string of the pattern has exactly one '@'. */
  lemma PatternHasOneAt(s: string)
    requires EmailPattern(s)
    ensures exists i :: 0 <= i < |s| && s[i] == '@' && forall m :: 0 <= m < |s| && s[m] == '@' ==> m == i
  {
    var i, j :| 0 < i && i + 1 < j < |s| - 2 && s[i] == '@' && s[j] == '.' &&
      AllLocal(s[..i]) && AllDomain(s[i + 1..j]) && AllLetters(s[j + 1..]);
    NoAtInParts(s[..i]);
    NoAtInParts(s[i + 1..j]);
    NoAtInParts(s[j + 1..]);
    forall m | 0 <= m < |s| && m != i
      ensures s[m] != '@'
    {
      if m < i {
        assert s[m] == s[..i][m];
      } else if m < j {
        assert s[m] == s[i + 1..j][m - i - 1];
      } else if m > j {
        assert s[m] == s[j + 1..][m - j - 1];
      }
    }
  }

  /** The outcome of `validateEmail`. */
  datatype Validation = Validation(isValid: bool, validationError: string)

  /** `validateEmail` on a value: empty after trimming, or not matching the pattern, is an error. */
  function Validate(value: string, required: bool, errorText: string): Validation {
    var trimmed := Trim(value);
    if trimmed == "" then
      if required then Validation(false, if errorText != "" then errorText else "Email is required")
      else Validation(true, "")
    else if !MatchesEmail(trimmed) then
      Validation(false, if errorText != "" then errorText else "Please enter a valid email address")
    else Validation(true, "")
  }

  /**
   * What validation decides: after trimming, an empty value is valid exactly when the field
   * is optional, and the required message is `errorText` or "Email is required"; any other
   * value is valid exactly when it is in the pattern's language, and the message for a
   * mismatch is `errorText` or "Please enter a valid email address". A valid value has no
   * message.
   */
  lemma ValidateMeaning(value: string, required: bool, errorText: string)
    ensures var v := Validate(value, required, errorText);
      (Trim(value) == "" ==> (v.isValid <==> !required)) &&
      (Trim(value) != "" ==> (v.isValid <==> EmailPattern(Trim(value)))) &&
      (v.isValid ==> v.validationError == "") &&
      (!v.isValid && Trim(value) == "" ==>
        v.validationError == if errorText != "" then errorText else "Email is required") &&
      (!v.isValid && Trim(value) != "" ==>
        v.validationError == if errorText != "" then errorText else "Please enter a valid email address")
  {
    MatchesEmailIsPattern(Trim(value));
  }

  /** Only the trimmed value counts: values that trim alike are judged alike. */
  lemma ValidateSeesTrimmed(a: string, b: string, required: bool, errorText: string)
    requires Trim(a) == Trim(b)
    ensures Validate(a, required, errorText) == Validate(b, required, errorText)
  {
  }

  /** `value || ''`: a missing value reads as the empty string. */
  function OrEmpty(v: Option<string>): string {
    if v.Some? then v.value else ""
  }

  /** The field's look: `state`. */
  datatype FieldState = DefaultState | SuccessState | ErrorState | WarningState

  /** The e-mail input component's state. */
  class InputEmail {
    const required: bool
    const errorText: string
    const helperText: string
    var disabled: bool
    var value: string
    var isValid: bool
    var isTouched: bool
    var validationError: string
    /** The values reported through `onChange`. */
    var changes: seq<string>
    /** How often `onTouched` was called. */
    var touches: nat

    constructor (required: bool, errorText: string, helperText: string, disabled: bool)
      ensures this.required == required && this.errorText == errorText && this.helperText == helperText
      ensures this.disabled == disabled
      ensures value == "" && isValid && !isTouched && validationError == "" && changes == [] && touches == 0
    {
      this.required := required;
      this.errorText := errorText;
      this.helperText := helperText;
      this.disabled := disabled;
      value := "";
      isValid := true;
      isTouched := false;
      validationError := "";
      changes := [];
      touches := 0;
    }

    /** `validateEmail`. */
    method ValidateEmail()
      modifies this`isValid, this`validationError
      ensures Validation(isValid, validationError) == Validate(value, required, errorText)
    {
      var trimmedValue := Trim(value);
      if trimmedValue == "" {
        if required {
          isValid := false;
          validationError := if errorText != "" then errorText else "Email is required";
        } else {
          isValid := true;
          validationError := "";
        }
        return;
      }
      if !MatchesEmail(trimmedValue) {
        isValid := false;
        validationError := if errorText != "" then errorText else "Please enter a valid email address";
      } else {
        isValid := true;
        validationError := "";
      }
    }

    /** `writeValue`: null or '' store ''; the value is validated only once the field was left. */
    method WriteValue(v: Option<string>)
      modifies this`value, this`isValid, this`validationError
      ensures value == OrEmpty(v)
      ensures !isTouched ==> isValid == old(isValid) && validationError == old(validationError)
      ensures isTouched ==> Validation(isValid, validationError) == Validate(value, required, errorText)
    {
      StoreValue(OrEmpty(v));
    }

    /** The part of `writeValue` after `value || ''`. */
    method StoreValue(s: string)
      modifies this`value, this`isValid, this`validationError
      ensures value == s
      ensures !isTouched ==> isValid == old(isValid) && validationError == old(validationError)
      ensures isTouched ==> Validation(isValid, validationError) == Validate(s, required, errorText)
    {
      value := s;
      if isTouched {
        ValidateEmail();
      }
    }

    /** `setDisabledState`. */
    method SetDisabledState(isDisabled: bool)
      modifies this`disabled
      ensures disabled == isDisabled
    {
      disabled := isDisabled;
    }

    /** `onInputChange`: the typed value is stored, validated once the field was left, and reported. */
    method OnInputChange(input: string)
      modifies this`value, this`isValid, this`validationError, this`changes
      ensures value == input && changes == old(changes) + [input]
      ensures !isTouched ==> isValid == old(isValid) && validationError == old(validationError)
      ensures isTouched ==> Validation(isValid, validationError) == Validate(input, required, errorText)
    {
      value := input;
      if isTouched {
        ValidateEmail();
      }
      changes := changes + [value];
    }

    /** `onInputBlur`: the field counts as left from now on; the value is validated and a touch reported. */
    method OnInputBlur()
      modifies this`isTouched, this`isValid, this`validationError, this`touches
      ensures isTouched && touches == old(touches) + 1
      ensures Validation(isValid, validationError) == Validate(value, required, errorText)
    {
      isTouched := true;
      ValidateEmail();
      touches := touches + 1;
    }

    /**
     * `state`: default until the field was left; then error exactly when invalid, and success
     * exactly when valid with a non-empty value.
     */
    function State(): (s: FieldState)
      reads this`isTouched, this`isValid, this`value
      ensures !isTouched ==> s == DefaultState
      ensures s == ErrorState <==> isTouched && !isValid
      ensures s == SuccessState <==> isTouched && isValid && value != ""
      ensures s != WarningState
    {
      if !isTouched then DefaultState
      else if !isValid then ErrorState
      else if isValid && value != "" then SuccessState
      else DefaultState
    }

    /** `showError`: an error shows exactly when the field was left, is invalid and has a message. */
    function ShowError(): (b: bool)
      reads this`isTouched, this`isValid, this`value, this`validationError
      ensures b <==> isTouched && !isValid && validationError != ""
    {
      validationError != "" && State() == ErrorState
    }

    /** `showHelper`: the helper text shows exactly when there is one and the field is not in error. */
    function ShowHelper(): (b: bool)
      reads this`isTouched, this`isValid, this`value
      ensures b <==> helperText != "" && !(isTouched && !isValid)
    {
      helperText != "" && State() != ErrorState
    }

    /**
     * `displayErrorText`: the validation message, or `errorText` when there is none. While
     * an error shows, the text is that error's message and so never empty; the text is empty
     * only when neither message is set.
     */
    function DisplayErrorText(): (t: string)
      reads this`validationError, this`isTouched, this`isValid, this`value
      ensures ShowError() ==> t == validationError && t != ""
      ensures t == "" <==> validationError == "" && errorText == ""
      ensures validationError == "" ==> t == errorText
    {
      if validationError != "" then validationError else errorText
    }
  }

  /** After leaving the field empty, a required field shows its error and an optional one shows none. */
  lemma EmptyRequiredShowsError(f: InputEmail)
    requires f.isTouched && f.value == ""
    requires Validation(f.isValid, f.validationError) == Validate(f.value, f.required, f.errorText)
    ensures f.ShowError() <==> f.required
  {
    TrimAllSpace(f.value);
    ValidateMeaning(f.value, f.required, f.errorText);
  }
}
