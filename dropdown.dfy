/**
 * The dropdown (`finzly-dropdown`): single or multiple selection among options, with a search
 * term that filters them. Values are compared with `===`, which on the primitive values
 * modelled here is equality.
 */
module Dropdown {
  import opened Options
  import opened Text

  /** An option's value: a JavaScript primitive. */
  datatype OptionValue = Undefined | Null | Flag(b: bool) | Num(n: int) | Str(s: string)

  /** A value written by the form: a single value or an array of values. */
  datatype FormValue = Scalar(v: OptionValue) | List(vs: seq<OptionValue>)

  datatype DropdownOption = DropdownOption(
    value: OptionValue, optionLabel: string, disabled: Option<bool>, description: Option<string>)

  /** `indexOf`: the first position of `v` from `k` on. */
  function IndexFrom(vs: seq<OptionValue>, v: OptionValue, k: nat): (r: Option<nat>)
    requires k <= |vs|
    ensures r.Some? ==> k <= r.value < |vs| && vs[r.value] == v
    ensures r.Some? ==> forall j :: k <= j < r.value ==> vs[j] != v
    ensures r.None? ==> forall j :: k <= j < |vs| ==> vs[j] != v
    decreases |vs| - k
  {
    if k == |vs| then None
    else if vs[k] == v then Some(k)
    else IndexFrom(vs, v, k + 1)
  }

  function IndexOfValue(vs: seq<OptionValue>, v: OptionValue): Option<nat> {
    IndexFrom(vs, v, 0)
  }

  /** The list without the element at `k` (`splice(k, 1)`). */
  function Without(vs: seq<OptionValue>, k: nat): seq<OptionValue>
    requires k < |vs|
  {
    vs[..k] + vs[k + 1..]
  }

  /**
   * The multi-select toggle: the first occurrence of `v` is taken out, or, when there is
   * none, `v` is pushed at the end.
   */
  function Toggle(vs: seq<OptionValue>, v: OptionValue): seq<OptionValue> {
    match IndexOfValue(vs, v)
    case Some(k) => Without(vs, k)
    case None => vs + [v]
  }

  /** No value occurs twice. */
  ghost predicate NoDuplicates(vs: seq<OptionValue>) {
    forall i, j :: 0 <= i < j < |vs| ==> vs[i] != vs[j]
  }

  /** On a list without duplicates, the toggle flips `v`'s membership and keeps every other value's. */
  lemma ToggleFlips(vs: seq<OptionValue>, v: OptionValue)
    requires NoDuplicates(vs)
    ensures NoDuplicates(Toggle(vs, v))
    ensures v in Toggle(vs, v) <==> v !in vs
    ensures forall w :: w != v ==> (w in Toggle(vs, v) <==> w in vs)
  {
    match IndexOfValue(vs, v)
    case Some(k) =>
      var r := Without(vs, k);
      assert forall j :: 0 <= j < |r| ==> r[j] == if j < k then vs[j] else vs[j + 1];
      forall w
        ensures w in r <==> w in vs && w != v
      {
        if w in vs && w != v {
          var j :| 0 <= j < |vs| && vs[j] == w;
          assert j != k;
          assert r[if j < k then j else j - 1] == w;
        }
      }
    case None =>
  }

  /** Selecting a value that was not selected, then selecting it again, restores the selection exactly. */
  lemma ToggleTwiceAbsent(vs: seq<OptionValue>, v: OptionValue)
    requires v !in vs
    ensures Toggle(Toggle(vs, v), v) == vs
  {
    var w := vs + [v];
    assert w[|vs|] == v && forall j :: 0 <= j < |vs| ==> w[j] == vs[j];
    assert IndexOfValue(w, v) == Some(|vs|);
    assert (vs + [v])[..|vs|] == vs;
  }

  /**
   * Deselecting a selected value and selecting it again restores the same values, with the
   * value moved to the end.
   */
  lemma ToggleTwicePresent(vs: seq<OptionValue>, v: OptionValue)
    requires v in vs && NoDuplicates(vs)
    ensures multiset(Toggle(Toggle(vs, v), v)) == multiset(vs)
    ensures Toggle(Toggle(vs, v), v)[|vs| - 1] == v
  {
    var k := IndexOfValue(vs, v).value;
    ToggleFlips(vs, v);
    var r := Without(vs, k);
    assert vs == vs[..k] + [v] + vs[k + 1..];
    assert IndexOfValue(r, v).None?;
  }

  /** An option matches a lower-cased term when its lower-cased label or description contains it. */
  predicate Matches(o: DropdownOption, search: string) {
    Contains(Lower(o.optionLabel), search) ||
    (o.description.Some? && Contains(Lower(o.description.value), search))
  }

  /** `options.filter(...)` with a lower-cased term. */
  function FilterBy(options: seq<DropdownOption>, search: string): seq<DropdownOption> {
    if options == [] then []
    else (if Matches(options[0], search) then [options[0]] else []) + FilterBy(options[1..], search)
  }

  /** `filterOptions`: all options for an empty term, otherwise those matching its lower-case form. */
  function Filtered(options: seq<DropdownOption>, term: string): (r: seq<DropdownOption>)
    ensures term == "" ==> r == options
  {
    if term == "" then options else FilterBy(options, Lower(term))
  }

  /** The filter keeps exactly the matching options. */
  lemma {:induction false} FilterByMembers(options: seq<DropdownOption>, search: string)
    ensures forall o :: o in FilterBy(options, search) <==> o in options && Matches(o, search)
  {
    if options != [] {
      FilterByMembers(options[1..], search);
      assert options == [options[0]] + options[1..];
    }
  }

  /** The filter keeps the options' order: filtering a concatenation filters each part. */
  lemma {:induction false} FilterByAppend(xs: seq<DropdownOption>, ys: seq<DropdownOption>, search: string)
    ensures FilterBy(xs + ys, search) == FilterBy(xs, search) + FilterBy(ys, search)
  {
    if xs == [] {
      assert xs + ys == ys;
    } else {
      assert (xs + ys)[0] == xs[0] && (xs + ys)[1..] == xs[1..] + ys;
      FilterByAppend(xs[1..], ys, search);
    }
  }

  /** The first option with value `v`. */
  function FindFrom(options: seq<DropdownOption>, v: OptionValue, k: nat): (r: Option<nat>)
    requires k <= |options|
    ensures r.Some? ==> k <= r.value < |options| && options[r.value].value == v
    ensures r.Some? ==> forall j :: k <= j < r.value ==> options[j].value != v
    ensures r.None? ==> forall j :: k <= j < |options| ==> options[j].value != v
    decreases |options| - k
  {
    if k == |options| then None
    else if options[k].value == v then Some(k)
    else FindFrom(options, v, k + 1)
  }

  /** `options.find(opt => opt.value === v)?.optionLabel || fallback`. */
  function LabelOr(options: seq<DropdownOption>, v: FormValue, fallback: string): (r: string)
    ensures r == fallback || exists j :: 0 <= j < |options| && Scalar(options[j].value) == v && r == options[j].optionLabel
    ensures (forall j :: 0 <= j < |options| ==> Scalar(options[j].value) != v) ==> r == fallback
    ensures forall i ::
      (0 <= i < |options| && Scalar(options[i].value) == v && forall j :: 0 <= j < i ==> Scalar(options[j].value) != v) ==>
        r == if options[i].optionLabel != "" then options[i].optionLabel else fallback
  {
    match v
    case List(_) => fallback
    case Scalar(x) =>
      match FindFrom(options, x, 0)
      case Some(i) => if options[i].optionLabel != "" then options[i].optionLabel else fallback
      case None => fallback
  }

  /** The values `writeValue` stores as "no selection" in single mode. */
  predicate IsEmptyValue(v: FormValue) {
    v == Scalar(Null) || v == Scalar(Undefined) || v == Scalar(Str(""))
  }

  /** The dropdown component's state. */
  class Dropdown {
    var options: seq<DropdownOption>
    const placeholder: string
    const searchable: bool
    const multiSelect: bool
    var disabled: bool
    var isOpen: bool
    var searchTerm: string
    var selectedValue: FormValue
    var selectedValues: seq<OptionValue>
    var filteredOptions: seq<DropdownOption>
    /** The values reported through `onChange`; `selectionChange` emits the same ones. */
    var changes: seq<FormValue>
    /** How often `onTouched` was called. */
    var touches: nat
    /** The terms emitted on `searchChange`. */
    var searches: seq<string>

    constructor (options: seq<DropdownOption>, placeholder: string, searchable: bool, multiSelect: bool, disabled: bool)
      ensures this.options == options && this.placeholder == placeholder && this.searchable == searchable
      ensures this.multiSelect == multiSelect && this.disabled == disabled
      ensures !isOpen && searchTerm == "" && selectedValue == Scalar(Null) && selectedValues == []
      ensures filteredOptions == [] && changes == [] && touches == 0 && searches == []
    {
      this.options := options;
      this.placeholder := placeholder;
      this.searchable := searchable;
      this.multiSelect := multiSelect;
      this.disabled := disabled;
      isOpen := false;
      searchTerm := "";
      selectedValue := Scalar(Null);
      selectedValues := [];
      filteredOptions := [];
      changes := [];
      touches := 0;
      searches := [];
    }

    /** `ngOnInit`: every option is shown. */
    method NgOnInit()
      modifies this`filteredOptions
      ensures filteredOptions == options
    {
      filteredOptions := options;
    }

    /** The parent binds new options; `ngOnChanges` only notes them, so nothing else changes. */
    method OptionsChanged(newOptions: seq<DropdownOption>)
      modifies this`options
      ensures options == newOptions
    {
      options := newOptions;
    }

    /** `writeValue`: a non-array becomes [] in multi mode; null, undefined and '' become null in single mode. */
    method WriteValue(value: FormValue)
      modifies this`selectedValues, this`selectedValue
      ensures multiSelect ==>
        selectedValue == old(selectedValue) && selectedValues == (if value.List? then value.vs else [])
      ensures !multiSelect ==>
        selectedValues == old(selectedValues) &&
        selectedValue == (if IsEmptyValue(value) then Scalar(Null) else value)
    {
      if multiSelect {
        selectedValues := if value.List? then value.vs else [];
      } else {
        selectedValue := if IsEmptyValue(value) then Scalar(Null) else value;
      }
    }

    /** `setDisabledState`. */
    method SetDisabledState(isDisabled: bool)
      modifies this`disabled
      ensures disabled == isDisabled
    {
      disabled := isDisabled;
    }

    /**
     * `toggleDropdown`: ignored while disabled; opening clears the search, shows every option
     * and reports a touch; closing clears the search only.
     */
    method ToggleDropdown()
      modifies this`isOpen, this`searchTerm, this`filteredOptions, this`touches
      ensures disabled ==>
        isOpen == old(isOpen) && searchTerm == old(searchTerm) &&
        filteredOptions == old(filteredOptions) && touches == old(touches)
      ensures !disabled ==> isOpen == !old(isOpen) && searchTerm == ""
      ensures !disabled && isOpen ==> filteredOptions == options && touches == old(touches) + 1
      ensures !disabled && !isOpen ==> filteredOptions == old(filteredOptions) && touches == old(touches)
    {
      if disabled {
        return;
      }
      isOpen := !isOpen;
      if isOpen {
        searchTerm := "";
        filteredOptions := options;
        touches := touches + 1;
      } else {
        searchTerm := "";
      }
    }

    /**
     * `selectOption`: a disabled option changes nothing. In multi mode the option's value is
     * toggled and the new list reported; in single mode it becomes the value, is reported, and
     * the list closes with the search cleared and every option shown again.
     */
    method SelectOption(option: DropdownOption)
      modifies this`selectedValues, this`selectedValue, this`changes, this`isOpen, this`searchTerm,
        this`filteredOptions
      ensures option.disabled == Some(true) ==>
        selectedValues == old(selectedValues) && selectedValue == old(selectedValue) &&
        changes == old(changes) && isOpen == old(isOpen) && searchTerm == old(searchTerm) &&
        filteredOptions == old(filteredOptions)
      ensures option.disabled != Some(true) && multiSelect ==>
        selectedValues == Toggle(old(selectedValues), option.value) &&
        changes == old(changes) + [List(selectedValues)] && selectedValue == old(selectedValue) &&
        isOpen == old(isOpen) && searchTerm == old(searchTerm) && filteredOptions == old(filteredOptions)
      ensures option.disabled != Some(true) && !multiSelect ==>
        selectedValue == Scalar(option.value) && changes == old(changes) + [Scalar(option.value)] &&
        selectedValues == old(selectedValues) && !isOpen && searchTerm == "" && filteredOptions == options
    {
      if option.disabled == Some(true) {
        return;
      }
      if multiSelect {
        var index := IndexOfValue(selectedValues, option.value);
        if index.Some? {
          selectedValues := Without(selectedValues, index.value);
        } else {
          selectedValues := selectedValues + [option.value];
        }
        changes := changes + [List(selectedValues)];
      } else {
        selectedValue := Scalar(option.value);
        changes := changes + [selectedValue];
        isOpen := false;
        searchTerm := "";
        filteredOptions := options;
      }
    }

    /** `isSelected`. */
    function IsSelected(option: DropdownOption): bool
      reads this`selectedValues, this`selectedValue
    {
      if multiSelect then option.value in selectedValues else selectedValue == Scalar(option.value)
    }

    /** `hasSelection`. */
    function HasSelection(): bool
      reads this`selectedValues, this`selectedValue
    {
      if multiSelect then |selectedValues| > 0 else !IsEmptyValue(selectedValue)
    }

    /**
     * `getDisplayText`: the placeholder when nothing is selected, "N items selected" for two
     * or more values, otherwise the selected option's label (the placeholder when no option
     * carries the value or its label is empty).
     */
    function DisplayText(): (r: string)
      reads this`selectedValues, this`selectedValue, this`options
      ensures !HasSelection() ==> r == placeholder
      ensures multiSelect && |selectedValues| >= 2 ==> r == NatToString(|selectedValues|) + " items selected"
      ensures HasSelection() && !(multiSelect && |selectedValues| >= 2) ==>
        r == placeholder || exists j :: 0 <= j < |options| && options[j].optionLabel == r
      ensures multiSelect && |selectedValues| == 1 ==> r == LabelOr(options, Scalar(selectedValues[0]), placeholder)
      ensures !multiSelect && HasSelection() ==> r == LabelOr(options, selectedValue, placeholder)
    {
      if multiSelect then
        if |selectedValues| == 0 then placeholder
        else if |selectedValues| == 1 then LabelOr(options, Scalar(selectedValues[0]), placeholder)
        else NatToString(|selectedValues|) + " items selected"
      else if !HasSelection() then placeholder
      else LabelOr(options, selectedValue, placeholder)
    }

    /** `getSelectedLabel`. */
    function SelectedLabel(): (r: string)
      reads this`selectedValues, this`selectedValue, this`options
      ensures r == DisplayText()
    {
      if multiSelect then
        if |selectedValues| == 0 then placeholder
        else if |selectedValues| == 1 then LabelOr(options, Scalar(selectedValues[0]), placeholder)
        else NatToString(|selectedValues|) + " items selected"
      else if selectedValue == Scalar(Null) || selectedValue == Scalar(Undefined) || selectedValue == Scalar(Str("")) then placeholder
      else LabelOr(options, selectedValue, placeholder)
    }

    /** `getOptionLabel`: the option's label, or '' when none carries the value. */
    function OptionLabel(value: OptionValue): (r: string)
      reads this`options
      ensures FindFrom(options, value, 0).None? ==> r == ""
    {
      LabelOr(options, Scalar(value), "")
    }

    /** `removeValue`: ignored while disabled; otherwise the first occurrence goes and the list is reported. */
    method RemoveValue(value: OptionValue)
      modifies this`selectedValues, this`changes
      ensures disabled || value !in old(selectedValues) ==>
        selectedValues == old(selectedValues) && changes == old(changes)
      ensures !disabled && value in old(selectedValues) ==>
        selectedValues == Without(old(selectedValues), IndexOfValue(old(selectedValues), value).value) &&
        changes == old(changes) + [List(selectedValues)]
    {
      if disabled {
        return;
      }
      var index := IndexOfValue(selectedValues, value);
      if index.Some? {
        selectedValues := Without(selectedValues, index.value);
        changes := changes + [List(selectedValues)];
      }
    }

    /** `onSearch`: the term is taken, the options filtered and the term emitted. */
    method OnSearch(term: string)
      modifies this`searchTerm, this`filteredOptions, this`searches
      ensures searchTerm == term && filteredOptions == Filtered(options, term)
      ensures searches == old(searches) + [term]
    {
      searchTerm := term;
      FilterOptions();
      searches := searches + [searchTerm];
    }

    /** `filterOptions`. */
    method FilterOptions()
      modifies this`filteredOptions
      ensures filteredOptions == Filtered(options, searchTerm)
    {
      if searchTerm == "" {
        filteredOptions := options;
      } else {
        filteredOptions := FilterBy(options, Lower(searchTerm));
      }
    }

    /** `clearSelection`: nothing is selected afterwards, and the empty selection is reported. */
    method ClearSelection()
      modifies this`selectedValues, this`selectedValue, this`changes
      ensures !HasSelection()
      ensures multiSelect ==>
        selectedValues == [] && selectedValue == old(selectedValue) && changes == old(changes) + [List([])]
      ensures !multiSelect ==>
        selectedValue == Scalar(Null) && selectedValues == old(selectedValues) &&
        changes == old(changes) + [Scalar(Null)]
    {
      if multiSelect {
        selectedValues := [];
        changes := changes + [List([])];
      } else {
        selectedValue := Scalar(Null);
        changes := changes + [Scalar(Null)];
      }
    }

    /** `onClickOutside`: a click outside an open list closes it, clears the search and shows every option. */
    method OnClickOutside(inside: bool)
      modifies this`isOpen, this`searchTerm, this`filteredOptions
      ensures !inside && old(isOpen) ==> !isOpen && searchTerm == "" && filteredOptions == options
      ensures inside || !old(isOpen) ==>
        isOpen == old(isOpen) && searchTerm == old(searchTerm) && filteredOptions == old(filteredOptions)
    {
      if !inside && isOpen {
        isOpen := false;
        searchTerm := "";
        filteredOptions := options;
      }
    }

    /** `onEscape`: closed, search cleared, every option shown. */
    method OnEscape()
      modifies this`isOpen, this`searchTerm, this`filteredOptions
      ensures !isOpen && searchTerm == "" && filteredOptions == options
    {
      isOpen := false;
      searchTerm := "";
      filteredOptions := options;
    }

    /** `onEnter`: with the list open and exactly one option shown, that option is selected. */
    method OnEnter()
      modifies this`selectedValues, this`selectedValue, this`changes, this`isOpen, this`searchTerm,
        this`filteredOptions
      ensures !(old(isOpen) && |old(filteredOptions)| == 1) ==>
        selectedValues == old(selectedValues) && selectedValue == old(selectedValue) &&
        changes == old(changes) && isOpen == old(isOpen) && searchTerm == old(searchTerm) &&
        filteredOptions == old(filteredOptions)
      ensures old(isOpen) && |old(filteredOptions)| == 1 && old(filteredOptions)[0].disabled == Some(true) ==>
        selectedValues == old(selectedValues) && selectedValue == old(selectedValue) &&
        changes == old(changes) && isOpen == old(isOpen) && searchTerm == old(searchTerm) &&
        filteredOptions == old(filteredOptions)
      ensures (old(isOpen) && |old(filteredOptions)| == 1 && old(filteredOptions)[0].disabled != Some(true) &&
               multiSelect) ==>
        selectedValues == Toggle(old(selectedValues), old(filteredOptions)[0].value) &&
        changes == old(changes) + [List(selectedValues)] && selectedValue == old(selectedValue) &&
        isOpen == old(isOpen) && searchTerm == old(searchTerm) && filteredOptions == old(filteredOptions)
      ensures (old(isOpen) && |old(filteredOptions)| == 1 && old(filteredOptions)[0].disabled != Some(true) &&
               !multiSelect) ==>
        selectedValue == Scalar(old(filteredOptions)[0].value) &&
        changes == old(changes) + [Scalar(old(filteredOptions)[0].value)] &&
        selectedValues == old(selectedValues) && !isOpen && searchTerm == "" && filteredOptions == options
    {
      if isOpen && |filteredOptions| == 1 {
        SelectOption(filteredOptions[0]);
      }
    }
  }

  /** `getDisplayText` and `getSelectedLabel` always agree. */
  lemma DisplayTextIsSelectedLabel(d: Dropdown)
    ensures d.DisplayText() == d.SelectedLabel()
  {
  }
}
