/**
 * The dialog service (`FinzlyDialogService`) and the dialog component (`FinzlyDialogComponent`).
 *
 * A configuration is a map from setting to value: the object spread `{ ...a, ...b }` is map
 * override `a + b`, and a key the caller set to `undefined` is present with value `Undefined`.
 * The service holds at most one current dialog. Its timers are events: `OpenTimerFires` (the
 * open animation) and `CloseTimerFires` (the step `close` defers until the animation ends).
 */
module Dialogs {
  import opened Options

  datatype ConfigKey =
    | Title | Subtitle | Content | ConfirmText | CancelText | CustomButtons | Size | DialogType
    | ShowClose | CloseOnBackdropClick | CloseOnEscape | CustomClass | FooterAlign

  /** The JavaScript values a configuration or a dialog result holds. */
  datatype Value =
    | Undefined
    | Null
    | Flag(b: bool)
    | Num(n: int)
    | Str(s: string)
    | Buttons(bs: seq<DialogButton>)

  /** `DialogButton`: `hasAction` says whether an `action` was given. */
  datatype DialogButton = DialogButton(
    text: string, buttonType: Option<string>, result: Value, hasAction: bool,
    closeOnClick: Option<bool>, disabled: Option<bool>)

  type DialogConfig = map<ConfigKey, Value>

  /** Reading a setting: a missing key reads as `undefined`. */
  function Get(c: DialogConfig, k: ConfigKey): Value {
    if k in c then c[k] else Undefined
  }

  /** JavaScript truthiness. */
  predicate Truthy(v: Value) {
    match v
    case Undefined => false
    case Null => false
    case Flag(b) => b
    case Num(n) => n != 0
    case Str(s) => s != ""
    case Buttons(_) => true
  }

  /** `getDefaultConfig`. */
  function DefaultConfig(): DialogConfig {
    map[Title := Str(""), Subtitle := Str(""), Content := Str(""), ConfirmText := Str("OK"),
        CancelText := Str("Cancel"), Size := Str("md"), DialogType := Str("default"),
        ShowClose := Flag(true), CloseOnBackdropClick := Flag(true), CloseOnEscape := Flag(true),
        FooterAlign := Str("right")]
  }

  /** The configuration `open` gives the dialog: the defaults, overridden key by key by the caller's. */
  function Merged(config: DialogConfig): (c: DialogConfig)
    ensures forall k :: Get(c, k) == if k in config then config[k] else Get(DefaultConfig(), k)
  {
    DefaultConfig() + config
  }

  /** A dialog opened with an empty configuration closes on backdrop click and on Escape, and shows "OK" and "Cancel". */
  lemma EmptyConfigDefaults()
    ensures Truthy(Get(Merged(map[]), CloseOnBackdropClick)) && Truthy(Get(Merged(map[]), CloseOnEscape))
    ensures Get(Merged(map[]), ConfirmText) == Str("OK") && Get(Merged(map[]), CancelText) == Str("Cancel")
    ensures Get(Merged(map[]), CustomButtons) == Undefined
  {
  }

  /** The shorthands `confirm`, `alert`, `success`, `error` and `warning`. */
  datatype Shorthand = Confirm | Alert | SuccessDialog | ErrorDialog | WarningDialog

  /** The settings a shorthand puts before the caller's configuration. */
  function ShorthandSettings(h: Shorthand): DialogConfig {
    match h
    case Confirm => map[ConfirmText := Str("Confirm"), CancelText := Str("Cancel")]
    case Alert => map[ConfirmText := Str("OK"), CancelText := Undefined]
    case SuccessDialog => map[DialogType := Str("success"), ConfirmText := Str("OK")]
    case ErrorDialog => map[DialogType := Str("error"), ConfirmText := Str("OK")]
    case WarningDialog => map[DialogType := Str("warning"), ConfirmText := Str("OK"), CancelText := Str("Cancel")]
  }

  /** The configuration a shorthand passes to `open`: title, content, its own settings, then the caller's. */
  function ShorthandConfig(h: Shorthand, title: string, content: string, config: DialogConfig): DialogConfig {
    map[Title := Str(title), Content := Str(content)] + ShorthandSettings(h) + config
  }

  /** Whatever the caller sets wins over the shorthand's settings and the defaults. */
  lemma CallerOverridesShorthand(h: Shorthand, title: string, content: string, config: DialogConfig, k: ConfigKey)
    requires k in config
    ensures Get(Merged(ShorthandConfig(h, title, content, config)), k) == config[k]
  {
  }

  /** Unless the caller sets them, `confirm` shows "Confirm" and "Cancel". */
  lemma ConfirmTexts(title: string, content: string, config: DialogConfig)
    requires ConfirmText !in config && CancelText !in config
    ensures Get(Merged(ShorthandConfig(Confirm, title, content, config)), ConfirmText) == Str("Confirm")
    ensures Get(Merged(ShorthandConfig(Confirm, title, content, config)), CancelText) == Str("Cancel")
  {
    var c := ShorthandConfig(Confirm, title, content, config);
    assert c[ConfirmText] == Str("Confirm") && c[CancelText] == Str("Cancel");
  }

  /**
   * Unless the caller sets them, `alert` shows "OK" and no cancel text at all: its explicit
   * `undefined` hides the default "Cancel".
   */
  lemma AlertTexts(title: string, content: string, config: DialogConfig)
    requires ConfirmText !in config && CancelText !in config
    ensures Get(Merged(ShorthandConfig(Alert, title, content, config)), ConfirmText) == Str("OK")
    ensures Get(Merged(ShorthandConfig(Alert, title, content, config)), CancelText) == Undefined
  {
    var c := ShorthandConfig(Alert, title, content, config);
    assert c[ConfirmText] == Str("OK") && c[CancelText] == Undefined;
  }

  /** Unless the caller sets a type, `success`, `error` and `warning` set theirs. */
  lemma ShorthandTypes(h: Shorthand, title: string, content: string, config: DialogConfig)
    requires h in {SuccessDialog, ErrorDialog, WarningDialog} && DialogType !in config
    ensures Get(Merged(ShorthandConfig(h, title, content, config)), DialogType) ==
      Str(match h case SuccessDialog => "success" case ErrorDialog => "error" case _ => "warning")
  {
    var c := ShorthandConfig(h, title, content, config);
    assert c[DialogType] == ShorthandSettings(h)[DialogType];
  }

  /** A dialog the service created: its number, its configuration and whether it shows as open. */
  datatype Dialog = Dialog(id: nat, config: DialogConfig, isOpen: bool)

  /** A deferred close step: the dialog `close` was called on, and the result to emit. */
  datatype PendingClose = PendingClose(dialog: nat, result: Value)

  /**
   * The service's state: the current dialog (`dialogComponentRef`), the dialogs attached to the
   * page, the deferred close steps in the order they will run, the open-animation timers still
   * to run, and the results emitted on `closeSubject`.
   */
  datatype Screen = Screen(
    current: Option<Dialog>, attached: set<nat>, pending: seq<PendingClose>, openTimers: nat,
    emitted: seq<Value>)

  /** `close`: with a current dialog, it shows as closed and its removal is deferred; otherwise nothing. */
  function CloseStep(s: Screen, result: Value): (r: Screen)
    ensures s.current.None? ==> r == s
  {
    match s.current
    case None => s
    case Some(d) =>
      s.(current := Some(d.(isOpen := false)), pending := s.pending + [PendingClose(d.id, result)])
  }

  /** `open`: close the current dialog, then attach a new one, not yet showing, with the merged configuration. */
  function OpenStep(s: Screen, config: DialogConfig, id: nat): (r: Screen)
    ensures r.current == Some(Dialog(id, Merged(config), false))
    ensures r.attached == s.attached + {id} && r.openTimers == s.openTimers + 1
  {
    var c := CloseStep(s, Undefined);
    c.(current := Some(Dialog(id, Merged(config), false)), attached := c.attached + {id},
       openTimers := c.openTimers + 1)
  }

  /**
   * The deferred close step as written: whatever dialog is current when the timer runs is
   * detached, the current dialog is cleared and the result emitted; without a current dialog
   * nothing happens.
   */
  function FireAsWritten(s: Screen): Screen
    requires |s.pending| > 0
  {
    var p := s.pending[0];
    match s.current
    case None => s.(pending := s.pending[1..])
    case Some(d) =>
      s.(current := None, attached := s.attached - {d.id}, pending := s.pending[1..],
         emitted := s.emitted + [p.result])
  }

  /**
   * The deferred close step as intended: the dialog that was closed is detached (if it still
   * is attached), the current dialog is cleared only if it is that one, and the result is
   * emitted once.
   */
  function FireCorrected(s: Screen): (r: Screen)
    requires |s.pending| > 0
    ensures r.pending == s.pending[1..] && r.openTimers == s.openTimers
    ensures r.attached == s.attached - {s.pending[0].dialog}
    ensures s.current.Some? && s.current.value.id != s.pending[0].dialog ==> r.current == s.current
  {
    var p := s.pending[0];
    if p.dialog in s.attached then
      s.(current := if s.current.Some? && s.current.value.id == p.dialog then None else s.current,
         attached := s.attached - {p.dialog}, pending := s.pending[1..],
         emitted := s.emitted + [p.result])
    else s.(pending := s.pending[1..])
  }

  /** The dialogs a deferred close step will remove. */
  function PendingIds(ps: seq<PendingClose>): set<nat> {
    set k | 0 <= k < |ps| :: ps[k].dialog
  }

  /**
   * No dialog is left behind: the current dialog is attached, and every attached dialog is the
   * current one or has a close step coming that removes it.
   */
  ghost predicate Tidy(s: Screen) {
    (s.current.Some? ==> s.current.value.id in s.attached) &&
    forall d :: d in s.attached ==>
      (s.current.Some? && s.current.value.id == d) || d in PendingIds(s.pending)
  }

  lemma PendingIdsAppend(ps: seq<PendingClose>, p: PendingClose)
    ensures PendingIds(ps + [p]) == PendingIds(ps) + {p.dialog}
  {
    assert forall k :: 0 <= k < |ps| ==> (ps + [p])[k] == ps[k];
    assert (ps + [p])[|ps|] == p;
  }

  /** `close` keeps the page tidy. */
  lemma CloseTidy(s: Screen, result: Value)
    requires Tidy(s)
    ensures Tidy(CloseStep(s, result))
  {
    if s.current.Some? {
      PendingIdsAppend(s.pending, PendingClose(s.current.value.id, result));
    }
  }

  /** `open` of a dialog with a new number keeps the page tidy. */
  lemma OpenTidy(s: Screen, config: DialogConfig, id: nat)
    requires Tidy(s)
    ensures Tidy(OpenStep(s, config, id))
  {
    var c := CloseStep(s, Undefined);
    CloseTidy(s, Undefined);
    if s.current.Some? {
      PendingIdsAppend(s.pending, PendingClose(s.current.value.id, Undefined));
    }
    var r := OpenStep(s, config, id);
    assert r.pending == c.pending;
    forall d | d in r.attached
      ensures (r.current.Some? && r.current.value.id == d) || d in PendingIds(r.pending)
    {
      if d != id {
        assert d in c.attached;
      }
    }
  }

  /** The intended close step keeps the page tidy. */
  lemma FireCorrectedTidy(s: Screen)
    requires Tidy(s) && |s.pending| > 0
    ensures Tidy(FireCorrected(s))
  {
    var r := FireCorrected(s);
    forall d | d in r.attached
      ensures (r.current.Some? && r.current.value.id == d) || d in PendingIds(r.pending)
    {
      if !(s.current.Some? && s.current.value.id == d) {
        var k :| 0 <= k < |s.pending| && s.pending[k].dialog == d;
        assert k != 0;
        assert r.pending[k - 1].dialog == d;
      }
    }
  }

  /**
   * As written, opening a dialog over an open one loses the new dialog and leaves the old one
   * behind: when the first dialog's close step runs, the second dialog is detached and
   * forgotten, while the first stays attached with no close step to come.
   */
  lemma OpenOverOpenAsWritten(config: DialogConfig)
    ensures var empty := Screen(None, {}, [], 0, []);
            var twice := OpenStep(OpenStep(empty, config, 0), config, 1);
            var after := FireAsWritten(twice);
            Tidy(empty) && after.current.None? && 1 !in after.attached && 0 in after.attached &&
            after.pending == [] && !Tidy(after)
  {
    var empty := Screen(None, {}, [], 0, []);
    var twice := OpenStep(OpenStep(empty, config, 0), config, 1);
    assert twice.pending == [PendingClose(0, Undefined)];
    var after := FireAsWritten(twice);
    assert after.attached == {0};
    assert PendingIds(after.pending) == {};
  }

  /** With the intended close step, the same sequence leaves the new dialog current and removes the old one. */
  lemma OpenOverOpenCorrected(config: DialogConfig)
    ensures var empty := Screen(None, {}, [], 0, []);
            var twice := OpenStep(OpenStep(empty, config, 0), config, 1);
            var after := FireCorrected(twice);
            after.current == Some(Dialog(1, Merged(config), false)) && after.attached == {1} &&
            after.emitted == [Undefined]
  {
    var empty := Screen(None, {}, [], 0, []);
    var twice := OpenStep(OpenStep(empty, config, 0), config, 1);
    assert twice.pending == [PendingClose(0, Undefined)];
  }

  /**
   * What an `afterClosed` promise made when `mark` results had been emitted resolves with:
   * the first result emitted after the call, once there is one.
   */
  function Resolution(emitted: seq<Value>, mark: nat): (r: Option<Value>)
    ensures r.Some? <==> |emitted| > mark
  {
    if |emitted| > mark then Some(emitted[mark]) else None
  }

  /** Later emissions never change what a promise resolved with. */
  lemma ResolutionStable(emitted: seq<Value>, more: seq<Value>, mark: nat)
    requires Resolution(emitted, mark).Some?
    ensures Resolution(emitted + more, mark) == Resolution(emitted, mark)
  {
  }

  /** The dialog service. */
  class DialogService {
    var current: Option<Dialog>
    var attached: set<nat>
    var pending: seq<PendingClose>
    var openTimers: nat
    var emitted: seq<Value>
    /** The number the next dialog gets. */
    var nextId: nat

    function Contents(): Screen
      reads this`current, this`attached, this`pending, this`openTimers, this`emitted
    {
      Screen(current, attached, pending, openTimers, emitted)
    }

    /** The page is tidy and every dialog number in use was handed out. */
    ghost predicate Valid()
      reads this`current, this`attached, this`pending, this`openTimers, this`emitted, this`nextId
    {
      Tidy(Contents()) && forall d :: d in attached ==> d < nextId
    }

    constructor ()
      ensures Valid() && Contents() == Screen(None, {}, [], 0, [])
    {
      current := None;
      attached := {};
      pending := [];
      openTimers := 0;
      emitted := [];
      nextId := 0;
    }

    /** `close`. */
    method Close(result: Value)
      requires Valid()
      modifies this`current, this`pending
      ensures Valid() && Contents() == CloseStep(old(Contents()), result)
    {
      CloseTidy(Contents(), result);
      if current.Some? {
        var d := current.value;
        current := Some(d.(isOpen := false));
        pending := pending + [PendingClose(d.id, result)];
      }
    }

    /** `open`: the returned number stands for the `DialogRef`, whose `close` is the service's. */
    method Open(config: DialogConfig) returns (id: nat)
      requires Valid()
      modifies this`current, this`attached, this`pending, this`openTimers, this`nextId
      ensures Valid() && id == old(nextId) && nextId == id + 1
      ensures Contents() == OpenStep(old(Contents()), config, id)
    {
      OpenTidy(Contents(), config, nextId);
      Close(Undefined);
      id := nextId;
      nextId := nextId + 1;
      current := Some(Dialog(id, Merged(config), false));
      attached := attached + {id};
      openTimers := openTimers + 1;
    }

    /** `confirm`, `alert`, `success`, `error` and `warning`. */
    method OpenShorthand(h: Shorthand, title: string, content: string, config: DialogConfig) returns (id: nat)
      requires Valid()
      modifies this`current, this`attached, this`pending, this`openTimers, this`nextId
      ensures Valid() && id == old(nextId) && nextId == id + 1
      ensures Contents() == OpenStep(old(Contents()), ShorthandConfig(h, title, content, config), id)
    {
      id := Open(ShorthandConfig(h, title, content, config));
    }

    /** The open animation's timer: the dialog current at that moment shows as open. */
    method OpenTimerFires()
      requires Valid() && openTimers > 0
      modifies this`current, this`openTimers
      ensures Valid()
      ensures openTimers == old(openTimers) - 1
      ensures current == if old(current).Some? then Some(old(current).value.(isOpen := true)) else None
      ensures current.Some? ==> current.value.id == old(current).value.id
    {
      openTimers := openTimers - 1;
      if current.Some? {
        current := Some(current.value.(isOpen := true));
      }
    }

    /** The deferred close step, as intended: it removes the dialog it was scheduled for. */
    method CloseTimerFires()
      requires Valid() && |pending| > 0
      modifies this`current, this`attached, this`pending, this`emitted
      ensures Valid() && Contents() == FireCorrected(old(Contents()))
    {
      FireCorrectedTidy(Contents());
      var p := pending[0];
      pending := pending[1..];
      if p.dialog in attached {
        if current.Some? && current.value.id == p.dialog {
          current := None;
        }
        attached := attached - {p.dialog};
        emitted := emitted + [p.result];
      }
    }

    /** `afterClosed`: the promise, given as the number of results emitted before it. */
    method AfterClosed() returns (mark: nat)
      ensures mark == |emitted| && Resolution(emitted, mark).None?
    {
      mark := |emitted|;
    }
  }

  /** `getButtonClass`: "btn btn-<type>" for the eight known types, "btn btn-outline" for any other. */
  function ButtonClass(button: DialogButton): (cls: string)
    ensures button.buttonType.Some? && button.buttonType.value in KnownButtonTypes() ==>
      cls == "btn btn-" + button.buttonType.value
    ensures !(button.buttonType.Some? && button.buttonType.value in KnownButtonTypes()) ==>
      cls == "btn btn-outline"
  {
    match button.buttonType
    case Some(t) =>
      if t in KnownButtonTypes() then "btn btn-" + t else "btn btn-outline"
    case None => "btn btn-outline"
  }

  function KnownButtonTypes(): set<string> {
    {"primary", "secondary", "success", "warning", "error", "info", "outline", "ghost"}
  }

  /** Distinct known types get distinct classes. */
  lemma ButtonClassInjective(a: DialogButton, b: DialogButton)
    requires a.buttonType.Some? && a.buttonType.value in KnownButtonTypes()
    requires b.buttonType.Some? && b.buttonType.value in KnownButtonTypes()
    requires ButtonClass(a) == ButtonClass(b)
    ensures a.buttonType == b.buttonType
  {
    var n := |"btn btn-"|;
    assert a.buttonType.value == ButtonClass(a)[n..];
    assert b.buttonType.value == ButtonClass(b)[n..];
  }

  /** `hasCustomButtons`: a non-empty list of custom buttons is configured. */
  function HasCustomButtons(config: DialogConfig): (r: bool)
    ensures r <==> exists bs :: Get(config, CustomButtons) == Buttons(bs) && |bs| > 0
  {
    match Get(config, CustomButtons)
    case Buttons(bs) => |bs| > 0
    case _ => false
  }

  /** How an awaited button action ended: it returned, or it threw (and the error was caught). */
  datatype ActionOutcome = Returned | Threw

  /** A custom button whose action is being awaited. */
  datatype AwaitedAction = AwaitedAction(button: DialogButton, index: int)

  /** The result a custom button closes the dialog with: its own, or true when it has none. */
  function ButtonResult(button: DialogButton): (r: Value)
    ensures button.result != Undefined ==> r == button.result
    ensures r != Undefined
  {
    if button.result != Undefined then button.result else Flag(true)
  }

  /** The dialog component: the configuration it shows and the results it passes to `closeDialog`. */
  class DialogComponent {
    var config: DialogConfig
    var isOpen: bool
    var buttonLoadingStates: map<int, bool>
    /** The results passed to `closeDialog`, oldest first. */
    var closeRequests: seq<Value>
    /** Button actions started and not yet settled. */
    var awaited: seq<AwaitedAction>

    constructor ()
      ensures config == DefaultConfig() && !isOpen && buttonLoadingStates == map[]
      ensures closeRequests == [] && awaited == []
    {
      config := DefaultConfig();
      isOpen := false;
      buttonLoadingStates := map[];
      closeRequests := [];
      awaited := [];
    }

    /** `onBackdropClick`: closes with null only when `closeOnBackdropClick` is set. */
    method OnBackdropClick()
      modifies this`closeRequests
      ensures closeRequests == old(closeRequests) +
        (if Truthy(Get(config, CloseOnBackdropClick)) then [Null] else [])
    {
      if Truthy(Get(config, CloseOnBackdropClick)) {
        closeRequests := closeRequests + [Null];
      }
    }

    /** `onEscapePress`: closes with null only when `closeOnEscape` is set. */
    method OnEscapePress()
      modifies this`closeRequests
      ensures closeRequests == old(closeRequests) +
        (if Truthy(Get(config, CloseOnEscape)) then [Null] else [])
    {
      if Truthy(Get(config, CloseOnEscape)) {
        closeRequests := closeRequests + [Null];
      }
    }

    /** `onCancel`: closes with false. */
    method OnCancel()
      modifies this`closeRequests
      ensures closeRequests == old(closeRequests) + [Flag(false)]
    {
      closeRequests := closeRequests + [Flag(false)];
    }

    /** `onConfirm`: closes with true. */
    method OnConfirm()
      modifies this`closeRequests
      ensures closeRequests == old(closeRequests) + [Flag(true)]
    {
      closeRequests := closeRequests + [Flag(true)];
    }

    /** A button's loading flag, false when never set. */
    function Loading(index: int): bool
      reads this`buttonLoadingStates
    {
      index in buttonLoadingStates && buttonLoadingStates[index]
    }

    /**
     * `onCustomButtonClick` up to its `await`: a disabled or loading button does nothing; a
     * button with an action starts loading and waits for it; a button without one closes at
     * once, with its result or true, unless `closeOnClick` is false.
     */
    method OnCustomButtonClick(button: DialogButton, index: int)
      modifies this`buttonLoadingStates, this`awaited, this`closeRequests
      ensures button.disabled == Some(true) || old(Loading(index)) ==>
        buttonLoadingStates == old(buttonLoadingStates) && awaited == old(awaited) &&
        closeRequests == old(closeRequests)
      ensures !(button.disabled == Some(true) || old(Loading(index))) && button.hasAction ==>
        buttonLoadingStates == old(buttonLoadingStates)[index := true] &&
        awaited == old(awaited) + [AwaitedAction(button, index)] && closeRequests == old(closeRequests)
      ensures !(button.disabled == Some(true) || old(Loading(index))) && !button.hasAction ==>
        buttonLoadingStates == old(buttonLoadingStates) && awaited == old(awaited) &&
        closeRequests == old(closeRequests) + (if button.closeOnClick != Some(false) then [ButtonResult(button)] else [])
    {
      if button.disabled == Some(true) || Loading(index) {
        return;
      }
      if button.hasAction {
        buttonLoadingStates := buttonLoadingStates[index := true];
        awaited := awaited + [AwaitedAction(button, index)];
      } else if button.closeOnClick != Some(false) {
        closeRequests := closeRequests + [ButtonResult(button)];
      }
    }

    /**
     * `onCustomButtonClick` after its `await`: whether the action returned or threw, the
     * button stops loading, and the dialog closes with the button's result or true unless
     * `closeOnClick` is false.
     */
    method ActionSettles(k: nat, outcome: ActionOutcome)
      requires k < |awaited|
      modifies this`buttonLoadingStates, this`awaited, this`closeRequests
      ensures var a := old(awaited)[k];
        buttonLoadingStates == old(buttonLoadingStates)[a.index := false] &&
        awaited == old(awaited)[..k] + old(awaited)[k + 1..] &&
        closeRequests == old(closeRequests) + (if a.button.closeOnClick != Some(false) then [ButtonResult(a.button)] else [])
      ensures !Loading(old(awaited)[k].index)
    {
      var a := awaited[k];
      buttonLoadingStates := buttonLoadingStates[a.index := false];
      awaited := awaited[..k] + awaited[k + 1..];
      if a.button.closeOnClick != Some(false) {
        closeRequests := closeRequests + [ButtonResult(a.button)];
      }
    }
  }
}
