/**
 * The toast service (`FinzlyToastrService`): an ordered list of toasts, each entering or
 * leaving the screen, a screen position, a default duration and a cap on the list.
 *
 * A toast's `onClose` callback is modelled by a flag, and the calls it receives by the list
 * `closedIds` of the toasts whose callback ran, in order. The timers that dismiss a toast
 * after its duration are the list `timers`; a timer going off is the event `Expire`.
 */
module Toastr {
  import opened Options

  datatype ToastType = Success | Error | Warning | Info | Primary | Secondary
  datatype ToastPosition = TopRight | TopLeft | TopCenter | BottomRight | BottomLeft | BottomCenter
  datatype ToastSize = Small | Medium | Large
  datatype ToastWidth = AutoWidth | SmallWidth | MediumWidth | LargeWidth | ExtraLargeWidth
  datatype ToastState = Enter | Leave

  /**
   * `ToastConfig`: the message (None where it reaches `show` as `undefined`), and each optional
   * setting as None where the caller gave none.
   */
  datatype ToastConfig = ToastConfig(
    title: Option<string>, message: Option<string>, toastType: Option<ToastType>, duration: Option<int>,
    dismissible: Option<bool>, showIcon: Option<bool>, showProgress: Option<bool>,
    solid: Option<bool>, size: Option<ToastSize>, width: Option<ToastWidth>, hasOnClose: bool)

  /**
   * `Partial<ToastConfig>`: the settings a typed helper spreads over its own. For the title, the
   * message and the type, which the helper sets itself, None is a key the caller left out and
   * Some(None) a key the caller wrote with the value `undefined`, which the spread copies too.
   */
  datatype ToastOverrides = ToastOverrides(
    title: Option<Option<string>>, message: Option<Option<string>>, toastType: Option<Option<ToastType>>,
    duration: Option<int>, dismissible: Option<bool>, showIcon: Option<bool>,
    showProgress: Option<bool>, solid: Option<bool>, size: Option<ToastSize>,
    width: Option<ToastWidth>, hasOnClose: bool)

  /** A toast on the list; `id` is the service's own identifier. */
  datatype Toast = Toast(
    id: nat, title: Option<string>, message: Option<string>, toastType: ToastType, duration: int,
    dismissible: bool, showIcon: bool, showProgress: bool, solid: bool, size: ToastSize,
    width: Option<ToastWidth>, state: ToastState, hasOnClose: bool)

  /** An auto-dismissal scheduled by `show`: the toast and the delay in milliseconds. */
  datatype Timer = Timer(id: nat, delay: int)

  /** The toast built by `show`: every setting the caller left out takes its default. */
  function NewToast(config: ToastConfig, id: nat, defaultDuration: int): (t: Toast)
    ensures t.id == id && t.state == Enter && t.hasOnClose == config.hasOnClose
    ensures t.title == config.title && t.message == config.message && t.width == config.width
  {
    Toast(id, config.title, config.message, config.toastType.GetOr(Info),
          config.duration.GetOr(defaultDuration), config.dismissible.GetOr(true),
          config.showIcon.GetOr(true), config.showProgress.GetOr(true), config.solid.GetOr(false),
          config.size.GetOr(Medium), config.width, Enter, config.hasOnClose)
  }

  /**
   * A toast shown with nothing but a message is an entering info toast that lasts the default
   * duration, can be dismissed, shows its icon and progress bar, is not solid and is medium.
   */
  lemma MessageOnlyDefaults(message: string, id: nat, defaultDuration: int)
    ensures NewToast(ToastConfig(None, Some(message), None, None, None, None, None, None, None, None, false),
                     id, defaultDuration)
      == Toast(id, None, Some(message), Info, defaultDuration, true, true, true, false, Medium, None, Enter, false)
  {
  }

  /** The configuration `success`, `error`, … pass to `show`: their own settings, then the overrides. */
  function TypedConfig(t: ToastType, message: string, title: Option<string>, o: ToastOverrides): (c: ToastConfig)
    ensures o.toastType.None? ==> c.toastType == Some(t)
    ensures o.toastType.Some? ==> c.toastType == o.toastType.value
    ensures o.message.None? ==> c.message == Some(message)
    ensures o.message.Some? ==> c.message == o.message.value
    ensures o.title.None? ==> c.title == title
    ensures o.title.Some? ==> c.title == o.title.value
    ensures c.duration == o.duration && c.size == o.size && c.width == o.width
    ensures c.hasOnClose == o.hasOnClose
  {
    ToastConfig(o.title.GetOr(title), o.message.GetOr(Some(message)),
                o.toastType.GetOr(Some(t)), o.duration, o.dismissible, o.showIcon, o.showProgress,
                o.solid, o.size, o.width, o.hasOnClose)
  }

  /** Without a type among the overrides, the typed helper's toast has the helper's type. */
  lemma TypedHelperType(t: ToastType, message: string, title: Option<string>, o: ToastOverrides,
                        id: nat, defaultDuration: int)
    requires o.toastType.None?
    ensures NewToast(TypedConfig(t, message, title, o), id, defaultDuration).toastType == t
  {
  }

  /**
   * A type, title or message the caller writes as `undefined` replaces the helper's own: the
   * type then falls back to info, and the toast has no title or no message.
   */
  lemma TypedHelperUndefined(t: ToastType, message: string, title: Option<string>, o: ToastOverrides,
                             id: nat, defaultDuration: int)
    ensures o.toastType == Some(None) ==>
      NewToast(TypedConfig(t, message, title, o), id, defaultDuration).toastType == Info
    ensures o.title == Some(None) ==> NewToast(TypedConfig(t, message, title, o), id, defaultDuration).title.None?
    ensures o.message == Some(None) ==>
      NewToast(TypedConfig(t, message, title, o), id, defaultDuration).message.None?
  {
  }

  /** The published list and the callbacks that ran: what the service's methods act on. */
  datatype Board = Board(toasts: seq<Toast>, closedIds: seq<nat>)

  /** No two toasts share an identifier. */
  ghost predicate UniqueIds(ts: seq<Toast>) {
    forall i, j :: 0 <= i < j < |ts| ==> ts[i].id != ts[j].id
  }

  /** Both lists carry the same identifiers in the same order. */
  ghost predicate SameIds(ts: seq<Toast>, us: seq<Toast>) {
    |ts| == |us| && forall j :: 0 <= j < |ts| ==> ts[j].id == us[j].id
  }

  /** `Array.find` from position `k`: the first toast from there with identifier `id`. */
  function FindFrom(ts: seq<Toast>, id: nat, k: nat): (r: Option<nat>)
    requires k <= |ts|
    ensures r.Some? ==> k <= r.value < |ts| && ts[r.value].id == id
    ensures r.Some? ==> forall j :: k <= j < r.value ==> ts[j].id != id
    ensures r.None? ==> forall j :: k <= j < |ts| ==> ts[j].id != id
    decreases |ts| - k
  {
    if k == |ts| then None
    else if ts[k].id == id then Some(k)
    else FindFrom(ts, id, k + 1)
  }

  function FindId(ts: seq<Toast>, id: nat): Option<nat> {
    FindFrom(ts, id, 0)
  }

  /** The `map` in `dismiss`: every toast with identifier `id` turned to leaving. */
  function SetLeave(ts: seq<Toast>, id: nat): seq<Toast> {
    seq(|ts|, j requires 0 <= j < |ts| => if ts[j].id == id then ts[j].(state := Leave) else ts[j])
  }

  /**
   * `dismiss`: when the first toast with identifier `id` is entering, every toast with that
   * identifier leaves and the first one's callback runs; otherwise nothing happens.
   */
  function DismissBoard(b: Board, id: nat): Board {
    match FindId(b.toasts, id)
    case None => b
    case Some(i) =>
      if b.toasts[i].state.Enter? then
        Board(SetLeave(b.toasts, id), b.closedIds + (if b.toasts[i].hasOnClose then [id] else []))
      else b
  }

  /**
   * `dismiss` keeps the list's length and order: it changes only the state of toasts with
   * the given identifier, and runs at most that identifier's callback.
   */
  lemma DismissKeepsOrder(b: Board, id: nat)
    ensures SameIds(DismissBoard(b, id).toasts, b.toasts)
    ensures forall j :: 0 <= j < |b.toasts| && b.toasts[j].id != id ==>
      DismissBoard(b, id).toasts[j] == b.toasts[j]
    ensures forall j :: 0 <= j < |b.toasts| && b.toasts[j].id == id ==>
      DismissBoard(b, id).toasts[j] in {b.toasts[j], b.toasts[j].(state := Leave)}
    ensures DismissBoard(b, id).closedIds in {b.closedIds, b.closedIds + [id]}
  {
    assert b.closedIds + [] == b.closedIds;
  }

  /** Dismissing an unknown identifier, or a toast already leaving, changes nothing. */
  lemma DismissNoOp(b: Board, id: nat)
    requires forall j :: 0 <= j < |b.toasts| && b.toasts[j].id == id ==> b.toasts[j].state.Leave?
    ensures DismissBoard(b, id) == b
  {
  }

  /**
   * Dismissing the entering toast at `i` (identifiers unique) turns exactly that toast to
   * leaving, and its callback runs exactly when it has one.
   */
  lemma DismissEntering(b: Board, i: nat)
    requires UniqueIds(b.toasts) && i < |b.toasts| && b.toasts[i].state.Enter?
    ensures DismissBoard(b, b.toasts[i].id).toasts == b.toasts[i := b.toasts[i].(state := Leave)]
    ensures DismissBoard(b, b.toasts[i].id).closedIds ==
      b.closedIds + (if b.toasts[i].hasOnClose then [b.toasts[i].id] else [])
  {
    var id := b.toasts[i].id;
    assert FindId(b.toasts, id) == Some(i);
    assert SetLeave(b.toasts, id) == b.toasts[i := b.toasts[i].(state := Leave)];
  }

  /** Dismissing twice is dismissing once: the second call neither changes a toast nor runs a callback. */
  lemma DismissIdempotent(b: Board, id: nat)
    ensures DismissBoard(DismissBoard(b, id), id) == DismissBoard(b, id)
  {
    var d := DismissBoard(b, id);
    match FindId(b.toasts, id)
    case None =>
    case Some(i) =>
      if b.toasts[i].state.Enter? {
        assert FindId(d.toasts, id) == Some(i) by {
          assert forall j :: 0 <= j < |d.toasts| ==> d.toasts[j].id == b.toasts[j].id;
        }
      }
  }

  /** `remove`: the list without the toasts with identifier `id`. */
  function RemoveId(ts: seq<Toast>, id: nat): seq<Toast> {
    if ts == [] then []
    else (if ts[0].id == id then [] else [ts[0]]) + RemoveId(ts[1..], id)
  }

  /** `remove` deletes exactly the toasts with the identifier and keeps every other. */
  lemma {:induction false} RemoveExactly(ts: seq<Toast>, id: nat)
    ensures forall t :: t in RemoveId(ts, id) <==> t in ts && t.id != id
  {
    if ts != [] {
      RemoveExactly(ts[1..], id);
      assert ts == [ts[0]] + ts[1..];
    }
  }

  /** `remove` keeps the order: removing from a concatenation removes from each part. */
  lemma {:induction false} RemoveAppend(ts: seq<Toast>, us: seq<Toast>, id: nat)
    ensures RemoveId(ts + us, id) == RemoveId(ts, id) + RemoveId(us, id)
  {
    if ts == [] {
      assert ts + us == us;
    } else {
      assert (ts + us)[0] == ts[0] && (ts + us)[1..] == ts[1..] + us;
      RemoveAppend(ts[1..], us, id);
    }
  }

  /** Removing keeps the identifiers unique. */
  lemma {:induction false} RemoveUnique(ts: seq<Toast>, id: nat)
    requires UniqueIds(ts)
    ensures UniqueIds(RemoveId(ts, id))
  {
    if ts != [] {
      RemoveUnique(ts[1..], id);
      RemoveExactly(ts[1..], id);
      var rest := RemoveId(ts[1..], id);
      if ts[0].id != id {
        forall j | 0 <= j < |rest|
          ensures rest[j].id != ts[0].id
        {
          assert rest[j] in ts[1..];
        }
      }
    }
  }

  /** The number of entering toasts: those on screen. */
  function CountEnter(ts: seq<Toast>): nat {
    if ts == [] then 0 else (if ts[0].state.Enter? then 1 else 0) + CountEnter(ts[1..])
  }

  /** Turning one entering toast to leaving lowers the count by one. */
  lemma {:induction false} CountAfterLeave(ts: seq<Toast>, i: nat)
    requires i < |ts| && ts[i].state.Enter?
    ensures CountEnter(ts[i := ts[i].(state := Leave)]) == CountEnter(ts) - 1
  {
    var us := ts[i := ts[i].(state := Leave)];
    if i == 0 {
      assert us[1..] == ts[1..];
    } else {
      assert us[1..] == ts[1..][i - 1 := ts[i].(state := Leave)];
      CountAfterLeave(ts[1..], i - 1);
    }
  }

  lemma {:induction false} CountAppend(ts: seq<Toast>, t: Toast)
    ensures CountEnter(ts + [t]) == CountEnter(ts) + (if t.state.Enter? then 1 else 0)
  {
    if ts != [] {
      assert (ts + [t])[1..] == ts[1..] + [t];
      CountAppend(ts[1..], t);
    }
  }

  /** The first entering toast from position `k`: the oldest one on screen. */
  function EnterFrom(ts: seq<Toast>, k: nat): (r: Option<nat>)
    requires k <= |ts|
    ensures r.Some? ==> k <= r.value < |ts| && ts[r.value].state.Enter?
    ensures r.Some? ==> forall j :: k <= j < r.value ==> ts[j].state.Leave?
    ensures r.None? ==> forall j :: k <= j < |ts| ==> ts[j].state.Leave?
    decreases |ts| - k
  {
    if k == |ts| then None
    else if ts[k].state.Enter? then Some(k)
    else EnterFrom(ts, k + 1)
  }

  function OldestEntering(ts: seq<Toast>): Option<nat> {
    EnterFrom(ts, 0)
  }

  /** A list with an entering toast has an oldest entering toast. */
  lemma {:induction false} CountedHasOldest(ts: seq<Toast>)
    requires CountEnter(ts) > 0
    ensures OldestEntering(ts).Some?
  {
    if OldestEntering(ts).None? {
      AllLeavingCountZero(ts);
    }
  }

  lemma {:induction false} AllLeavingCountZero(ts: seq<Toast>)
    requires forall j :: 0 <= j < |ts| ==> ts[j].state.Leave?
    ensures CountEnter(ts) == 0
  {
    if ts != [] {
      AllLeavingCountZero(ts[1..]);
    }
  }

  /**
   * `show` as written: with the list at the cap it dismisses the oldest toast, then publishes
   * the list as it was before that dismissal plus the new toast. None: the cap is zero or
   * less and the list is empty, so reading the oldest toast's identifier throws.
   */
  function ShowAsWritten(b: Board, toast: Toast, maxToasts: int): (r: Option<Board>)
    ensures r.None? <==> |b.toasts| == 0 && maxToasts <= 0
    ensures r.Some? ==> r.value.toasts == b.toasts + [toast]
  {
    if |b.toasts| >= maxToasts then
      if |b.toasts| == 0 then None
      else Some(Board(b.toasts + [toast], DismissBoard(b, b.toasts[0].id).closedIds))
    else Some(Board(b.toasts + [toast], b.closedIds))
  }

  /**
   * As written, the cap does not hold and a callback can run twice: with a cap of one,
   * showing a second toast runs the first toast's callback yet leaves it entering, the list
   * grows to two, and the first toast's timer then runs its callback again.
   */
  lemma ShowAsWrittenRunsCallbackTwice()
    ensures var first := Toast(0, None, Some("a"), Info, 5000, true, true, true, false, Medium, None, Enter, true);
            var second := first.(id := 1, hasOnClose := false);
            var shown := ShowAsWritten(Board([first], []), second, 1);
            shown == Some(Board([first, second], [0])) &&
            |shown.value.toasts| > 1 &&
            DismissBoard(shown.value, 0).closedIds == [0, 0]
  {
    var first := Toast(0, None, Some("a"), Info, 5000, true, true, true, false, Medium, None, Enter, true);
    var second := first.(id := 1, hasOnClose := false);
    assert FindId([first], 0) == Some(0);
    assert DismissBoard(Board([first], []), 0).closedIds == [0];
    assert [first] + [second] == [first, second];
    assert FindId([first, second], 0) == Some(0);
    assert DismissBoard(Board([first, second], [0]), 0).closedIds == [0, 0];
  }

  /**
   * `show` as intended: when as many entering toasts are on screen as the cap allows, the
   * oldest entering one is dismissed, and the new toast joins the list as the dismissal left it.
   */
  function ShowCorrected(b: Board, toast: Toast, maxToasts: int): Board {
    var d :=
      if CountEnter(b.toasts) >= maxToasts then
        match OldestEntering(b.toasts)
        case Some(i) => DismissBoard(b, b.toasts[i].id)
        case None => b
      else b;
    Board(d.toasts + [toast], d.closedIds)
  }

  /** With a cap of at least one, `show` never puts more toasts on screen than the cap. */
  lemma ShowCorrectedKeepsCap(b: Board, toast: Toast, maxToasts: int)
    requires maxToasts >= 1 && UniqueIds(b.toasts) && CountEnter(b.toasts) <= maxToasts
    ensures CountEnter(ShowCorrected(b, toast, maxToasts).toasts) <= maxToasts
  {
    var r := ShowCorrected(b, toast, maxToasts);
    var d := Board(r.toasts[..|r.toasts| - 1], r.closedIds);
    assert r.toasts == d.toasts + [toast];
    CountAppend(d.toasts, toast);
    if CountEnter(b.toasts) >= maxToasts {
      CountedHasOldest(b.toasts);
      var i := OldestEntering(b.toasts).value;
      DismissEntering(b, i);
      CountAfterLeave(b.toasts, i);
    }
  }

  /**
   * The service's bookkeeping is consistent: identifiers are unique, no callback ran twice,
   * and a toast whose callback ran is leaving.
   */
  ghost predicate Consistent(b: Board) {
    UniqueIds(b.toasts) &&
    (forall i, j :: 0 <= i < j < |b.closedIds| ==> b.closedIds[i] != b.closedIds[j]) &&
    forall j :: 0 <= j < |b.toasts| && b.toasts[j].id in b.closedIds ==> b.toasts[j].state.Leave?
  }

  /** `dismiss` keeps the bookkeeping consistent, so no callback ever runs twice. */
  lemma DismissConsistent(b: Board, id: nat)
    requires Consistent(b)
    ensures Consistent(DismissBoard(b, id))
  {
    DismissKeepsOrder(b, id);
    match FindId(b.toasts, id)
    case None =>
    case Some(i) =>
      if b.toasts[i].state.Enter? {
        DismissEntering(b, i);
      }
  }

  /** `remove` keeps the bookkeeping consistent. */
  lemma RemoveConsistent(b: Board, id: nat)
    requires Consistent(b)
    ensures Consistent(Board(RemoveId(b.toasts, id), b.closedIds))
  {
    RemoveUnique(b.toasts, id);
    RemoveExactly(b.toasts, id);
    var rs := RemoveId(b.toasts, id);
    forall j | 0 <= j < |rs| && rs[j].id in b.closedIds
      ensures rs[j].state.Leave?
    {
      assert rs[j] in b.toasts;
    }
  }

  /** The corrected `show` of a fresh entering toast keeps the bookkeeping consistent. */
  lemma ShowCorrectedConsistent(b: Board, toast: Toast, maxToasts: int)
    requires Consistent(b) && toast.id !in b.closedIds
    requires forall j :: 0 <= j < |b.toasts| ==> b.toasts[j].id != toast.id
    ensures Consistent(ShowCorrected(b, toast, maxToasts))
  {
    var r := ShowCorrected(b, toast, maxToasts);
    var d := Board(r.toasts[..|r.toasts| - 1], r.closedIds);
    assert r.toasts == d.toasts + [toast];
    if CountEnter(b.toasts) >= maxToasts && OldestEntering(b.toasts).Some? {
      var i := OldestEntering(b.toasts).value;
      DismissConsistent(b, b.toasts[i].id);
      DismissKeepsOrder(b, b.toasts[i].id);
      DismissEntering(b, i);
    }
    assert SameIds(d.toasts, b.toasts);
  }

  /** The first `n` toasts turned to leaving: `clear` after `n` dismissals. */
  function LeaveUpTo(ts: seq<Toast>, n: nat): seq<Toast> {
    seq(|ts|, j requires 0 <= j < |ts| => if j < n then ts[j].(state := Leave) else ts[j])
  }

  /** The identifiers whose callback runs when the first `n` toasts are dismissed in turn. */
  function ClosedUpTo(ts: seq<Toast>, n: nat): seq<nat>
    requires n <= |ts|
  {
    if n == 0 then []
    else ClosedUpTo(ts, n - 1) + (if ts[n - 1].state.Enter? && ts[n - 1].hasOnClose then [ts[n - 1].id] else [])
  }

  /** `clear`: every toast of the list as it was is dismissed in turn. */
  function ClearBoard(b: Board): Board {
    Board(LeaveUpTo(b.toasts, |b.toasts|), b.closedIds + ClosedUpTo(b.toasts, |b.toasts|))
  }

  /** One turn of `clear`'s loop: dismissing the next toast of the snapshot. */
  lemma ClearStep(ts: seq<Toast>, i: nat, closed: seq<nat>)
    requires UniqueIds(ts) && i < |ts|
    ensures DismissBoard(Board(LeaveUpTo(ts, i), closed), ts[i].id) ==
      Board(LeaveUpTo(ts, i + 1), closed + (if ts[i].state.Enter? && ts[i].hasOnClose then [ts[i].id] else []))
  {
    var us := LeaveUpTo(ts, i);
    assert FindId(us, ts[i].id) == Some(i) by {
      assert forall j :: 0 <= j < |us| ==> us[j].id == ts[j].id;
    }
    if ts[i].state.Enter? {
      assert SetLeave(us, ts[i].id) == LeaveUpTo(ts, i + 1);
    } else {
      assert us == LeaveUpTo(ts, i + 1);
    }
  }

  /** `clear` removes no toast and keeps the order; afterwards every toast is leaving. */
  lemma ClearLeavesAll(b: Board)
    ensures SameIds(ClearBoard(b).toasts, b.toasts)
    ensures forall j :: 0 <= j < |b.toasts| ==> ClearBoard(b).toasts[j] == b.toasts[j].(state := Leave)
    ensures CountEnter(ClearBoard(b).toasts) == 0
  {
    AllLeavingCountZero(ClearBoard(b).toasts);
  }

  /** A second `clear` changes nothing and runs no callback. */
  lemma ClearIdempotent(b: Board)
    ensures ClearBoard(ClearBoard(b)) == ClearBoard(b)
  {
    var c := ClearBoard(b);
    NoEnteringNoneClosed(c.toasts, |c.toasts|);
    assert LeaveUpTo(c.toasts, |c.toasts|) == c.toasts;
  }

  lemma {:induction false} NoEnteringNoneClosed(ts: seq<Toast>, n: nat)
    requires n <= |ts| && forall j :: 0 <= j < |ts| ==> ts[j].state.Leave?
    ensures ClosedUpTo(ts, n) == []
  {
    if n > 0 {
      NoEnteringNoneClosed(ts, n - 1);
    }
  }

  /** The toast service. */
  class ToastrService {
    /** The published list, oldest first. */
    var toasts: seq<Toast>
    /** The toasts whose `onClose` ran, in the order the calls happened. */
    var closedIds: seq<nat>
    var position: ToastPosition
    var defaultDuration: int
    var maxToasts: int
    /** The next identifier `show` hands out. */
    var nextId: nat
    /** The auto-dismissals `show` scheduled, in order. */
    var timers: seq<Timer>

    function Contents(): Board
      reads this`toasts, this`closedIds
    {
      Board(toasts, closedIds)
    }

    /** The bookkeeping is consistent and every identifier in use was handed out. */
    ghost predicate Valid()
      reads this`toasts, this`closedIds, this`nextId
    {
      Consistent(Contents()) &&
      (forall j :: 0 <= j < |toasts| ==> toasts[j].id < nextId) &&
      forall k :: 0 <= k < |closedIds| ==> closedIds[k] < nextId
    }

    constructor ()
      ensures Valid() && toasts == [] && closedIds == [] && timers == []
      ensures position == TopRight && defaultDuration == 5000 && maxToasts == 5
    {
      toasts := [];
      closedIds := [];
      position := TopRight;
      defaultDuration := 5000;
      maxToasts := 5;
      nextId := 0;
      timers := [];
    }

    /** `configure`: each setting supplied replaces the current one; the others stay. */
    method Configure(newPosition: Option<ToastPosition>, newDefaultDuration: Option<int>, newMaxToasts: Option<int>)
      modifies this`position, this`defaultDuration, this`maxToasts
      ensures position == newPosition.GetOr(old(position))
      ensures defaultDuration == newDefaultDuration.GetOr(old(defaultDuration))
      ensures maxToasts == newMaxToasts.GetOr(old(maxToasts))
    {
      if newPosition.Some? {
        position := newPosition.value;
      }
      if newDefaultDuration.Some? {
        defaultDuration := newDefaultDuration.value;
      }
      if newMaxToasts.Some? {
        maxToasts := newMaxToasts.value;
      }
    }

    /** `dismiss`. */
    method Dismiss(id: nat)
      requires Valid()
      modifies this`toasts, this`closedIds
      ensures Valid()
      ensures Contents() == DismissBoard(old(Contents()), id)
    {
      DismissConsistent(Contents(), id);
      DismissKeepsOrder(Contents(), id);
      var found := FindId(toasts, id);
      if found.Some? && toasts[found.value].state.Enter? {
        var toast := toasts[found.value];
        toasts := SetLeave(toasts, id);
        if toast.hasOnClose {
          closedIds := closedIds + [id];
        }
      }
    }

    /** A scheduled auto-dismissal going off: `dismiss` of its toast. */
    method Expire(id: nat)
      requires Valid()
      modifies this`toasts, this`closedIds
      ensures Valid()
      ensures Contents() == DismissBoard(old(Contents()), id)
    {
      Dismiss(id);
    }

    /**
     * `show`, with the cap corrected: a fresh entering toast with the defaults filled in joins
     * the end of the list; at the cap the oldest toast on screen is dismissed first; a
     * positive duration schedules the toast's auto-dismissal.
     */
    method Show(config: ToastConfig) returns (id: nat)
      requires Valid()
      modifies this`toasts, this`closedIds, this`nextId, this`timers
      ensures Valid()
      ensures id == old(nextId) && nextId == id + 1
      ensures Contents() == ShowCorrected(old(Contents()), NewToast(config, id, defaultDuration), maxToasts)
      ensures timers == old(timers) +
        (if NewToast(config, id, defaultDuration).duration > 0
         then [Timer(id, NewToast(config, id, defaultDuration).duration)] else [])
    {
      var toast := NewToast(config, nextId, defaultDuration);
      id := nextId;
      ShowCorrectedConsistent(Contents(), toast, maxToasts);
      nextId := nextId + 1;
      if CountEnter(toasts) >= maxToasts {
        var oldest := OldestEntering(toasts);
        if oldest.Some? {
          Dismiss(toasts[oldest.value].id);
        }
      }
      toasts := toasts + [toast];
      if toast.duration > 0 {
        timers := timers + [Timer(toast.id, toast.duration)];
      }
    }

    /** `success`, `error`, `warning`, `info`, `primary` and `secondary`: `show` of the typed configuration. */
    method ShowTyped(t: ToastType, message: string, title: Option<string>, overrides: ToastOverrides)
      returns (id: nat)
      requires Valid()
      modifies this`toasts, this`closedIds, this`nextId, this`timers
      ensures Valid()
      ensures id == old(nextId) && nextId == id + 1
      ensures Contents() == ShowCorrected(old(Contents()),
        NewToast(TypedConfig(t, message, title, overrides), id, defaultDuration), maxToasts)
      ensures timers == old(timers) +
        (if NewToast(TypedConfig(t, message, title, overrides), id, defaultDuration).duration > 0
         then [Timer(id, NewToast(TypedConfig(t, message, title, overrides), id, defaultDuration).duration)]
         else [])
    {
      id := Show(TypedConfig(t, message, title, overrides));
    }

    /** `remove`: the toasts with the identifier leave the list. */
    method Remove(id: nat)
      requires Valid()
      modifies this`toasts
      ensures Valid()
      ensures toasts == RemoveId(old(toasts), id)
    {
      RemoveConsistent(Contents(), id);
      RemoveExactly(toasts, id);
      toasts := RemoveId(toasts, id);
    }

    /** `clear`: each toast of the list as it stood is dismissed in turn. */
    method Clear()
      requires Valid()
      modifies this`toasts, this`closedIds
      ensures Valid()
      ensures Contents() == ClearBoard(old(Contents()))
    {
      var snapshot := toasts;
      var i := 0;
      while i < |snapshot|
        invariant 0 <= i <= |snapshot| && Valid()
        invariant toasts == LeaveUpTo(snapshot, i)
        invariant closedIds == old(closedIds) + ClosedUpTo(snapshot, i)
      {
        ClearStep(snapshot, i, closedIds);
        Dismiss(snapshot[i].id);
        i := i + 1;
      }
    }
  }
}
