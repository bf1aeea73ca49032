/** The toolbar: the "last saved" label, the zoom buttons, the auto-save
    debounce and its status indicator, and the keyboard shortcuts. */
module Toolbar {
  import opened Wrappers
  import opened Types
  import opened JsStrings
  import opened CanvasStore

  const ZOOM_STEP: real := 0.25
  const AUTO_SAVE_DELAY: int := 30000
  const STATUS_RESET_DELAY: int := 3000
  const MS_PER_MINUTE: int := 60000

  // ---------------------------------------------------------------------
  // "Last saved" label

  /** getTimeSinceLastSave: `Math.floor(diffMs / 60000)` minutes, bucketed.
      With a positive divisor Dafny's `/` is the floor, as in the source. */
  function TimeSinceLastSave(lastSaved: Option<int>, now: int): (r: Option<string>)
    ensures r.None? <==> lastSaved.None?
    ensures r == Some("Just now") <==> lastSaved.Some? && now - lastSaved.value < 60000
    ensures r == Some("1 min ago") <==> lastSaved.Some? && 60000 <= now - lastSaved.value < 120000
    ensures lastSaved.Some? && now - lastSaved.value >= 120000 ==>
      r == Some(NatToString((now - lastSaved.value) / 60000) + " mins ago")
  {
    if lastSaved.None? then None
    else
      var mins := (now - lastSaved.value) / MS_PER_MINUTE;
      if mins < 1 then Some("Just now")
      else if mins == 1 then Some("1 min ago")
      else
        var text := NatToString(mins) + " mins ago";
        assert |text| >= 10;
        Some(text)
  }

  /** From two minutes on, the label names the whole number of minutes
      elapsed: reading its leading number back gives `floor(diff / 60000)`. */
  lemma LabelNamesMinutes(lastSaved: int, now: int)
    requires now - lastSaved >= 120000
    ensures var r := TimeSinceLastSave(Some(lastSaved), now).value;
            var digits := r[..|r| - |" mins ago"|];
            AllDigits(digits) && ParseNat(digits) == (now - lastSaved) / 60000 >= 2
  {
    var n := (now - lastSaved) / 60000;
    var r := TimeSinceLastSave(Some(lastSaved), now).value;
    assert r[..|r| - |" mins ago"|] == NatToString(n);
    ParseNatToString(n);
  }

  // ---------------------------------------------------------------------
  // Zoom buttons

  /** handleZoomIn's target: `Math.min(5, zoom + 0.25)`. */
  function ZoomInTarget(z: real): (r: real)
    ensures MIN_ZOOM <= z <= MAX_ZOOM ==> z <= r <= MAX_ZOOM
    ensures r == MAX_ZOOM <==> z + ZOOM_STEP >= MAX_ZOOM
    ensures r != MAX_ZOOM ==> r == z + ZOOM_STEP
  {
    if MAX_ZOOM < z + ZOOM_STEP then MAX_ZOOM else z + ZOOM_STEP
  }

  /** handleZoomOut's target: `Math.max(0.1, zoom - 0.25)`. */
  function ZoomOutTarget(z: real): (r: real)
    ensures MIN_ZOOM <= z <= MAX_ZOOM ==> MIN_ZOOM <= r <= z
    ensures r == MIN_ZOOM <==> z - ZOOM_STEP <= MIN_ZOOM
    ensures r != MIN_ZOOM ==> r == z - ZOOM_STEP
  {
    if MIN_ZOOM > z - ZOOM_STEP then MIN_ZOOM else z - ZOOM_STEP
  }

  /** The zoom-in button: the store's setZoom clamps the target again,
      which leaves it unchanged. */
  method ZoomIn(store: Store)
    requires store.Valid()
    modifies store`zoom
    ensures store.Valid() && store.zoom == ZoomInTarget(old(store.zoom))
  {
    store.SetZoom(ZoomInTarget(store.zoom));
  }

  method ZoomOut(store: Store)
    requires store.Valid()
    modifies store`zoom
    ensures store.Valid() && store.zoom == ZoomOutTarget(old(store.zoom))
  {
    store.SetZoom(ZoomOutTarget(store.zoom));
  }

  /** The reset button: zoom 1 and the origin in the top-left corner. */
  method ResetView(store: Store)
    requires store.Valid()
    modifies store`zoom, store`viewportOffset
    ensures store.Valid() && store.zoom == 1.0 && store.viewportOffset == Point(0.0, 0.0)
  {
    store.SetZoom(1.0);
    store.SetViewportOffset(Point(0.0, 0.0));
  }

  /** Zooming out undoes a zoom in that did not hit the upper limit. */
  lemma ZoomOutUndoesZoomIn(z: real)
    requires MIN_ZOOM <= z && z + ZOOM_STEP <= MAX_ZOOM
    ensures ZoomOutTarget(ZoomInTarget(z)) == z
  {
  }

  /** Zooming in undoes a zoom out that did not hit the lower limit. */
  lemma ZoomInUndoesZoomOut(z: real)
    requires z <= MAX_ZOOM && z - ZOOM_STEP >= MIN_ZOOM
    ensures ZoomInTarget(ZoomOutTarget(z)) == z
  {
  }

  /** `n` clicks on the zoom-in button. */
  function ZoomInClicks(z: real, n: nat): real {
    if n == 0 then z else ZoomInTarget(ZoomInClicks(z, n - 1))
  }

  /** `n` clicks on the zoom-out button. */
  function ZoomOutClicks(z: real, n: nat): real {
    if n == 0 then z else ZoomOutTarget(ZoomOutClicks(z, n - 1))
  }

  /** Repeated zoom-in adds a quarter per click until it saturates at 5. */
  lemma {:induction false} ZoomInClicksSaturate(z: real, n: nat)
    requires z <= MAX_ZOOM
    ensures ZoomInClicks(z, n) == if z + ZOOM_STEP * n as real >= MAX_ZOOM then MAX_ZOOM
                                  else z + ZOOM_STEP * n as real
  {
    if n > 0 {
      ZoomInClicksSaturate(z, n - 1);
    }
  }

  /** Repeated zoom-out takes a quarter per click until it saturates at 0.1. */
  lemma {:induction false} ZoomOutClicksSaturate(z: real, n: nat)
    requires z >= MIN_ZOOM
    ensures ZoomOutClicks(z, n) == if z - ZOOM_STEP * n as real <= MIN_ZOOM then MIN_ZOOM
                                   else z - ZOOM_STEP * n as real
  {
    if n > 0 {
      ZoomOutClicksSaturate(z, n - 1);
    }
  }

  /** Twenty clicks reach either limit from any zoom level. */
  lemma TwentyClicksReachTheLimits(z: real)
    requires MIN_ZOOM <= z <= MAX_ZOOM
    ensures ZoomInClicks(z, 20) == MAX_ZOOM && ZoomOutClicks(z, 20) == MIN_ZOOM
  {
    ZoomInClicksSaturate(z, 20);
    ZoomOutClicksSaturate(z, 20);
  }

  // ---------------------------------------------------------------------
  // Keyboard shortcuts

  datatype ToolButton = ToolButton(tool: Tool, caption: string, shortcut: char)

  /** The tool buttons, in toolbar order, with their shortcut letters. */
  const TOOL_BUTTONS: seq<ToolButton> := [
    ToolButton(SelectTool, "Select", 'V'),
    ToolButton(RectangleTool, "Rectangle", 'R'),
    ToolButton(EllipseTool, "Ellipse", 'O'),
    ToolButton(ArrowTool, "Arrow", 'A'),
    ToolButton(FreedrawTool, "Draw", 'P'),
    ToolButton(TextTool, "Text", 'T'),
    ToolButton(LaserTool, "Laser Pointer", 'L'),
    ToolButton(EraserTool, "Eraser", 'E'),
    ToolButton(HandTool, "Pan", 'H')
  ]

  /** A keydown: `e.key`, whether it targets an input or textarea, and
      whether Ctrl or Meta is held. */
  datatype KeyPress = KeyPress(key: string, inTextField: bool, ctrlOrMeta: bool)

  datatype KeyCommand = ChooseTool(tool: Tool) | OpenSaveDialog | OpenLoadDialog | NoCommand

  /** `t.shortcut.toLowerCase() === key` for an already lower-cased key. */
  predicate ShortcutIs(b: ToolButton, key: string) {
    key == [LowerChar(b.shortcut)]
  }

  /** The index of the first button whose shortcut is `key`, or -1. */
  function FirstShortcutIndex(buttons: seq<ToolButton>, key: string): (i: int)
    ensures -1 <= i < |buttons|
    ensures i >= 0 ==> ShortcutIs(buttons[i], key)
    ensures forall j :: 0 <= j < |buttons| && (i == -1 || j < i) ==> !ShortcutIs(buttons[j], key)
  {
    if buttons == [] then -1
    else if ShortcutIs(buttons[|buttons| - 1], key) && FirstShortcutIndex(buttons[..|buttons| - 1], key) == -1
    then |buttons| - 1
    else FirstShortcutIndex(buttons[..|buttons| - 1], key)
  }

  /** `tools.find(...)`: the tool of the first button whose shortcut is `key`. */
  function FindTool(buttons: seq<ToolButton>, key: string): (r: Option<Tool>)
    ensures r.None? <==> forall i :: 0 <= i < |buttons| ==> !ShortcutIs(buttons[i], key)
    ensures r.Some? ==> var i := FirstShortcutIndex(buttons, key);
                        0 <= i && buttons[i].tool == r.value
  {
    var i := FirstShortcutIndex(buttons, key);
    if i == -1 then None else Some(buttons[i].tool)
  }

  /** handleKeyDown as written: the tool lookup runs before the Ctrl/Meta
      check, so Ctrl+O finds the ellipse tool and returns early. */
  function ShortcutAsWritten(k: KeyPress): (r: KeyCommand)
    ensures k.inTextField ==> r == NoCommand
    ensures r.ChooseTool? <==> !k.inTextField && FindTool(TOOL_BUTTONS, ToLower(k.key)).Some?
    ensures r.ChooseTool? ==> r.tool == FindTool(TOOL_BUTTONS, ToLower(k.key)).value
    ensures r == OpenSaveDialog <==> !k.inTextField && k.ctrlOrMeta && ToLower(k.key) == "s"
  {
    var key := ToLower(k.key);
    if k.inTextField then NoCommand
    else match FindTool(TOOL_BUTTONS, key)
      case Some(t) => ChooseTool(t)
      case None =>
        if k.ctrlOrMeta && key == "s" then OpenSaveDialog
        else if k.ctrlOrMeta && key == "o" then OpenLoadDialog
        else NoCommand
  }

  /** Ctrl+O (or Cmd+O) selects the ellipse tool instead of opening the
      load dialog: the load shortcut cannot be reached as written. */
  lemma CtrlOSelectsEllipseAsWritten()
    ensures ShortcutAsWritten(KeyPress("o", false, true)) == ChooseTool(EllipseTool)
    ensures forall k :: ShortcutAsWritten(k) != OpenLoadDialog
  {
    assert ToLower("o") == "o";
    assert ShortcutIs(TOOL_BUTTONS[2], "o");
    forall k ensures ShortcutAsWritten(k) != OpenLoadDialog {
      if !k.inTextField && ToLower(k.key) == "o" {
        assert ShortcutIs(TOOL_BUTTONS[2], ToLower(k.key));
      }
    }
  }

  /** The keydown handler with the Ctrl/Meta shortcuts checked first, so that
      Ctrl+S and Ctrl+O open their dialogs; every other key press is handled
      as written. */
  function Shortcut(k: KeyPress): (r: KeyCommand)
    ensures k.inTextField ==> r == NoCommand
    ensures !k.inTextField && k.ctrlOrMeta ==> (r == OpenSaveDialog <==> ToLower(k.key) == "s")
    ensures !k.inTextField && k.ctrlOrMeta ==> (r == OpenLoadDialog <==> ToLower(k.key) == "o")
    ensures !k.ctrlOrMeta || (ToLower(k.key) != "s" && ToLower(k.key) != "o") ==> r == ShortcutAsWritten(k)
  {
    var key := ToLower(k.key);
    if k.inTextField then NoCommand
    else if k.ctrlOrMeta && key == "s" then OpenSaveDialog
    else if k.ctrlOrMeta && key == "o" then OpenLoadDialog
    else match FindTool(TOOL_BUTTONS, key)
      case Some(t) => ChooseTool(t)
      case None => NoCommand
  }

  /** The keydown listener on the store, as written: a tool shortcut
      becomes the active tool; the dialog commands are returned for the
      toolbar to open. */
  method HandleKeyDown(store: Store, k: KeyPress) returns (cmd: KeyCommand)
    modifies store`activeTool
    ensures cmd == ShortcutAsWritten(k)
    ensures cmd.ChooseTool? ==> store.activeTool == cmd.tool
    ensures !cmd.ChooseTool? ==> store.activeTool == old(store.activeTool)
  {
    cmd := ShortcutAsWritten(k);
    if cmd.ChooseTool? {
      store.SetActiveTool(cmd.tool);
    }
  }

  /** Every tool button's letter selects that tool, typed in either case,
      when no text field has the focus and no modifier is held. */
  lemma {:induction false} ShortcutSelectsItsTool(i: nat, upper: bool)
    requires i < |TOOL_BUTTONS|
    ensures var c := TOOL_BUTTONS[i].shortcut;
            Shortcut(KeyPress([if upper then c else LowerChar(c)], false, false)) == ChooseTool(TOOL_BUTTONS[i].tool)
  {
    var c := TOOL_BUTTONS[i].shortcut;
    var key := [if upper then c else LowerChar(c)];
    assert ToLower(key) == [LowerChar(c)];
    assert ShortcutIs(TOOL_BUTTONS[i], [LowerChar(c)]);
    var j := FirstShortcutIndex(TOOL_BUTTONS, [LowerChar(c)]);
    assert j == i;
  }

  /** As written too, a tool letter typed without a modifier selects its
      tool: the early tool lookup only shadows the Ctrl/Meta shortcuts. */
  lemma ShortcutSelectsItsToolAsWritten(i: nat, upper: bool)
    requires i < |TOOL_BUTTONS|
    ensures var c := TOOL_BUTTONS[i].shortcut;
            ShortcutAsWritten(KeyPress([if upper then c else LowerChar(c)], false, false)) == ChooseTool(TOOL_BUTTONS[i].tool)
  {
    ShortcutSelectsItsTool(i, upper);
  }

  // ---------------------------------------------------------------------
  // Auto-save

  /** A scheduled auto-save: when it fires and the canvas id and name its
      closure captured. */
  datatype PendingSave = PendingSave(due: int, canvasId: string, canvasName: string)

  /** `lastElementsCountRef` and `autoSaveTimeoutRef` (`None` when no
      timeout is pending). */
  datatype EffectState = EffectState(lastCount: int, timer: Option<PendingSave>)

  /** One run of the auto-save effect: whether a user is logged in, the
      canvas id (empty when absent), the name, the non-deleted element
      count, and the time of the run. */
  datatype EffectRun = EffectRun(loggedIn: bool, canvasId: string, canvasName: string,
                                 liveCount: int, now: int)

  /** The condition under which a run schedules a new save. */
  predicate Reschedules(st: EffectState, r: EffectRun) {
    r.loggedIn && r.canvasId != "" && r.liveCount != st.lastCount && r.liveCount > 0
  }

  function Scheduled(r: EffectRun): EffectState {
    EffectState(r.liveCount, Some(PendingSave(r.now + AUTO_SAVE_DELAY, r.canvasId, r.canvasName)))
  }

  /** The effect as written. The effect re-runs whenever the elements map
      changes; before each re-run React calls the previous run's cleanup,
      which clears the pending timeout. A run that does not reschedule
      therefore leaves no save pending. */
  function AutoSaveEffectAsWritten(st: EffectState, r: EffectRun): (s: EffectState)
    ensures Reschedules(st, r) ==> s == Scheduled(r)
    ensures !Reschedules(st, r) ==> s == EffectState(st.lastCount, None)
  {
    if Reschedules(st, r) then Scheduled(r) else EffectState(st.lastCount, None)
  }

  /** The effect with the cancellation limited to rescheduling and to losing
      the user or the canvas: a pending save survives edits that keep the
      element count. */
  function AutoSaveEffect(st: EffectState, r: EffectRun): (s: EffectState)
    ensures Reschedules(st, r) ==> s == Scheduled(r)
    ensures !r.loggedIn || r.canvasId == "" ==> s == EffectState(st.lastCount, None)
    ensures r.loggedIn && r.canvasId != "" && !Reschedules(st, r) ==> s == st
  {
    if !r.loggedIn || r.canvasId == "" then EffectState(st.lastCount, None)
    else if Reschedules(st, r) then Scheduled(r)
    else st
  }

  function RunAllAsWritten(st: EffectState, runs: seq<EffectRun>): EffectState
    decreases |runs|
  {
    if runs == [] then st else RunAllAsWritten(AutoSaveEffectAsWritten(st, runs[0]), runs[1..])
  }

  function RunAll(st: EffectState, runs: seq<EffectRun>): EffectState
    decreases |runs|
  {
    if runs == [] then st else RunAll(AutoSaveEffect(st, runs[0]), runs[1..])
  }

  /** As written, any run of edits that keep the element count (moves,
      resizes, recolouring) cancels the pending save and schedules none. */
  lemma {:induction false} SameCountEditsCancelAsWritten(st: EffectState, runs: seq<EffectRun>)
    requires |runs| > 0
    requires forall i :: 0 <= i < |runs| ==> runs[i].liveCount == st.lastCount
    ensures RunAllAsWritten(st, runs) == EffectState(st.lastCount, None)
    decreases |runs|
  {
    var s1 := AutoSaveEffectAsWritten(st, runs[0]);
    assert s1 == EffectState(st.lastCount, None);
    if |runs| > 1 {
      SameCountEditsCancelAsWritten(s1, runs[1..]);
    }
  }

  /** Adding a shape schedules a save; dragging it a second later cancels
      that save, and nothing is saved until the count changes again. */
  lemma AddThenMoveLosesSaveAsWritten()
    ensures var s1 := AutoSaveEffectAsWritten(EffectState(0, None), EffectRun(true, "c", "n", 1, 0));
            && s1.timer == Some(PendingSave(30000, "c", "n"))
            && AutoSaveEffectAsWritten(s1, EffectRun(true, "c", "n", 1, 1000)).timer.None?
  {
  }

  /** With the correction, edits that keep the count leave the pending save
      (and its due time) untouched, so it fires. */
  lemma {:induction false} SameCountEditsKeepPendingSave(st: EffectState, runs: seq<EffectRun>)
    requires forall i :: 0 <= i < |runs| ==>
      runs[i].loggedIn && runs[i].canvasId != "" && runs[i].liveCount == st.lastCount
    ensures RunAll(st, runs) == st
    decreases |runs|
  {
    if runs != [] {
      assert AutoSaveEffect(st, runs[0]) == st;
      SameCountEditsKeepPendingSave(st, runs[1..]);
    }
  }

  lemma AddThenMoveKeepsSave()
    ensures var s1 := AutoSaveEffect(EffectState(0, None), EffectRun(true, "c", "n", 1, 0));
            && s1.timer == Some(PendingSave(30000, "c", "n"))
            && AutoSaveEffect(s1, EffectRun(true, "c", "n", 1, 1000)).timer == Some(PendingSave(30000, "c", "n"))
  {
  }

  /** The timeout fires once it is due: the timer is gone and the save it
      captured is requested. */
  function FireAutoSave(st: EffectState, now: int): (r: (EffectState, Option<PendingSave>))
    ensures r.1.Some? <==> st.timer.Some? && st.timer.value.due <= now
    ensures r.1.Some? ==> r.1 == st.timer && r.0 == EffectState(st.lastCount, None)
    ensures r.1.None? ==> r.0 == st
  {
    if st.timer.Some? && st.timer.value.due <= now then (EffectState(st.lastCount, None), st.timer)
    else (st, None)
  }

  // Auto-save status indicator

  datatype AutoSaveStatus = StatusIdle | StatusSaving | StatusSaved | StatusError

  /** How `saveCanvasState` ended: resolved true, resolved false, or threw. */
  datatype SaveOutcome = SaveSucceeded | SaveFailed | SaveThrew

  /** The status once the save settles. */
  function SettledStatus(o: SaveOutcome): (s: AutoSaveStatus)
    ensures s == StatusSaved <==> o == SaveSucceeded
    ensures s == StatusError <==> o != SaveSucceeded
  {
    if o == SaveSucceeded then StatusSaved else StatusError
  }

  /** The pending "back to idle" timeouts that are not yet due. */
  function NotDue(timers: seq<int>, now: int): (r: seq<int>)
    ensures forall i :: 0 <= i < |r| ==> r[i] > now && r[i] in timers
    ensures forall t :: t in timers && t > now ==> t in r
    ensures |r| <= |timers|
    ensures |r| == |timers| <==> forall i :: 0 <= i < |timers| ==> timers[i] > now
  {
    if timers == [] then []
    else
      var rest := NotDue(timers[1..], now);
      assert forall t :: t in timers[1..] ==> t in timers;
      if timers[0] > now then
        assert forall i :: 0 < i < |timers| ==> (timers[i] > now <==> timers[1..][i - 1] > now);
        [timers[0]] + rest
      else rest
  }

  /** The clock reaches `now`: every due "back to idle" timeout fires. */
  function ClockTick(status: AutoSaveStatus, timers: seq<int>, now: int): (r: (AutoSaveStatus, seq<int>))
    ensures r.1 == NotDue(timers, now)
    ensures (exists i :: 0 <= i < |timers| && timers[i] <= now) ==> r.0 == StatusIdle
    ensures (forall i :: 0 <= i < |timers| ==> timers[i] > now) ==> r == (status, timers)
  {
    var rest := NotDue(timers, now);
    if |rest| == |timers| then
      assert rest == timers by {
        NotDueAllLater(timers, now);
      }
      (status, timers)
    else (StatusIdle, rest)
  }

  lemma {:induction false} NotDueAllLater(timers: seq<int>, now: int)
    requires forall i :: 0 <= i < |timers| ==> timers[i] > now
    ensures NotDue(timers, now) == timers
    decreases |timers|
  {
    if timers != [] {
      NotDueAllLater(timers[1..], now);
    }
  }

  /** "saved" or "error" stays on screen until three seconds after the save
      settled (unless an older timeout fires first) and is idle from then on. */
  lemma SettledStatusShownForThreeSeconds(timers: seq<int>, o: SaveOutcome, settledAt: int, now: int)
    requires forall i :: 0 <= i < |timers| ==> timers[i] > now
    ensures now < settledAt + STATUS_RESET_DELAY ==>
      ClockTick(SettledStatus(o), timers + [settledAt + STATUS_RESET_DELAY], now).0 == SettledStatus(o)
    ensures now >= settledAt + STATUS_RESET_DELAY ==>
      ClockTick(SettledStatus(o), timers + [settledAt + STATUS_RESET_DELAY], now).0 == StatusIdle
  {
    var ts := timers + [settledAt + STATUS_RESET_DELAY];
    if now >= settledAt + STATUS_RESET_DELAY {
      assert ts[|timers|] <= now;
    }
  }

  /** The toolbar's auto-save state, with the effect as written. */
  class AutoSaver {
    var effect: EffectState
    var status: AutoSaveStatus
    var lastSaved: Option<int>
    var idleTimers: seq<int>

    constructor ()
      ensures effect == EffectState(0, None) && status == StatusIdle
      ensures lastSaved == None && idleTimers == []
    {
      effect := EffectState(0, None);
      status := StatusIdle;
      lastSaved := None;
      idleTimers := [];
    }

    /** The effect runs after a render whose dependencies changed. */
    method OnEffect(r: EffectRun)
      modifies this`effect
      ensures effect == AutoSaveEffectAsWritten(old(effect), r)
    {
      effect := AutoSaveEffectAsWritten(effect, r);
    }

    /** The clock reaches `now`; a due auto-save starts and is returned for
        the caller to hand to saveCanvasState. */
    method OnTimer(now: int) returns (request: Option<PendingSave>)
      modifies this`effect, this`status
      ensures (effect, request) == FireAutoSave(old(effect), now)
      ensures status == if request.Some? then StatusSaving else old(status)
    {
      var fired := FireAutoSave(effect, now);
      effect := fired.0;
      request := fired.1;
      if request.Some? {
        status := StatusSaving;
      }
    }

    /** The save settled at `now`; a success records the time, and either
        way a "back to idle" timeout is set three seconds out. */
    method OnSaveSettled(o: SaveOutcome, now: int)
      modifies this`status, this`lastSaved, this`idleTimers
      ensures status == SettledStatus(o)
      ensures lastSaved == if o == SaveSucceeded then Some(now) else old(lastSaved)
      ensures idleTimers == old(idleTimers) + [now + STATUS_RESET_DELAY]
    {
      status := SettledStatus(o);
      if o == SaveSucceeded {
        lastSaved := Some(now);
      }
      idleTimers := idleTimers + [now + STATUS_RESET_DELAY];
    }

    /** The clock reaches `now`; due "back to idle" timeouts fire. */
    method OnClock(now: int)
      modifies this`status, this`idleTimers
      ensures (status, idleTimers) == ClockTick(old(status), old(idleTimers), now)
    {
      var r := ClockTick(status, idleTimers, now);
      status := r.0;
      idleTimers := r.1;
    }

    /** The label shown next to the indicator. */
    function SinceLastSave(now: int): (r: Option<string>)
      reads this
      ensures r.None? <==> lastSaved.None?
    {
      TimeSinceLastSave(lastSaved, now)
    }
  }
}
