/** The bookkeeping state of the window manager (sinwm.c:30-60) and the
    state effects of its event handlers. Requests to the X server are not
    performed; they are appended to a ghost log of commands. */
module Sinwm {
  import opened Common
  import opened Sequences
  import opened FocusSpec
  import opened AboveSpec
  import opened Geometry
  import opened Topology
  import opened Fullscreen
  import opened Commands
  import opened ConfigurePacking
  import opened Adjust
  import ArrayOps

  /** The mode of a FocusIn event: only NotifyNormal is acted on. */
  datatype NotifyMode = NotifyNormal | NotifyOtherMode

  /** The detail of a FocusIn event: Pointer and None move the focus. */
  datatype NotifyDetail = DetailPointer | DetailNone | DetailOther

  /** The two _NET_WM_STATE properties the manager understands, and any other. */
  datatype StateAtom = AtomAbove | AtomFullscreen | AtomOther

  /** The client messages handle_client_message distinguishes by type. */
  datatype ClientMessage =
    | WmState(window: Window, action: int, atom1: StateAtom, atom2: StateAtom)
    | ActiveWindowRequest(window: Window)
    | FullscreenMonitors(window: Window, span: Span)
    | OtherMessage

  /** The commands set_input_focus sends for `w`. */
  function FocusCommands(w: Window): seq<Command> {
    [InputFocus(w), ChangeActiveWindow(w)]
  }

  /** The commands the fallback after losing the active window sends: focus
      the new top, or nothing when the stack is empty (NONE on top). */
  function RefocusCommands(top: Window): seq<Command> {
    if top == NONE then [] else FocusCommands(top)
  }

  /** The restack a _NET_WM_STATE_ABOVE request sends: raise on add, lower on
      remove, and for toggle whichever matches the new membership. */
  function AboveCommands(aot: seq<Window>, w: Window, action: int): seq<Command> {
    if action == ACTION_ADD then [Restack(w, STACK_MODE_ABOVE)]
    else if action == ACTION_REMOVE then [Restack(w, STACK_MODE_BELOW)]
    else if action == ACTION_TOGGLE then
      (if w in aot then [Restack(w, STACK_MODE_BELOW)] else [Restack(w, STACK_MODE_ABOVE)])
    else []
  }

  /** The record of `w` exists and is in monitor (span) mode. */
  predicate InMonitorMode(rs: seq<FullscreenRecord>, w: Window) {
    var i := RecordIndex(rs, w);
    i != -1 && rs[i].isMonitorFullscreen
  }

  /** Lookup-before-add finds or creates a record for `w`: it exists, or
      there is room and the geometry query answered. */
  predicate CanRecord(rs: seq<FullscreenRecord>, w: Window, geometry: Option<Rect>) {
    RecordIndex(rs, w) != -1 || (|rs| < MAX_WINDOWS && geometry.Some?)
  }

  /** `rs'` is `rs` with the record of `w` found or appended at its index,
      changed as `Updated` says; every other record is kept. */
  ghost predicate UpdatesRecord(rs: seq<FullscreenRecord>, rs': seq<FullscreenRecord>, w: Window, geometry: Option<Rect>)
    requires CanRecord(rs, w, geometry)
  {
    var i := RecordIndex(rs, w);
    var j := if i == -1 then |rs| else i;
    && |rs'| == (if i == -1 then |rs| + 1 else |rs|)
    && (forall k :: 0 <= k < |rs| && k != j ==> rs'[k] == rs[k])
    && rs'[j].window == w
    && (if i == -1 then rs'[j].originalGeometry == geometry.value
        else rs'[j].originalGeometry == rs[i].originalGeometry)
  }

  /** The index the record of `w` has after UpdatesRecord. */
  function UpdatedIndex(rs: seq<FullscreenRecord>, w: Window): int {
    var i := RecordIndex(rs, w);
    if i == -1 then |rs| else i
  }

  /** The effect of adding general fullscreen (sinwm.c:552-563): with a record
      found or made, the window is flagged, stretched over the screen and kept
      above; without one nothing changes. */
  ghost predicate GeneralFullscreenStep(
    rs: seq<FullscreenRecord>, aot: seq<Window>, log: seq<Command>,
    rs': seq<FullscreenRecord>, aot': seq<Window>, log': seq<Command>,
    w: Window, geometry: Option<Rect>, screenWidth: int, screenHeight: int)
  {
    if !CanRecord(rs, w, geometry) then rs' == rs && aot' == aot && log' == log
    else
      var j := UpdatedIndex(rs, w);
      && UpdatesRecord(rs, rs', w, geometry)
      && rs'[j].isGeneralFullscreen && !rs'[j].isMonitorFullscreen
      && (if j < |rs| then rs'[j] == rs[j].(isGeneralFullscreen := true)
          else !rs'[j].hasMonitors)
      && aot' == Add(aot, w)
      && log' == log + [MoveResize(w, 0, 0, screenWidth, screenHeight), ChangeWmStateFullscreen(w)]
  }

  /** The effect of a _NET_WM_STATE_FULLSCREEN request (sinwm.c:538-567) on the
      registry, the always-on-top set and the command log. */
  ghost predicate FullscreenStateStep(
    rs: seq<FullscreenRecord>, aot: seq<Window>, log: seq<Command>,
    rs': seq<FullscreenRecord>, aot': seq<Window>, log': seq<Command>,
    w: Window, action: int, geometry: Option<Rect>, screenWidth: int, screenHeight: int)
  {
    if InMonitorMode(rs, w) then rs' == rs && aot' == aot && log' == log
    else if action == ACTION_ADD then GeneralFullscreenStep(rs, aot, log, rs', aot', log', w, geometry, screenWidth, screenHeight)
    else if action == ACTION_REMOVE then
      rs' == RemoveRecord(rs, w) && aot' == aot && log' == log + RestoreCommands(rs, w)
    else rs' == rs && aot' == aot && log' == log
  }

  /** The effect of a _NET_WM_FULLSCREEN_MONITORS request (sinwm.c:578-613)
      against the current monitors and totals. */
  ghost predicate SpanStep(
    rs: seq<FullscreenRecord>, log: seq<Command>, rs': seq<FullscreenRecord>, log': seq<Command>,
    w: Window, xs: Span, geometry: Option<Rect>, ms: seq<Monitor>, totalWidth: int, totalHeight: int)
  {
    match CalculateFullscreenGeometry(xs, ms, totalWidth, totalHeight)
    case None => rs' == rs && log' == log
    case Some(b) =>
      && log' == log + [PlaceOn(w, b), ChangeWmStateFullscreen(w)]
      && if !CanRecord(rs, w, geometry) then rs' == rs
         else
           var j := UpdatedIndex(rs, w);
           && UpdatesRecord(rs, rs', w, geometry)
           && rs'[j].monitors == xs && rs'[j].hasMonitors
           && rs'[j].isMonitorFullscreen && !rs'[j].isGeneralFullscreen
  }

  /** Every record keeps one window and exclusive modes. */
  ghost predicate RegistryInvariant(rs: seq<FullscreenRecord>) {
    && |rs| <= MAX_WINDOWS
    && NoDups(Windows(rs))
    && forall r <- rs :: ModesConsistent(r)
  }

  /** Updating or appending the record of `w` keeps one record per window. */
  lemma UpdatesRecordKeepsWindows(rs: seq<FullscreenRecord>, rs': seq<FullscreenRecord>, w: Window, geometry: Option<Rect>)
    requires NoDups(Windows(rs)) && CanRecord(rs, w, geometry) && UpdatesRecord(rs, rs', w, geometry)
    ensures Windows(rs') == if RecordIndex(rs, w) == -1 then Windows(rs) + [w] else Windows(rs)
    ensures NoDups(Windows(rs'))
  {
    var ws, ws' := Windows(rs), Windows(rs');
    if RecordIndex(rs, w) == -1 {
      assert ws' == ws + [w];
      forall i, j | 0 <= i < j < |ws'| ensures At(ws', i) != At(ws', j) {
        assert ws'[i] == ws[i];
        if j < |ws| {
          NoDupsDistinct(ws, i, j);
        }
      }
    } else {
      assert ws' == ws;
    }
  }

  /** Writing a consistent record at the updated index keeps one record per
      window and exclusive modes everywhere. */
  lemma UpdatedKeepsRegistry(rs: seq<FullscreenRecord>, rs': seq<FullscreenRecord>, w: Window, geometry: Option<Rect>)
    requires RegistryInvariant(rs) && CanRecord(rs, w, geometry) && UpdatesRecord(rs, rs', w, geometry)
    requires ModesConsistent(rs'[UpdatedIndex(rs, w)])
    ensures RegistryInvariant(rs')
  {
    UpdatesRecordKeepsWindows(rs, rs', w, geometry);
    var j := UpdatedIndex(rs, w);
    forall r <- rs' ensures ModesConsistent(r) {
      var k :| 0 <= k < |rs'| && rs'[k] == r;
      if k != j {
        assert rs[k] in rs;
      }
    }
  }

  /** A _NET_WM_STATE fullscreen request never leaves a record with both
      modes set, nor two records for one window. */
  lemma FullscreenStateKeepsRegistry(
    rs: seq<FullscreenRecord>, aot: seq<Window>, log: seq<Command>,
    rs': seq<FullscreenRecord>, aot': seq<Window>, log': seq<Command>,
    w: Window, action: int, geometry: Option<Rect>, screenWidth: int, screenHeight: int)
    requires RegistryInvariant(rs)
    requires FullscreenStateStep(rs, aot, log, rs', aot', log', w, action, geometry, screenWidth, screenHeight)
    ensures RegistryInvariant(rs')
  {
    if !InMonitorMode(rs, w) && action == ACTION_ADD && CanRecord(rs, w, geometry) {
      var j := UpdatedIndex(rs, w);
      if j < |rs| {
        assert rs[j] in rs;
      }
      UpdatedKeepsRegistry(rs, rs', w, geometry);
    } else if !InMonitorMode(rs, w) && action == ACTION_REMOVE {
      RemoveRecordProperties(rs, w);
    }
  }

  /** A span request never leaves a record with both modes set, nor two
      records for one window. */
  lemma SpanKeepsRegistry(
    rs: seq<FullscreenRecord>, log: seq<Command>, rs': seq<FullscreenRecord>, log': seq<Command>,
    w: Window, xs: Span, geometry: Option<Rect>, ms: seq<Monitor>, totalWidth: int, totalHeight: int)
    requires RegistryInvariant(rs)
    requires SpanStep(rs, log, rs', log', w, xs, geometry, ms, totalWidth, totalHeight)
    ensures RegistryInvariant(rs')
  {
    var g := CalculateFullscreenGeometry(xs, ms, totalWidth, totalHeight);
    if g.Some? && CanRecord(rs, w, geometry) {
      UpdatedKeepsRegistry(rs, rs', w, geometry);
    }
  }

  /** The global state of sinwm.c, in fixed-capacity arrays with counters. */
  class WindowManager {
    /** focus_stack / focus_stack_top: entries 0 .. focusTop, the top last. */
    const focusStack: array<Window>
    var focusTop: int
    /** always_on_top_windows / always_on_top_count. */
    const aboveWindows: array<Window>
    var aboveCount: int
    /** fs_windows / fullscreen_count. */
    const fsWindows: array<FullscreenRecord>
    var fullscreenCount: int
    /** active_window. */
    var activeWindow: Window
    /** monitors / monitor_count and the bounding size of all monitors. */
    const monitors: array<Monitor>
    var monitorCount: int
    var totalWidth: int
    var totalHeight: int
    /** The requests sent to the X server, oldest first. */
    ghost var log: seq<Command>

    ghost function FocusStack(): seq<Window>
      reads this`focusTop, focusStack
    {
      if -1 <= focusTop < focusStack.Length then focusStack[..focusTop + 1] else []
    }

    ghost function AlwaysOnTop(): seq<Window>
      reads this`aboveCount, aboveWindows
    {
      if 0 <= aboveCount <= aboveWindows.Length then aboveWindows[..aboveCount] else []
    }

    ghost function Records(): seq<FullscreenRecord>
      reads this`fullscreenCount, fsWindows
    {
      if 0 <= fullscreenCount <= fsWindows.Length then fsWindows[..fullscreenCount] else []
    }

    ghost function Monitors(): seq<Monitor>
      reads this`monitorCount, monitors
    {
      if 0 <= monitorCount <= monitors.Length then monitors[..monitorCount] else []
    }

    /** The focus stack holds each window at most once and fits its array. */
    ghost predicate FocusValid()
      reads this`focusTop, focusStack
    {
      focusStack.Length == MAX_WINDOWS && -1 <= focusTop < MAX_WINDOWS && WindowListValid(FocusStack())
    }

    /** The always-on-top set holds each window at most once and fits its array. */
    ghost predicate AboveValid()
      reads this`aboveCount, aboveWindows
    {
      aboveWindows.Length == MAX_WINDOWS && 0 <= aboveCount <= MAX_WINDOWS && WindowListValid(AlwaysOnTop())
    }

    /** One consistent record per fullscreen window, within the array. */
    ghost predicate RegistryValid()
      reads this`fullscreenCount, fsWindows
    {
      fsWindows.Length == MAX_WINDOWS && 0 <= fullscreenCount <= MAX_WINDOWS && RegistryInvariant(Records())
    }

    /** The monitor count stays within the array. */
    ghost predicate MonitorsValid()
      reads this`monitorCount
    {
      monitors.Length == MAX_MONITORS && 0 <= monitorCount <= MAX_MONITORS
    }

    /** The two window arrays are different objects, so updating one leaves
        the other alone. */
    ghost predicate Disjoint() {
      focusStack != aboveWindows
    }

    /** Every part of the state is consistent. */
    ghost predicate Valid()
      reads this`focusTop, this`aboveCount, this`fullscreenCount, this`monitorCount
      reads focusStack, aboveWindows, fsWindows
    {
      Disjoint() && FocusValid() && AboveValid() && RegistryValid() && MonitorsValid()
    }

    /** The zero-initialised globals before the event loop starts. */
    constructor ()
      ensures Valid()
      ensures FocusStack() == [] && AlwaysOnTop() == [] && Records() == [] && Monitors() == []
      ensures activeWindow == NONE && totalWidth == 0 && totalHeight == 0 && log == []
    {
      focusStack := new Window[MAX_WINDOWS](_ => NONE);
      focusTop := -1;
      aboveWindows := new Window[MAX_WINDOWS](_ => NONE);
      aboveCount := 0;
      fsWindows := new FullscreenRecord[MAX_WINDOWS](_ => FullscreenRecord(NONE, Rect(0, 0, 0, 0), Span(0, 0, 0, 0), false, false, false));
      fullscreenCount := 0;
      activeWindow := NONE;
      monitors := new Monitor[MAX_MONITORS](_ => Monitor(0, 0, 0, 0, 0));
      monitorCount := 0;
      totalWidth, totalHeight := 0, 0;
      log := [];
    }

    // ---------------------------------------------------------------- focus

    /** push_focus (sinwm.c:176-189). */
    method PushFocus(w: Window)
      requires FocusValid()
      modifies this`focusTop, focusStack
      ensures FocusValid()
      ensures FocusStack() == Push(old(FocusStack()), w)
    {
      ghost var s := FocusStack();
      var count := ArrayOps.Remove(focusStack, focusTop + 1, w);
      focusTop := count - 1;
      RemoveKeepsInvariant(s, w);
      if focusTop < MAX_WINDOWS - 1 {
        focusTop := focusTop + 1;
        focusStack[focusTop] := w;
      }
      PushKeepsInvariant(s, w);
      assert FocusStack() == Push(s, w);
    }

    /** remove_focus (sinwm.c:191-201). */
    method RemoveFocus(w: Window)
      requires FocusValid()
      modifies this`focusTop, focusStack
      ensures FocusValid()
      ensures FocusStack() == RemoveFirst(old(FocusStack()), w)
      ensures w !in FocusStack()
      ensures w !in old(FocusStack()) ==> FocusStack() == old(FocusStack())
    {
      ghost var s := FocusStack();
      var count := ArrayOps.Remove(focusStack, focusTop + 1, w);
      focusTop := count - 1;
      RemoveKeepsInvariant(s, w);
    }

    /** get_top_focus (sinwm.c:203-207). */
    method GetTopFocus() returns (w: Window)
      requires FocusValid()
      ensures w == Top(FocusStack())
    {
      if focusTop >= 0 {
        w := focusStack[focusTop];
      } else {
        w := NONE;
      }
    }

    /** set_input_focus (sinwm.c:209-217): focus `w`, make it the active
        window and push it on the focus stack. It ends on top unless the stack
        was full and did not hold it. */
    method SetInputFocus(w: Window)
      requires FocusValid()
      modifies this`activeWindow, this`focusTop, focusStack, this`log
      ensures FocusValid()
      ensures activeWindow == w
      ensures FocusStack() == Push(old(FocusStack()), w)
      ensures w in old(FocusStack()) || |old(FocusStack())| < MAX_WINDOWS ==> Top(FocusStack()) == activeWindow
      ensures log == old(log) + FocusCommands(w)
    {
      RemoveFirstLength(FocusStack(), w);
      log := log + [InputFocus(w)];
      activeWindow := w;
      PushFocus(w);
      log := log + [ChangeActiveWindow(w)];
    }

    // --------------------------------------------------------- always on top

    /** is_always_on_top (sinwm.c:270-276). */
    method IsAlwaysOnTop(w: Window) returns (b: bool)
      requires AboveValid()
      ensures b <==> w in AlwaysOnTop()
    {
      var i := ArrayOps.Find(aboveWindows, aboveCount, w);
      b := i != -1;
    }

    /** add_to_always_on_top (sinwm.c:278-284). */
    method AddToAlwaysOnTop(w: Window)
      requires AboveValid()
      modifies this`aboveCount, aboveWindows
      ensures AboveValid()
      ensures AlwaysOnTop() == Add(old(AlwaysOnTop()), w)
    {
      ghost var s := AlwaysOnTop();
      AddProperties(s, w);
      var present := IsAlwaysOnTop(w);
      if present {
        return;
      }
      if aboveCount < MAX_WINDOWS {
        aboveWindows[aboveCount] := w;
        aboveCount := aboveCount + 1;
        assert AlwaysOnTop() == s + [w];
      }
    }

    /** remove_from_always_on_top (sinwm.c:286-296). */
    method RemoveFromAlwaysOnTop(w: Window)
      requires AboveValid()
      modifies this`aboveCount, aboveWindows
      ensures AboveValid()
      ensures AlwaysOnTop() == RemoveFirst(old(AlwaysOnTop()), w)
      ensures w !in AlwaysOnTop()
      ensures w !in old(AlwaysOnTop()) ==> AlwaysOnTop() == old(AlwaysOnTop())
    {
      RemoveProperties(AlwaysOnTop(), w);
      aboveCount := ArrayOps.Remove(aboveWindows, aboveCount, w);
    }

    /** The _NET_WM_STATE_ABOVE branch of handle_client_message
        (sinwm.c:516-536): restack and update membership for action 0, 1, 2. */
    method ApplyAboveState(w: Window, action: int)
      requires AboveValid()
      modifies this`aboveCount, aboveWindows, this`log
      ensures AboveValid()
      ensures AlwaysOnTop() == Apply(old(AlwaysOnTop()), w, action)
      ensures log == old(log) + AboveCommands(old(AlwaysOnTop()), w, action)
    {
      if action == ACTION_ADD {
        log := log + [Restack(w, STACK_MODE_ABOVE)];
        AddToAlwaysOnTop(w);
      } else if action == ACTION_REMOVE {
        log := log + [Restack(w, STACK_MODE_BELOW)];
        RemoveFromAlwaysOnTop(w);
      } else if action == ACTION_TOGGLE {
        var present := IsAlwaysOnTop(w);
        if present {
          log := log + [Restack(w, STACK_MODE_BELOW)];
          RemoveFromAlwaysOnTop(w);
        } else {
          log := log + [Restack(w, STACK_MODE_ABOVE)];
          AddToAlwaysOnTop(w);
        }
      }
    }

    /** Raising every always-on-top window, in set order (sinwm.c:666-669,
        725-728). */
    method RaiseAlwaysOnTop()
      requires AboveValid()
      modifies this`log
      ensures log == old(log) + RaiseAll(AlwaysOnTop())
    {
      var i := 0;
      while i < aboveCount
        invariant 0 <= i <= aboveCount
        invariant log == old(log) + RaiseAll(aboveWindows[..i])
      {
        assert aboveWindows[..i + 1][..i] == aboveWindows[..i];
        log := log + [Restack(aboveWindows[i], STACK_MODE_ABOVE)];
        i := i + 1;
      }
      assert aboveWindows[..i] == AlwaysOnTop();
    }

    // ------------------------------------------------------------ fullscreen

    /** The lookup loop over fs_windows (sinwm.c:440-447, 539-545, 594-600). */
    method FindRecord(w: Window) returns (i: int)
      requires RegistryValid()
      ensures i == RecordIndex(Records(), w)
    {
      i := 0;
      while i < fullscreenCount && fsWindows[i].window != w
        invariant 0 <= i <= fullscreenCount
        invariant forall k :: 0 <= k < i ==> fsWindows[k].window != w
      {
        i := i + 1;
      }
      var ws := Windows(Records());
      if i == fullscreenCount {
        assert w !in ws;
        i := -1;
      } else {
        ArrayOps.FirstIndex(ws, w, i);
      }
    }

    /** is_fullscreen_window (sinwm.c:298-304). */
    method IsFullscreenWindow(w: Window) returns (b: bool)
      requires RegistryValid()
      ensures b <==> w in Windows(Records())
    {
      var i := FindRecord(w);
      b := i != -1;
    }

    /** add_fullscreen_window (sinwm.c:412-438), with the geometry reply as a
        parameter. The callers look the window up first, so it has no record.
        The new record's span is whatever the slot held before: it is not read
        while hasMonitors is false. */
    method AddFullscreenWindow(w: Window, geometry: Option<Rect>) returns (index: int)
      requires RegistryValid()
      requires w !in Windows(Records())
      modifies this`fullscreenCount, fsWindows
      ensures RegistryValid()
      ensures fullscreenCount >= old(fullscreenCount)
      ensures old(fullscreenCount) >= MAX_WINDOWS || geometry.None? ==>
                index == -1 && Records() == old(Records())
      ensures old(fullscreenCount) < MAX_WINDOWS && geometry.Some? ==>
                && index == |old(Records())|
                && Records()[..index] == old(Records())
                && |Records()| == index + 1
                && Records()[index].window == w
                && Records()[index].originalGeometry == geometry.value
                && !Records()[index].hasMonitors
                && !Records()[index].isGeneralFullscreen
                && !Records()[index].isMonitorFullscreen
    {
      if fullscreenCount >= MAX_WINDOWS {
        return -1;
      }
      if geometry.None? {
        return -1;
      }
      ghost var rs := Records();
      fsWindows[fullscreenCount] := fsWindows[fullscreenCount].(
        window := w, originalGeometry := geometry.value,
        hasMonitors := false, isGeneralFullscreen := false, isMonitorFullscreen := false);
      fullscreenCount := fullscreenCount + 1;
      index := fullscreenCount - 1;
      assert Records()[..index] == rs;
      UpdatesRecordKeepsWindows(rs, Records(), w, geometry);
    }

    /** remove_fullscreen_window (sinwm.c:440-461): put the window back to the
        geometry frozen when its record was made, then drop the record. */
    method RemoveFullscreenWindow(w: Window)
      requires RegistryValid()
      modifies this`fullscreenCount, fsWindows, this`log
      ensures RegistryValid()
      ensures Records() == RemoveRecord(old(Records()), w)
      ensures w !in Windows(Records())
      ensures log == old(log) + RestoreCommands(old(Records()), w)
      ensures w !in Windows(old(Records())) ==> Records() == old(Records()) && log == old(log)
    {
      ghost var rs := Records();
      RemoveRecordProperties(rs, w);
      var index := FindRecord(w);
      if index != -1 {
        log := log + [DeleteWmState(w)];
        var g := fsWindows[index].originalGeometry;
        log := log + [MoveResize(w, g.x, g.y, g.width, g.height)];
        assert log == old(log) + RestoreCommands(rs, w);
        var r := fsWindows[index];
        fsWindows[index] := r.(isGeneralFullscreen := false, isMonitorFullscreen := false);
        ghost var cleared := fsWindows[..fullscreenCount];
        assert cleared == rs[index := cleared[index]];
        ArrayOps.DeleteAt(fsWindows, fullscreenCount, index);
        fullscreenCount := fullscreenCount - 1;
        assert Records() == cleared[..index] + cleared[index + 1..];
        assert cleared[..index] == rs[..index];
        assert cleared[index + 1..] == rs[index + 1..];
        assert Records() == RemoveRecord(rs, w);
      }
    }

    /** Overwrite the record at `index` in place. */
    method SetRecord(index: int, r: FullscreenRecord)
      requires 0 <= index < fullscreenCount <= fsWindows.Length
      modifies fsWindows
      ensures Records() == old(Records())[index := r]
    {
      fsWindows[index] := r;
    }

    /** The _NET_WM_STATE_FULLSCREEN branch of handle_client_message
        (sinwm.c:538-567). A window in monitor mode is left alone; action 1
        makes the window general fullscreen on the screen's size, action 0
        restores it, action 2 does nothing. */
    method ApplyFullscreenState(w: Window, action: int, geometry: Option<Rect>, screenWidth: int, screenHeight: int)
      requires RegistryValid() && AboveValid()
      modifies this`fullscreenCount, fsWindows, this`log, this`aboveCount, aboveWindows
      ensures RegistryValid() && AboveValid()
      ensures FullscreenStateStep(old(Records()), old(AlwaysOnTop()), old(log), Records(), AlwaysOnTop(), log,
                                  w, action, geometry, screenWidth, screenHeight)
    {
      ghost var rs := Records();
      var index := FindRecord(w);
      var isMonitor := if index != -1 then fsWindows[index].isMonitorFullscreen else false;
      if isMonitor {
        return;
      }
      if action == ACTION_ADD {
        MakeGeneralFullscreen(w, index, geometry, screenWidth, screenHeight);
      } else if action == ACTION_REMOVE {
        RemoveFullscreenWindow(w);
      }
    }

    /** The add branch of the _NET_WM_STATE_FULLSCREEN request
        (sinwm.c:552-563), given the lookup's `index`. */
    method MakeGeneralFullscreen(w: Window, index: int, geometry: Option<Rect>, screenWidth: int, screenHeight: int)
      requires RegistryValid() && AboveValid()
      requires index == RecordIndex(Records(), w) && !InMonitorMode(Records(), w)
      modifies this`fullscreenCount, fsWindows, this`log, this`aboveCount, aboveWindows
      ensures RegistryValid() && AboveValid()
      ensures GeneralFullscreenStep(old(Records()), old(AlwaysOnTop()), old(log), Records(), AlwaysOnTop(), log,
                                    w, geometry, screenWidth, screenHeight)
    {
      ghost var rs := Records();
      var i := index;
      if i == -1 {
        i := AddFullscreenWindow(w, geometry);
        if i == -1 {
          return;
        }
      }
      ghost var rs1 := Records();
      assert rs1[i] in rs1;
      SetRecord(i, fsWindows[i].(isGeneralFullscreen := true));
      assert UpdatesRecord(rs, Records(), w, geometry);
      UpdatedKeepsRegistry(rs, Records(), w, geometry);
      log := log + [MoveResize(w, 0, 0, screenWidth, screenHeight), ChangeWmStateFullscreen(w)];
      AddToAlwaysOnTop(w);
    }

    /** The _NET_WM_FULLSCREEN_MONITORS branch of handle_client_message
        (sinwm.c:578-613): an invalid span changes nothing and sends nothing;
        a valid one places the window and records the span in monitor mode. */
    method ApplyFullscreenMonitors(w: Window, xs: Span, geometry: Option<Rect>)
      requires RegistryValid() && MonitorsValid()
      modifies this`fullscreenCount, fsWindows, this`log
      ensures RegistryValid() && MonitorsValid()
      ensures SpanStep(old(Records()), old(log), Records(), log, w, xs, geometry, Monitors(), totalWidth, totalHeight)
    {
      ghost var rs := Records();
      var g := CalculateFullscreenGeometry(xs, monitors[..monitorCount], totalWidth, totalHeight);
      if g.None? {
        return;
      }
      log := log + [PlaceOn(w, g.value), ChangeWmStateFullscreen(w)];
      var index := FindRecord(w);
      if index == -1 {
        index := AddFullscreenWindow(w, geometry);
      }
      if index != -1 {
        SetRecord(index, fsWindows[index].(monitors := xs, hasMonitors := true,
                                           isMonitorFullscreen := true, isGeneralFullscreen := false));
        assert UpdatesRecord(rs, Records(), w, geometry);
        UpdatedKeepsRegistry(rs, Records(), w, geometry);
      }
    }

    /** The _NET_WM_STATE branch of handle_client_message (sinwm.c:511-568):
        the above request first, then the fullscreen request. */
    method HandleWmState(w: Window, action: int, atom1: StateAtom, atom2: StateAtom,
                         geometry: Option<Rect>, screenWidth: int, screenHeight: int)
      requires AboveValid() && RegistryValid()
      modifies this`aboveCount, aboveWindows, this`fullscreenCount, fsWindows, this`log
      ensures AboveValid() && RegistryValid()
      ensures var above := atom1 == AtomAbove || atom2 == AtomAbove;
              var full := atom1 == AtomFullscreen || atom2 == AtomFullscreen;
              var aot1 := if above then Apply(old(AlwaysOnTop()), w, action) else old(AlwaysOnTop());
              var log1 := if above then old(log) + AboveCommands(old(AlwaysOnTop()), w, action) else old(log);
              && (full ==> FullscreenStateStep(old(Records()), aot1, log1, Records(), AlwaysOnTop(), log,
                                               w, action, geometry, screenWidth, screenHeight))
              && (!full ==> Records() == old(Records()) && AlwaysOnTop() == aot1 && log == log1)
    {
      if atom1 == AtomAbove || atom2 == AtomAbove {
        ApplyAboveState(w, action);
      }
      if atom1 == AtomFullscreen || atom2 == AtomFullscreen {
        ApplyFullscreenState(w, action, geometry, screenWidth, screenHeight);
      }
    }

    /** The _NET_ACTIVE_WINDOW branch of handle_client_message
        (sinwm.c:569-575): raise the target and give it the focus. */
    method ActivateWindow(target: Window)
      requires FocusValid()
      modifies this`activeWindow, this`focusTop, focusStack, this`log
      ensures FocusValid()
      ensures target == NONE ==> FocusStack() == old(FocusStack()) && activeWindow == old(activeWindow) && log == old(log)
      ensures target != NONE ==>
                && activeWindow == target
                && FocusStack() == Push(old(FocusStack()), target)
                && log == old(log) + [Restack(target, STACK_MODE_ABOVE)] + FocusCommands(target)
    {
      if target != NONE {
        log := log + [Restack(target, STACK_MODE_ABOVE)];
        SetInputFocus(target);
      }
    }

    /** handle_client_message (sinwm.c:510-614). `geometry` stands for the
        window's geometry reply; `screenWidth` / `screenHeight` for the root
        screen size used by general fullscreen. */
    method HandleClientMessage(msg: ClientMessage, geometry: Option<Rect>, screenWidth: int, screenHeight: int)
      requires Disjoint() && FocusValid() && AboveValid() && RegistryValid() && MonitorsValid()
      modifies this`aboveCount, aboveWindows, this`fullscreenCount, fsWindows, this`log,
               this`activeWindow, this`focusTop, focusStack
      ensures FocusValid() && AboveValid() && RegistryValid()
      ensures msg.WmState? ==>
                var w, action := msg.window, msg.action;
                var above := msg.atom1 == AtomAbove || msg.atom2 == AtomAbove;
                var full := msg.atom1 == AtomFullscreen || msg.atom2 == AtomFullscreen;
                var aot1 := if above then Apply(old(AlwaysOnTop()), w, action) else old(AlwaysOnTop());
                var log1 := if above then old(log) + AboveCommands(old(AlwaysOnTop()), w, action) else old(log);
                && FocusStack() == old(FocusStack()) && activeWindow == old(activeWindow)
                && (full ==> FullscreenStateStep(old(Records()), aot1, log1, Records(), AlwaysOnTop(), log,
                                                 w, action, geometry, screenWidth, screenHeight))
                && (!full ==> Records() == old(Records()) && AlwaysOnTop() == aot1 && log == log1)
      ensures msg.ActiveWindowRequest? ==>
                && AlwaysOnTop() == old(AlwaysOnTop()) && Records() == old(Records())
                && (msg.window == NONE ==> FocusStack() == old(FocusStack()) && activeWindow == old(activeWindow) && log == old(log))
                && (msg.window != NONE ==>
                      && activeWindow == msg.window
                      && FocusStack() == Push(old(FocusStack()), msg.window)
                      && log == old(log) + [Restack(msg.window, STACK_MODE_ABOVE)] + FocusCommands(msg.window))
      ensures msg.FullscreenMonitors? ==>
                && FocusStack() == old(FocusStack()) && activeWindow == old(activeWindow)
                && AlwaysOnTop() == old(AlwaysOnTop())
                && SpanStep(old(Records()), old(log), Records(), log, msg.window, msg.span, geometry, Monitors(), totalWidth, totalHeight)
      ensures msg.OtherMessage? ==>
                && FocusStack() == old(FocusStack()) && activeWindow == old(activeWindow)
                && AlwaysOnTop() == old(AlwaysOnTop()) && Records() == old(Records()) && log == old(log)
    {
      match msg
      case WmState(w, action, atom1, atom2) =>
        HandleWmState(w, action, atom1, atom2, geometry, screenWidth, screenHeight);
      case ActiveWindowRequest(target) =>
        ActivateWindow(target);
      case FullscreenMonitors(w, xs) =>
        ApplyFullscreenMonitors(w, xs, geometry);
      case OtherMessage =>
    }

    // --------------------------------------------------------------- handlers

    /** The first half of handle_destroy_notify (sinwm.c:619-623): the window
        leaves the always-on-top set and the registry, and a fullscreen window
        is restored to its saved geometry. */
    method ForgetWindow(w: Window)
      requires RegistryValid() && AboveValid()
      modifies this`aboveCount, aboveWindows, this`fullscreenCount, fsWindows, this`log
      ensures RegistryValid() && AboveValid()
      ensures AlwaysOnTop() == RemoveFirst(old(AlwaysOnTop()), w) && w !in AlwaysOnTop()
      ensures Records() == RemoveRecord(old(Records()), w) && w !in Windows(Records())
      ensures log == old(log) + RestoreCommands(old(Records()), w)
    {
      ghost var aot, rs := AlwaysOnTop(), Records();
      var above := IsAlwaysOnTop(w);
      if above {
        RemoveFromAlwaysOnTop(w);
      } else {
        assert RemoveFirst(aot, w) == aot;
      }
      var fullscreen := IsFullscreenWindow(w);
      if fullscreen {
        RemoveFullscreenWindow(w);
      } else {
        assert RemoveRecord(rs, w) == rs;
        assert RestoreCommands(rs, w) == [];
      }
    }

    /** The active window is gone (sinwm.c:625-633): clear the active window,
        drop it from the focus stack and focus the new top, if any. */
    method ReplaceActive(w: Window)
      requires FocusValid() && w == activeWindow
      modifies this`activeWindow, this`focusTop, focusStack, this`log
      ensures FocusValid()
      ensures FocusStack() == RemoveFirst(old(FocusStack()), w) && w !in FocusStack()
      ensures activeWindow == Top(FocusStack())
      ensures log == old(log) + [DeleteActiveWindow] + RefocusCommands(Top(FocusStack()))
    {
      activeWindow := NONE;
      log := log + [DeleteActiveWindow];
      RemoveFocus(w);
      ghost var rest := FocusStack();
      var newFocus := GetTopFocus();
      if newFocus != NONE {
        PushTopUnchanged(rest);
        SetInputFocus(newFocus);
        assert FocusStack() == rest;
        assert RefocusCommands(Top(FocusStack())) == FocusCommands(newFocus);
      } else {
        assert RefocusCommands(Top(FocusStack())) == [];
      }
    }

    /** handle_destroy_notify (sinwm.c:616-638): the window leaves the
        always-on-top set, the registry (restoring its geometry) and the focus
        stack; if it was active, the new top of the stack takes the focus, or
        nothing does when the stack is empty. */
    method HandleDestroyNotify(w: Window)
      requires Disjoint() && FocusValid() && AboveValid() && RegistryValid()
      modifies this`aboveCount, aboveWindows, this`fullscreenCount, fsWindows, this`log,
               this`activeWindow, this`focusTop, focusStack
      ensures FocusValid() && AboveValid() && RegistryValid()
      ensures AlwaysOnTop() == RemoveFirst(old(AlwaysOnTop()), w)
      ensures Records() == RemoveRecord(old(Records()), w)
      ensures FocusStack() == RemoveFirst(old(FocusStack()), w)
      ensures w !in AlwaysOnTop() && w !in Windows(Records()) && w !in FocusStack()
      ensures old(activeWindow) == w ==>
                && activeWindow == Top(FocusStack())
                && log == old(log) + RestoreCommands(old(Records()), w) + [DeleteActiveWindow] + RefocusCommands(Top(FocusStack()))
      ensures old(activeWindow) != w ==>
                activeWindow == old(activeWindow) && log == old(log) + RestoreCommands(old(Records()), w)
    {
      ForgetWindow(w);
      ForgetFocus(w);
    }

    /** The focus part of handle_destroy_notify (sinwm.c:625-635): a destroyed
        active window hands the focus on, and the window leaves the stack. */
    method ForgetFocus(w: Window)
      requires FocusValid()
      modifies this`activeWindow, this`focusTop, focusStack, this`log
      ensures FocusValid()
      ensures FocusStack() == RemoveFirst(old(FocusStack()), w) && w !in FocusStack()
      ensures old(activeWindow) == w ==>
                activeWindow == Top(FocusStack()) && log == old(log) + [DeleteActiveWindow] + RefocusCommands(Top(FocusStack()))
      ensures old(activeWindow) != w ==> activeWindow == old(activeWindow) && log == old(log)
    {
      if w == activeWindow {
        ReplaceActive(w);
        ghost var rest := FocusStack();
        RemoveFocus(w);
        assert FocusStack() == rest;
      } else {
        RemoveFocus(w);
      }
    }

    /** The focus and restack part of handle_map_request (sinwm.c:665-669):
        focus the new window, then raise every always-on-top window above it. */
    method HandleMapRequest(w: Window)
      requires Disjoint() && FocusValid() && AboveValid()
      modifies this`activeWindow, this`focusTop, focusStack, this`log
      ensures FocusValid() && AboveValid()
      ensures activeWindow == w
      ensures FocusStack() == Push(old(FocusStack()), w)
      ensures log == old(log) + FocusCommands(w) + RaiseAll(AlwaysOnTop())
    {
      SetInputFocus(w);
      RaiseAlwaysOnTop();
    }

    /** handle_focus_in (sinwm.c:673-681). */
    method HandleFocusIn(w: Window, mode: NotifyMode, detail: NotifyDetail)
      requires FocusValid()
      modifies this`activeWindow, this`focusTop, focusStack, this`log
      ensures FocusValid()
      ensures mode == NotifyNormal && (detail == DetailPointer || detail == DetailNone) ==>
                activeWindow == w && FocusStack() == Push(old(FocusStack()), w) && log == old(log) + FocusCommands(w)
      ensures !(mode == NotifyNormal && (detail == DetailPointer || detail == DetailNone)) ==>
                activeWindow == old(activeWindow) && FocusStack() == old(FocusStack()) && log == old(log)
    {
      if mode != NotifyNormal {
        return;
      }
      if detail == DetailPointer || detail == DetailNone {
        SetInputFocus(w);
      }
    }

    /** handle_focus_out (sinwm.c:683-697): losing the active window gives
        the focus to the next window on the stack, or to the root window with
        no active window when the stack is empty. */
    method HandleFocusOut(w: Window, root: Window)
      requires FocusValid()
      modifies this`activeWindow, this`focusTop, focusStack, this`log
      ensures FocusValid()
      ensures old(activeWindow) == w ==>
                && FocusStack() == RemoveFirst(old(FocusStack()), w)
                && activeWindow == Top(FocusStack())
                && log == old(log) + (if Top(FocusStack()) == NONE then [InputFocus(root), DeleteActiveWindow]
                                      else FocusCommands(Top(FocusStack())))
      ensures old(activeWindow) != w ==>
                activeWindow == old(activeWindow) && FocusStack() == old(FocusStack()) && log == old(log)
    {
      if w == activeWindow {
        RemoveFocus(w);
        FocusTopOrRoot(root);
      }
    }

    /** The fallback of handle_focus_out (sinwm.c:687-695): focus the top of
        the stack, or the root window with no active window when it is empty. */
    method FocusTopOrRoot(root: Window)
      requires FocusValid()
      modifies this`activeWindow, this`focusTop, focusStack, this`log
      ensures FocusValid()
      ensures FocusStack() == old(FocusStack()) && activeWindow == Top(FocusStack())
      ensures log == old(log) + (if Top(FocusStack()) == NONE then [InputFocus(root), DeleteActiveWindow]
                                 else FocusCommands(Top(FocusStack())))
    {
      ghost var rest := FocusStack();
      var newFocus := GetTopFocus();
      if newFocus != NONE {
        PushTopUnchanged(rest);
        SetInputFocus(newFocus);
        assert FocusStack() == rest;
      } else {
        log := log + [InputFocus(root)];
        activeWindow := NONE;
        log := log + [DeleteActiveWindow];
      }
    }

    /** handle_configure_request (sinwm.c:699-716): forward exactly the
        requested fields, and send nothing when none was requested. */
    method HandleConfigureRequest(ev: ConfigureRequest)
      modifies this`log
      ensures var (mask, values) := Pack(ev);
              log == old(log) + (if |values| > 0 then [ConfigureWindow(ev.window, mask, values)] else [])
    {
      var (mask, values) := Pack(ev);
      if |values| > 0 {
        log := log + [ConfigureWindow(ev.window, mask, values)];
      }
    }

    // -------------------------------------------------------------- topology

    /** query_xrandr (sinwm.c:334-381). `resources` stands for the screen
        resources reply (None when it failed) with one CRTC info reply per
        CRTC. */
    method QueryXrandr(resources: Option<seq<Option<CrtcInfo>>>)
      requires MonitorsValid()
      modifies this`monitorCount, monitors, this`totalWidth, this`totalHeight
      ensures MonitorsValid()
      ensures resources.None? ==>
                && unchanged(monitors) && monitorCount == old(monitorCount)
                && totalWidth == old(totalWidth) && totalHeight == old(totalHeight)
      ensures resources.Some? ==>
                && Monitors() == QueriedMonitors(resources.value)
                && totalWidth == TotalWidth(Monitors())
                && totalHeight == TotalHeight(Monitors())
    {
      if resources.None? {
        return;
      }
      var crtcs := resources.value;
      monitorCount := 0;
      var i := 0;
      while i < |crtcs|
        invariant 0 <= i <= |crtcs|
        invariant 0 <= monitorCount <= MAX_MONITORS
        invariant monitors[..monitorCount] == Truncate(ActiveMonitors(crtcs[..i]), MAX_MONITORS)
      {
        var reply := crtcs[i];
        ghost var before := ActiveMonitors(crtcs[..i]);
        ActiveMonitorsSnoc(crtcs, i);
        if reply.Some? && reply.value.mode != MODE_NONE && reply.value.width > 0 && reply.value.height > 0 {
          TruncateAppend(before, AsMonitor(i, reply.value), MAX_MONITORS);
          if monitorCount < MAX_MONITORS {
            AppendMonitor(AsMonitor(i, reply.value));
          }
        }
        i := i + 1;
      }
      assert crtcs[..i] == crtcs;
      ComputeTotals();
    }

    /** Store one more monitor after the ones collected so far. */
    method AppendMonitor(m: Monitor)
      requires 0 <= monitorCount < MAX_MONITORS && MonitorsValid()
      modifies this`monitorCount, monitors
      ensures monitorCount == old(monitorCount) + 1
      ensures monitors[..monitorCount] == old(monitors[..monitorCount]) + [m]
    {
      monitors[monitorCount] := m;
      monitorCount := monitorCount + 1;
    }

    /** The second loop of query_xrandr (sinwm.c:368-377): the bounding size of
        the monitor list. */
    method ComputeTotals()
      requires MonitorsValid()
      modifies this`totalWidth, this`totalHeight
      ensures totalWidth == TotalWidth(Monitors()) && totalHeight == TotalHeight(Monitors())
    {
      totalWidth := 0;
      totalHeight := 0;
      var k := 0;
      while k < monitorCount
        invariant 0 <= k <= monitorCount
        invariant totalWidth == TotalWidth(Monitors()[..k])
        invariant totalHeight == TotalHeight(Monitors()[..k])
      {
        TotalsSnoc(Monitors(), k);
        var right := monitors[k].x + monitors[k].width;
        var bottom := monitors[k].y + monitors[k].height;
        if right > totalWidth {
          totalWidth := right;
        }
        if bottom > totalHeight {
          totalHeight := bottom;
        }
        k := k + 1;
      }
      assert Monitors()[..k] == Monitors();
    }

    /** adjust_windows_within_bounds (sinwm.c:463-508). `tree` stands for the
        query-tree reply (None when it failed) with each child's geometry
        reply. */
    method AdjustWindowsWithinBounds(tree: Option<seq<ChildGeometry>>)
      modifies this`log
      ensures log == old(log) + (if tree.None? then [] else AdjustCommands(tree.value, activeWindow, totalWidth, totalHeight))
    {
      if tree.None? {
        return;
      }
      var children := tree.value;
      var i := 0;
      while i < |children|
        invariant 0 <= i <= |children|
        invariant log == old(log) + AdjustCommands(children[..i], activeWindow, totalWidth, totalHeight)
      {
        AdjustCommandsSnoc(children, i, activeWindow, totalWidth, totalHeight);
        var child := children[i];
        if child.window != activeWindow && child.geometry.Some? {
          var g := child.geometry.value;
          var newX := ClampAxis(g.x, g.width, totalWidth);
          var newY := ClampAxis(g.y, g.height, totalHeight);
          if newX != g.x || newY != g.y {
            log := log + [ConfigureWindow(child.window, CONFIG_WINDOW_X | CONFIG_WINDOW_Y, [newX, newY])];
          }
        }
        i := i + 1;
      }
      assert children[..i] == children;
    }

    /** The fullscreen loop of handle_randr_event (sinwm.c:730-749). */
    method RecomputeFullscreen()
      requires RegistryValid() && MonitorsValid()
      modifies this`log
      ensures log == old(log) + RecomputeCommands(Records(), Monitors(), totalWidth, totalHeight)
    {
      ghost var rs := Records();
      var ms := monitors[..monitorCount];
      var i := 0;
      while i < fullscreenCount
        invariant 0 <= i <= fullscreenCount
        invariant log == old(log) + RecomputeCommands(rs[..i], ms, totalWidth, totalHeight)
      {
        RecomputeCommandsSnoc(rs, i, ms, totalWidth, totalHeight);
        var r := fsWindows[i];
        ghost var before := log;
        if r.hasMonitors {
          var g := CalculateFullscreenGeometry(r.monitors, ms, totalWidth, totalHeight);
          if g.Some? {
            log := log + [PlaceOn(r.window, g.value)];
          }
        } else {
          log := log + [MoveResize(r.window, 0, 0, totalWidth, totalHeight)];
        }
        assert log == before + RecomputeCommand(rs[i], ms, totalWidth, totalHeight);
        AppendAssoc(old(log), RecomputeCommands(rs[..i], ms, totalWidth, totalHeight), RecomputeCommand(rs[i], ms, totalWidth, totalHeight));
        i := i + 1;
      }
      assert rs[..i] == rs;
    }

    /** handle_randr_event (sinwm.c:718-755) without the wallpaper refresh:
        re-query the monitors, pull windows back inside, raise the
        always-on-top set and re-place every fullscreen window against the
        new topology. */
    method HandleRandrEvent(resources: Option<seq<Option<CrtcInfo>>>, tree: Option<seq<ChildGeometry>>)
      requires AboveValid() && RegistryValid() && MonitorsValid()
      modifies this`monitorCount, monitors, this`totalWidth, this`totalHeight, this`log
      ensures AboveValid() && RegistryValid() && MonitorsValid()
      ensures resources.None? ==>
                && unchanged(monitors) && monitorCount == old(monitorCount)
                && totalWidth == old(totalWidth) && totalHeight == old(totalHeight)
      ensures resources.Some? ==>
                && Monitors() == QueriedMonitors(resources.value)
                && totalWidth == TotalWidth(Monitors())
                && totalHeight == TotalHeight(Monitors())
      ensures log == old(log)
                     + (if tree.None? then [] else AdjustCommands(tree.value, activeWindow, totalWidth, totalHeight))
                     + RaiseAll(AlwaysOnTop())
                     + RecomputeCommands(Records(), Monitors(), totalWidth, totalHeight)
    {
      QueryXrandr(resources);
      RelayoutWindows(tree);
    }

    /** The part of handle_randr_event after the query: the three passes that
        only send requests against the topology now in place. */
    method RelayoutWindows(tree: Option<seq<ChildGeometry>>)
      requires AboveValid() && RegistryValid() && MonitorsValid()
      modifies this`log
      ensures log == old(log)
                     + (if tree.None? then [] else AdjustCommands(tree.value, activeWindow, totalWidth, totalHeight))
                     + RaiseAll(AlwaysOnTop())
                     + RecomputeCommands(Records(), Monitors(), totalWidth, totalHeight)
    {
      AdjustWindowsWithinBounds(tree);
      RaiseAlwaysOnTop();
      RecomputeFullscreen();
    }
  }
}
