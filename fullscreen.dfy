/** The fullscreen registry as values: one record per fullscreen window
    (fullscreen_window_t, sinwm.c:33-43), its lookup and deletion, the
    geometry restore, and the recompute after a topology change. */
module Fullscreen {
  import opened Common
  import opened Sequences
  import opened Geometry
  import opened Commands

  /** fullscreen_window_t. The C flags are ints that only ever hold 0 or 1. */
  datatype FullscreenRecord = FullscreenRecord(
    window: Window,
    originalGeometry: Rect,
    monitors: Span,
    hasMonitors: bool,
    isGeneralFullscreen: bool,
    isMonitorFullscreen: bool)

  /** The two modes exclude each other, and a record is in monitor mode
      exactly when it holds a span. */
  predicate ModesConsistent(r: FullscreenRecord) {
    && !(r.isGeneralFullscreen && r.isMonitorFullscreen)
    && (r.isMonitorFullscreen <==> r.hasMonitors)
  }

  /** The windows of the records, in registry order. */
  function Windows(rs: seq<FullscreenRecord>): (ws: seq<Window>)
    ensures |ws| == |rs|
    ensures forall k :: 0 <= k < |rs| ==> ws[k] == rs[k].window
  {
    seq(|rs|, k requires 0 <= k < |rs| => rs[k].window)
  }

  /** Index of the window's record, or -1. */
  function RecordIndex(rs: seq<FullscreenRecord>, w: Window): int {
    IndexOf(Windows(rs), w)
  }

  /** remove_fullscreen_window on the registry: the window's record goes, the
      later ones shift down. */
  function RemoveRecord(rs: seq<FullscreenRecord>, w: Window): seq<FullscreenRecord> {
    var i := RecordIndex(rs, w);
    if i == -1 then rs else rs[..i] + rs[i + 1..]
  }

  /** Deleting a record deletes its window from the window list and nothing
      else; on a registry with one record per window, the window has no
      record left and the rest keep their order. */
  lemma RemoveRecordProperties(rs: seq<FullscreenRecord>, w: Window)
    requires NoDups(Windows(rs))
    ensures Windows(RemoveRecord(rs, w)) == Without(Windows(rs), w)
    ensures NoDups(Windows(RemoveRecord(rs, w)))
    ensures w !in Windows(RemoveRecord(rs, w))
    ensures forall r <- RemoveRecord(rs, w) :: r in rs
  {
    var i := RecordIndex(rs, w);
    if i != -1 {
      assert Windows(rs[..i] + rs[i + 1..]) == Windows(rs)[..i] + Windows(rs)[i + 1..];
    }
    RemoveFirstIsWithout(Windows(rs), w);
    WithoutMembers(Windows(rs), w);
  }

  /** What remove_fullscreen_window sends: nothing for a window without a
      record; otherwise delete _NET_WM_STATE and configure the window back to
      the geometry recorded when the record was created. */
  function RestoreCommands(rs: seq<FullscreenRecord>, w: Window): seq<Command> {
    var i := RecordIndex(rs, w);
    if i == -1 then []
    else
      var g := rs[i].originalGeometry;
      [DeleteWmState(w), MoveResize(w, g.x, g.y, g.width, g.height)]
  }

  /** The configure that places a window on a geometry result. */
  function PlaceOn(w: Window, b: Bounds): Command {
    MoveResize(w, b.x1, b.y1, b.x2 - b.x1, b.y2 - b.y1)
  }

  /** One step of the topology-change loop: a record with a span is placed on
      the span recomputed against the current monitors (or skipped if the
      span is now invalid); any other record covers the virtual screen. */
  function RecomputeCommand(r: FullscreenRecord, ms: seq<Monitor>, totalWidth: int, totalHeight: int): seq<Command> {
    if r.hasMonitors then
      match CalculateFullscreenGeometry(r.monitors, ms, totalWidth, totalHeight)
      case Some(b) => [PlaceOn(r.window, b)]
      case None => []
    else [MoveResize(r.window, 0, 0, totalWidth, totalHeight)]
  }

  /** The whole loop over the registry, in registry order. */
  function RecomputeCommands(rs: seq<FullscreenRecord>, ms: seq<Monitor>, totalWidth: int, totalHeight: int): (cs: seq<Command>)
    ensures |cs| <= |rs|
  {
    if |rs| == 0 then []
    else RecomputeCommands(rs[..|rs| - 1], ms, totalWidth, totalHeight) + RecomputeCommand(rs[|rs| - 1], ms, totalWidth, totalHeight)
  }

  /** After a topology change only registered windows are configured; every
      general-fullscreen record is stretched over the whole virtual screen and
      every record whose span is still valid is placed on that span. */
  lemma {:induction false} RecomputeCommandsCover(rs: seq<FullscreenRecord>, ms: seq<Monitor>, totalWidth: int, totalHeight: int)
    ensures var cs := RecomputeCommands(rs, ms, totalWidth, totalHeight);
            && (forall c <- cs :: c.ConfigureWindow? && c.window in Windows(rs))
            && (forall r <- rs :: !r.hasMonitors ==> MoveResize(r.window, 0, 0, totalWidth, totalHeight) in cs)
            && (forall r <- rs :: r.hasMonitors && CalculateFullscreenGeometry(r.monitors, ms, totalWidth, totalHeight).Some? ==>
                  PlaceOn(r.window, CalculateFullscreenGeometry(r.monitors, ms, totalWidth, totalHeight).value) in cs)
  {
    if |rs| > 0 {
      var prefix := rs[..|rs| - 1];
      RecomputeCommandsCover(prefix, ms, totalWidth, totalHeight);
      assert rs == prefix + [rs[|rs| - 1]];
      assert forall w <- Windows(prefix) :: w in Windows(rs);
    }
  }

  /** RecomputeCommands over one more record. */
  lemma RecomputeCommandsSnoc(rs: seq<FullscreenRecord>, i: nat, ms: seq<Monitor>, totalWidth: int, totalHeight: int)
    requires i < |rs|
    ensures RecomputeCommands(rs[..i + 1], ms, totalWidth, totalHeight)
            == RecomputeCommands(rs[..i], ms, totalWidth, totalHeight) + RecomputeCommand(rs[i], ms, totalWidth, totalHeight)
  {
    assert rs[..i + 1][..i] == rs[..i];
  }
}
