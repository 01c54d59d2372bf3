/** The state-free part of adjust_windows_within_bounds (sinwm.c:463-508):
    which top-level windows are moved after a topology change, and where to.
    Only the right and bottom edges are tested: a window whose right edge
    passes total_width, or whose bottom edge passes total_height, is pulled
    back on that axis. The left and top edges are never tested, so a window
    left of or above the origin is not moved on that axis. */
module Adjust {
  import opened Common
  import opened Geometry
  import opened Commands

  /** A child of the root window and its geometry reply (None when the
      query failed). */
  datatype ChildGeometry = ChildGeometry(window: Window, geometry: Option<Rect>)

  /** The configure sent for one child: none for the active window, for a
      failed geometry query, or when neither the right nor the bottom edge
      passes its total. */
  function AdjustCommand(c: ChildGeometry, active: Window, totalWidth: int, totalHeight: int): seq<Command> {
    if c.window == active || c.geometry.None? then []
    else
      var g := c.geometry.value;
      var newX := ClampAxis(g.x, g.width, totalWidth);
      var newY := ClampAxis(g.y, g.height, totalHeight);
      if newX != g.x || newY != g.y then [ConfigureWindow(c.window, CONFIG_WINDOW_X | CONFIG_WINDOW_Y, [newX, newY])]
      else []
  }

  /** The configures for all children, in stacking order. */
  function AdjustCommands(children: seq<ChildGeometry>, active: Window, totalWidth: int, totalHeight: int): (cs: seq<Command>)
    ensures |cs| <= |children|
  {
    if |children| == 0 then []
    else
      AdjustCommands(children[..|children| - 1], active, totalWidth, totalHeight)
      + AdjustCommand(children[|children| - 1], active, totalWidth, totalHeight)
  }

  /** Only non-active windows with a geometry reply are moved, with an X/Y
      configure to the clamped position: not negative on an axis that
      changed, and ending no further right or down than the totals whenever
      the window is no larger than them. */
  lemma {:induction false} AdjustCommandsSound(children: seq<ChildGeometry>, active: Window, totalWidth: int, totalHeight: int)
    ensures forall c <- AdjustCommands(children, active, totalWidth, totalHeight) ::
              && c.ConfigureWindow? && c.window != active
              && c.mask == CONFIG_WINDOW_X | CONFIG_WINDOW_Y && |c.values| == 2
              && exists ch <- children :: ch.window == c.window && ch.geometry.Some? && Moved(ch.geometry.value, c.values, totalWidth, totalHeight)
  {
    if |children| > 0 {
      var prefix := children[..|children| - 1];
      AdjustCommandsSound(prefix, active, totalWidth, totalHeight);
      assert children == prefix + [children[|children| - 1]];
    }
  }

  /** Every non-active child with a geometry reply whose clamp changes its
      position (its right edge passes total_width or its bottom edge passes
      total_height) is moved: its X/Y configure to the clamped position is
      among the commands sent. */
  lemma {:induction false} AdjustCommandsComplete(children: seq<ChildGeometry>, active: Window, totalWidth: int, totalHeight: int)
    ensures forall ch <- children ::
              ch.window != active && ch.geometry.Some?
              && (ClampAxis(ch.geometry.value.x, ch.geometry.value.width, totalWidth) != ch.geometry.value.x
                  || ClampAxis(ch.geometry.value.y, ch.geometry.value.height, totalHeight) != ch.geometry.value.y)
              ==> ConfigureWindow(ch.window, CONFIG_WINDOW_X | CONFIG_WINDOW_Y,
                                  [ClampAxis(ch.geometry.value.x, ch.geometry.value.width, totalWidth),
                                   ClampAxis(ch.geometry.value.y, ch.geometry.value.height, totalHeight)])
                  in AdjustCommands(children, active, totalWidth, totalHeight)
  {
    if |children| > 0 {
      var prefix := children[..|children| - 1];
      AdjustCommandsComplete(prefix, active, totalWidth, totalHeight);
      assert children == prefix + [children[|children| - 1]];
    }
  }

  /** AdjustCommands over one more child. */
  lemma AdjustCommandsSnoc(children: seq<ChildGeometry>, i: nat, active: Window, totalWidth: int, totalHeight: int)
    requires i < |children|
    ensures AdjustCommands(children[..i + 1], active, totalWidth, totalHeight)
            == AdjustCommands(children[..i], active, totalWidth, totalHeight) + AdjustCommand(children[i], active, totalWidth, totalHeight)
  {
    assert children[..i + 1][..i] == children[..i];
  }

  /** `values` is where the clamp puts a window with geometry `g`. */
  ghost predicate Moved(g: Rect, values: seq<int>, totalWidth: int, totalHeight: int)
    requires |values| == 2
  {
    && values[0] == ClampAxis(g.x, g.width, totalWidth)
    && values[1] == ClampAxis(g.y, g.height, totalHeight)
    && (g.width <= totalWidth ==> values[0] + g.width <= totalWidth)
    && (g.height <= totalHeight ==> values[1] + g.height <= totalHeight)
    && (values[0] != g.x ==> values[0] >= 0)
    && (values[1] != g.y ==> values[1] >= 0)
  }

  /** A window entirely left of the origin whose bottom edge is within
      total_height is not moved: the left edge is never tested. */
  lemma LeftOfScreenNotMoved(w: Window, g: Rect, active: Window, totalWidth: int, totalHeight: int)
    requires w != active && g.x + g.width <= 0 && totalWidth >= 0 && g.y + g.height <= totalHeight
    ensures AdjustCommands([ChildGeometry(w, Some(g))], active, totalWidth, totalHeight) == []
  {
    assert [ChildGeometry(w, Some(g))][..0] == [];
  }

  /** A window below the screen is pulled up, but its negative x is kept. */
  lemma PulledUpStaysLeft()
    ensures AdjustCommands([ChildGeometry(5, Some(Rect(-5000, 2000, 100, 100)))], NONE, 1920, 1080)
            == [ConfigureWindow(5, CONFIG_WINDOW_X | CONFIG_WINDOW_Y, [-5000, 980])]
  {
    assert [ChildGeometry(5, Some(Rect(-5000, 2000, 100, 100)))][..0] == [];
  }
}
