/** Rectangles, monitors and the _NET_WM_FULLSCREEN_MONITORS geometry rule of
    the Extended Window Manager Hints (sinwm.c:383-410), plus the per-axis
    clamp that keeps a window inside the virtual screen (sinwm.c:486-496). */
module Geometry {
  import opened Common

  /** xcb_rectangle_t / a geometry reply: position and size. */
  datatype Rect = Rect(x: int, y: int, width: int, height: int)

  /** monitor_t: the CRTC index it came from, its position and its size. */
  datatype Monitor = Monitor(id: int, x: int, y: int, width: int, height: int)

  /** The four monitor indices of a span request, in protocol order
      (xs[0] .. xs[3]: top, bottom, left, right). */
  datatype Span = Span(top: int, bottom: int, left: int, right: int)

  /** The corners calculate_fullscreen_geometry writes to x1, y1, x2, y2. */
  datatype Bounds = Bounds(x1: int, y1: int, x2: int, y2: int)

  /** Some index is -1: the request means the whole virtual screen. */
  predicate IsSentinel(xs: Span) {
    xs.top == -1 || xs.bottom == -1 || xs.left == -1 || xs.right == -1
  }

  /** Every index names a monitor of a list of `count` monitors. */
  predicate IndicesInRange(xs: Span, count: int) {
    && 0 <= xs.top < count && 0 <= xs.bottom < count
    && 0 <= xs.left < count && 0 <= xs.right < count
  }

  /** calculate_fullscreen_geometry: None stands for its -1 return. */
  function CalculateFullscreenGeometry(xs: Span, monitors: seq<Monitor>, totalWidth: int, totalHeight: int): (r: Option<Bounds>)
    ensures r.None? <==> !IsSentinel(xs) && !IndicesInRange(xs, |monitors|)
    ensures IsSentinel(xs) ==> r == Some(Bounds(0, 0, totalWidth, totalHeight))
  {
    if IsSentinel(xs) then Some(Bounds(0, 0, totalWidth, totalHeight))
    else if IndicesInRange(xs, |monitors|) then
      var top, bottom, left, right := monitors[xs.top], monitors[xs.bottom], monitors[xs.left], monitors[xs.right];
      Some(Bounds(left.x, top.y, right.x + right.width, bottom.y + bottom.height))
    else None
  }

  /** A valid span reaches from the left monitor's left edge and the top
      monitor's top edge to the right monitor's right edge and the bottom
      monitor's bottom edge. */
  lemma SpanEdges(xs: Span, monitors: seq<Monitor>, totalWidth: int, totalHeight: int)
    requires !IsSentinel(xs) && IndicesInRange(xs, |monitors|)
    ensures var r := CalculateFullscreenGeometry(xs, monitors, totalWidth, totalHeight);
            && r.Some?
            && r.value.x1 == monitors[xs.left].x
            && r.value.y1 == monitors[xs.top].y
            && r.value.x2 == monitors[xs.right].x + monitors[xs.right].width
            && r.value.y2 == monitors[xs.bottom].y + monitors[xs.bottom].height
  {
  }

  /** A span naming one monitor four times covers exactly that monitor. */
  lemma SingleMonitorSpan(i: int, monitors: seq<Monitor>, totalWidth: int, totalHeight: int)
    requires 0 <= i < |monitors|
    ensures var m := monitors[i];
            CalculateFullscreenGeometry(Span(i, i, i, i), monitors, totalWidth, totalHeight)
              == Some(Bounds(m.x, m.y, m.x + m.width, m.y + m.height))
  {
  }

  /** Two side-by-side monitors (1920x1080 at the origin, 1280x1024 to its
      right); top = bottom = monitor 0 and left = right = monitor 1. */
  lemma SideBySideExample()
    ensures CalculateFullscreenGeometry(Span(0, 0, 1, 1),
              [Monitor(0, 0, 0, 1920, 1080), Monitor(1, 1920, 0, 1280, 1024)], 3200, 1080)
            == Some(Bounds(1920, 0, 3200, 1080))
  {
  }

  /** One axis of adjust_windows_within_bounds: a window whose far edge is
      past `total` is pulled back so that it ends at `total`, but never to a
      negative position. */
  function ClampAxis(pos: int, size: int, total: int): (p: int)
    ensures pos + size <= total ==> p == pos
    ensures pos + size > total ==> p >= 0
    ensures pos + size > total && size <= total ==> p + size == total
    ensures pos + size > total && size > total ==> p == 0
  {
    if pos + size > total then
      (if total - size < 0 then 0 else total - size)
    else pos
  }

  /** Clamping an already clamped position changes nothing. */
  lemma ClampIdempotent(pos: int, size: int, total: int)
    ensures ClampAxis(ClampAxis(pos, size, total), size, total) == ClampAxis(pos, size, total)
  {
  }
}
