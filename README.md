# sinwm bookkeeping, modelled in Dafny

sinwm is a small X11 window manager written in C against xcb. It keeps all of
its state in global fixed-size arrays: a focus stack, an always-on-top set, a
registry of fullscreen windows, and a monitor list with its bounding size.
The event handlers change that state and send requests to the X server.

This project models that bookkeeping as one Dafny class, `Sinwm.WindowManager`.
It has the same arrays, counters and capacities: MAX_WINDOWS = 128 and
MAX_MONITORS = 32. Its methods follow the C functions loop for loop, and the
value modules give their specifications.

- Requests to the X server are not performed. They are appended to a ghost
  log of `Commands.Command` values in the order the C code issues them:
  configures, restacks, input focus, the `_NET_ACTIVE_WINDOW` and
  `_NET_WM_STATE` property writes, and the deletions of those two properties
  (sinwm.c:222 and 449).
- Server replies become parameters: a window's geometry reply, the query-tree
  reply with each child's geometry, and the RandR screen resources with one
  CRTC info reply per CRTC. A missing reply (NULL in C) is `None`.

Modules:

- `Common`: window ids with `NONE = 0`, the capacities MAX_WINDOWS and
  MAX_MONITORS, and `Option` for a reply that may be missing.
- `Commands`: the requests sent to the X server, as values of the ghost log.
- `Sequences`: duplicate freedom, first-occurrence search, and deletion with
  the later elements shifted down. `Without` is a filter used as the
  reference definition. `WindowListValid` is the invariant shared by the
  focus stack and the always-on-top set: no window twice, and at most
  MAX_WINDOWS entries.
- `FocusSpec`, `AboveSpec`, `Fullscreen`, `Geometry`, `Topology`, `Adjust`
  and `ConfigurePacking` are the value-level specifications. `AboveSpec`
  includes a set-based reference semantics for the EWMH remove/add/toggle
  actions 0/1/2.
- `ArrayOps`: the in-place search and shift-delete loops the registries
  share.
- `Sinwm`: the state and the handlers.

Each handler requires and ensures only the parts of the state invariant it
touches. The parts are the focus stack, the always-on-top set, the registry
and the monitor count.

Behaviour of sinwm.c that the model keeps as written:

- After a successful RandR query, the totals are recomputed from the monitors
  found and become 0 when none is found (sinwm.c:368-377).
- A `_NET_WM_FULLSCREEN_MONITORS` span selects the whole virtual screen
  `(0, 0, total_width, total_height)` when any one of its four indices is -1
  (sinwm.c:384-389).
- General fullscreen stretches the window over the root screen's
  `width_in_pixels` × `height_in_pixels` (sinwm.c:552-563), passed in as
  `screenWidth` and `screenHeight`. The topology recompute uses
  `total_width` × `total_height` (sinwm.c:745).
- After a topology change, a window is moved by a clamp on each axis
  separately that tests only the right and bottom edges (sinwm.c:486-496).
  A window whose right edge passes `total_width` is moved to
  `max(0, total_width - width)`, and likewise for the bottom edge and
  `total_height`. The left and top edges are never tested, so a window left
  of or above the origin is not moved on that axis. The active window and every child whose geometry query fails are skipped
  (sinwm.c:478-484).
- A window in monitor-span fullscreen mode ignores every `_NET_WM_STATE`
  fullscreen request, the remove action included (sinwm.c:547-550), so no
  `_NET_WM_STATE` message takes it out of fullscreen.
  `Sinwm.WindowManager.ApplyFullscreenState` keeps this early return.

## Model

| member | source | states |
|---|---|---|
| Sequences.IndexOf | sinwm.c:270-276 | the search yields -1 exactly when the element is absent, and otherwise the index of its first occurrence |
| Sequences.WithoutMembers | sinwm.c:286-296 | deleting `x` keeps exactly the elements other than `x` |
| Sequences.WithoutNoDups | sinwm.c:191-201 | deleting from a duplicate-free sequence leaves it duplicate-free |
| Sequences.RemoveFirstIsWithout | sinwm.c:191-201 | on a duplicate-free sequence, the shift-delete of the first occurrence equals the filter: the element disappears and the others keep their order |
| ArrayOps.Find | sinwm.c:270-276 | the search loop over the first `n` array entries returns the index of the first occurrence, or -1 |
| ArrayOps.DeleteAt | sinwm.c:289-293 | the shift loop leaves the first `n-1` entries equal to the old entries without entry `i`, in order, and does not touch entry `n-1` onwards |
| ArrayOps.Remove | sinwm.c:191-201 | find-and-shift deletes the first occurrence; the count drops by one exactly when the element was there |
| FocusSpec.RemoveKeepsInvariant | sinwm.c:191-201 | remove_focus keeps the stack duplicate-free and within MAX_WINDOWS, removes `w`, and keeps the others in order |
| FocusSpec.PushKeepsInvariant | sinwm.c:176-189 | push_focus keeps the stack duplicate-free and within MAX_WINDOWS |
| FocusSpec.PushMakesTop | sinwm.c:176-189 | when `w` was on the stack or there was room, `w` is the only top entry and the others keep their relative order |
| FocusSpec.PushOnFullStack | sinwm.c:187-188 | pushing an absent window on a full stack leaves the stack unchanged |
| FocusSpec.PushTopUnchanged | sinwm.c:176-189 | pushing the current top leaves the stack unchanged |
| FocusSpec.PushIdempotent | sinwm.c:176-189 | pushing the same window twice equals pushing it once |
| FocusSpec.RemoveTopFallsBack | sinwm.c:625-633 | after the top of a stack of two or more is removed, the new top is the entry that was below it |
| AboveSpec.AddProperties | sinwm.c:278-284 | add keeps the set duplicate-free and within MAX_WINDOWS; `w` is a member afterwards exactly when it was one or there was room; nobody else's membership changes |
| AboveSpec.RemoveProperties | sinwm.c:286-296 | remove keeps the invariant, drops `w`, and keeps everybody else |
| AboveSpec.ApplyKeepsInvariant | sinwm.c:516-535 | each of actions 0, 1 and 2, and any other action value, keeps the set duplicate-free and within capacity |
| AboveSpec.ToggleFlips | sinwm.c:525-534 | action 2 flips `w`'s membership when an add has room |
| AboveSpec.ApplyMatchesSet | sinwm.c:516-535 | one request changes membership exactly as the set semantics of remove/add/toggle says, whenever `w` is a member or the set has room (so remove and toggle-off on a full set are included) |
| AboveSpec.NetEffect | sinwm.c:516-535 | for a request sequence of any length whose windows, together with the current members, number at most MAX_WINDOWS, the set never holds a duplicate and its members are exactly the net effect of the requests on a mathematical set |
| AboveSpec.OneWindowStream | sinwm.c:516-535 | any number of requests about one window, on a set with room, keep the set duplicate-free and give exactly the set-semantics membership |
| Geometry.CalculateFullscreenGeometry | sinwm.c:383-410 | fails exactly when no index is -1 and some index is outside the monitor list; any -1 index gives (0, 0, total_width, total_height) |
| Geometry.SpanEdges | sinwm.c:391-403 | a valid span reaches from the left monitor's x and the top monitor's y to the right monitor's right edge and the bottom monitor's bottom edge |
| Geometry.SingleMonitorSpan | sinwm.c:383-410 | a span naming one monitor four times covers exactly that monitor |
| Geometry.SideBySideExample | sinwm.c:383-410 | monitors 1920x1080 at 0,0 and 1280x1024 at 1920,0 with span (0,0,1,1) give x1=1920, y1=0, x2=3200, y2=1080 |
| Geometry.ClampAxis | sinwm.c:486-496 | a position that fits is kept; one that overflows is moved so the window ends at the total, or to 0 when the window is larger; the result is never negative when moved |
| Geometry.ClampIdempotent | sinwm.c:486-496 | clamping a clamped position changes nothing |
| Topology.ActiveMonitorsSound | sinwm.c:348-365 | every monitor comes from a CRTC with a reply, a mode and a positive size, carries that CRTC's index and geometry, and the monitors are in increasing CRTC order |
| Topology.ActiveMonitorsComplete | sinwm.c:348-365 | every usable CRTC yields a monitor |
| Topology.Truncate | sinwm.c:353-361 | at most `n` monitors are kept, as a prefix of the usable ones, and all of them when they fit |
| Topology.TruncateAppend | sinwm.c:353-361 | one more usable CRTC extends the kept list only while there is room |
| Topology.TotalsBoundMonitors | sinwm.c:368-377 | the totals bound every monitor's right and bottom edge, and each total is 0 or reached by a monitor |
| Topology.WholeScreenCoversMonitors | sinwm.c:384-389 | with the queried totals, the whole-screen span starts at the origin and covers every monitor |
| Commands.RaiseAllRestacks | sinwm.c:666-669 | the k-th restack sent raises the k-th always-on-top window above, and nothing else is sent |
| Fullscreen.RemoveRecordProperties | sinwm.c:440-461 | deleting a record deletes its window from the registry and nothing else: no duplicate appears, the window has no record left, and every remaining record was there before |
| Fullscreen.RecomputeCommandsCover | sinwm.c:730-749 | after a topology change only registered windows are configured; every record without a span is stretched over the virtual screen, and every record whose span is still valid is placed on that span |
| Adjust.AdjustCommandsSound | sinwm.c:463-508 | only non-active windows with a geometry reply are moved, by an X/Y configure, to the clamped position: ending no further right or down than the totals whenever the window is no larger than them, and never negative on a changed axis |
| Adjust.AdjustCommandsComplete | sinwm.c:463-508 | every non-active window with a geometry reply whose clamp changes its position (right edge past `total_width` or bottom edge past `total_height`) is sent the X/Y configure to its clamped position |
| Adjust.LeftOfScreenNotMoved | sinwm.c:486-496 | a non-active window entirely left of the origin with its bottom edge within `total_height` is sent no configure, because the left edge is never tested |
| Adjust.PulledUpStaysLeft | sinwm.c:486-496 | a window below the screen is pulled up to end at the bottom total while its negative x is kept |
| ConfigurePacking.PackSelects | sinwm.c:704-711 | the forwarded mask is the request's mask cut to the seven configurable bits, and the values are exactly the requested fields in bit order |
| ConfigurePacking.PackRoundTrip | sinwm.c:699-716 | decoding the forwarded mask and values gives back exactly the requested fields and nothing for the others |
| Sinwm.UpdatesRecordKeepsWindows | sinwm.c:594-603 | looking up before adding keeps one record per window; a new window is appended at the end |
| Sinwm.UpdatedKeepsRegistry | sinwm.c:594-611 | writing a record whose modes are consistent at the found or new index keeps the registry invariant: one record per window, modes exclusive, monitor mode exactly when a span is held |
| Sinwm.FullscreenStateKeepsRegistry | sinwm.c:538-567 | a _NET_WM_STATE fullscreen request never sets both modes on a record and never creates a second record for a window |
| Sinwm.SpanKeepsRegistry | sinwm.c:578-613 | a span request never sets both modes on a record and never creates a second record for a window |
| Sinwm.WindowManager.constructor | sinwm.c:30-60 | the globals start empty: no focus, no always-on-top window, no record, no monitor, zero totals |
| Sinwm.WindowManager.PushFocus | sinwm.c:176-189 | the array stack becomes `Push` of the old stack and keeps its invariant |
| Sinwm.WindowManager.RemoveFocus | sinwm.c:191-201 | the array stack loses `w` and keeps the rest in order; nothing changes when `w` was absent |
| Sinwm.WindowManager.GetTopFocus | sinwm.c:203-207 | returns the top entry, or NONE for an empty stack |
| Sinwm.WindowManager.SetInputFocus | sinwm.c:209-217 | `w` becomes active and is pushed; it is the new top unless the stack was full without it; sends input focus then `_NET_ACTIVE_WINDOW` |
| Sinwm.WindowManager.IsAlwaysOnTop | sinwm.c:270-276 | true exactly for members |
| Sinwm.WindowManager.AddToAlwaysOnTop | sinwm.c:278-284 | the array set becomes `Add` of the old set and keeps its invariant |
| Sinwm.WindowManager.RemoveFromAlwaysOnTop | sinwm.c:286-296 | the array set loses `w` and keeps the rest in order; nothing changes when `w` was absent |
| Sinwm.WindowManager.ApplyAboveState | sinwm.c:516-536 | the set changes as actions 0/1/2 say, and the matching restack below or above is sent |
| Sinwm.WindowManager.RaiseAlwaysOnTop | sinwm.c:666-669 | one raise per always-on-top window, in set order |
| Sinwm.WindowManager.FindRecord | sinwm.c:539-545 | returns the index of the window's record, or -1 |
| Sinwm.WindowManager.IsFullscreenWindow | sinwm.c:298-304 | true exactly for windows with a record |
| Sinwm.WindowManager.AddFullscreenWindow | sinwm.c:412-438 | a full registry or a failed geometry query gives -1 and no change; otherwise one record is appended with the queried geometry and both flags clear |
| Sinwm.WindowManager.RemoveFullscreenWindow | sinwm.c:440-461 | the window's record goes and the others keep their order; the window is restored to the geometry frozen when the record was made; an absent window changes nothing and sends nothing |
| Sinwm.WindowManager.ApplyFullscreenState | sinwm.c:538-567 | a window in monitor mode is left alone; action 1 makes it general fullscreen on the screen size and always on top; action 0 restores it; any other action changes nothing; the registry invariant is kept |
| Sinwm.WindowManager.MakeGeneralFullscreen | sinwm.c:552-563 | with a record found or made, the general flag is set, the geometry frozen in the record is kept, the window is stretched over the screen and kept above; without one nothing changes |
| Sinwm.WindowManager.ApplyFullscreenMonitors | sinwm.c:578-613 | an invalid span changes nothing and sends nothing; a valid one places the window and records the span in monitor mode with the general flag clear |
| Sinwm.WindowManager.HandleWmState | sinwm.c:511-568 | the above request is applied first, then the fullscreen request starts from its result |
| Sinwm.WindowManager.ActivateWindow | sinwm.c:569-575 | NONE is ignored; any other target is raised, focused, made active and pushed |
| Sinwm.WindowManager.HandleClientMessage | sinwm.c:510-614 | each message type changes exactly its part of the state as the steps above say; unknown types change nothing |
| Sinwm.WindowManager.ForgetWindow | sinwm.c:619-623 | the window leaves the always-on-top set and the registry, and a fullscreen window is restored |
| Sinwm.WindowManager.ReplaceActive | sinwm.c:625-633 | the destroyed active window leaves the stack and the new top, or NONE, becomes active |
| Sinwm.WindowManager.ForgetFocus | sinwm.c:625-635 | the window leaves the focus stack; if it was active, the new top or NONE becomes active |
| Sinwm.WindowManager.HandleDestroyNotify | sinwm.c:616-638 | afterwards the window is in no registry; if it was active, the new active window is the new top of the stack, or NONE when the stack is empty |
| Sinwm.WindowManager.HandleMapRequest | sinwm.c:665-669 | the new window is focused and pushed, then every always-on-top window is raised above it |
| Sinwm.WindowManager.HandleFocusIn | sinwm.c:673-681 | only a NotifyNormal event with detail Pointer or None moves the focus |
| Sinwm.WindowManager.HandleFocusOut | sinwm.c:683-697 | losing the active window removes it from the stack and focuses the new top, or the root with no active window when the stack is empty; other windows change nothing |
| Sinwm.WindowManager.FocusTopOrRoot | sinwm.c:687-695 | the top of the stack is focused, or, with an empty stack, the root is focused and the active window cleared |
| Sinwm.WindowManager.HandleConfigureRequest | sinwm.c:699-716 | forwards the packed mask and values, and sends nothing when no field was requested |
| Sinwm.WindowManager.QueryXrandr | sinwm.c:334-381 | a failed resources query keeps the monitors and totals; otherwise the monitors are the usable CRTCs in CRTC order, truncated to MAX_MONITORS, and the totals are their bounding size |
| Sinwm.WindowManager.AppendMonitor | sinwm.c:356-361 | one more monitor is stored after the ones kept so far |
| Sinwm.WindowManager.ComputeTotals | sinwm.c:368-377 | the totals become the largest right and bottom edges, or 0 for no monitor |
| Sinwm.WindowManager.AdjustWindowsWithinBounds | sinwm.c:463-508 | a failed tree query sends nothing; otherwise the configures are exactly those AdjustCommands gives, in stacking order: one for each non-active child with a geometry reply whose clamp changes its position, and no others |
| Sinwm.WindowManager.RecomputeFullscreen | sinwm.c:730-749 | the configures are exactly those RecomputeCommands gives against the current monitors and totals, in registry order |
| Sinwm.WindowManager.HandleRandrEvent | sinwm.c:718-755 | re-query, adjust, raise, recompute, in that order, each against the new topology; the focus stack, set and registry are untouched |

## Left out

- Wallpaper loading and drawing (sinwm.c:65-174, and the refresh at the end of
  handle_randr_event): PNG decoding and pixmap blits are foreign-library
  rendering.
- setup_atoms and setup_ewmh (sinwm.c:226-332): interning atoms and publishing
  fixed properties are server round-trips only. Atoms are the `StateAtom` and
  `ClientMessage` constructors instead.
- main (sinwm.c:757-828): connection setup, the check for another window
  manager, the RandR presence check and the blocking event loop.
- The attribute change, map, WM_PROTOCOLS write and name defaulting of
  handle_map_request (sinwm.c:641-663): they depend on property replies and
  keep no state of the manager's own.
- Logging to stderr and xcb_flush.
- Integer widths: window ids, coordinates and sizes are unbounded integers.
  The 16-bit geometry reply fields and the uint32_t casts of configure values
  are not modelled. A negative coordinate is logged as the integer itself.
- Sinwm.WindowManager.AddFullscreenWindow: requires that the window has no
  record, because both callers look it up first. The C function itself does
  not check for a duplicate.
- Sinwm.WindowManager.AddFullscreenWindow: a new record keeps whatever span
  its array slot held before, as in C. Nothing reads it while the record has
  no span.
- Sinwm.WindowManager.SetInputFocus: when the stack is full and does not hold
  the window, push_focus does nothing, so the active window is not the top of
  the stack. The contract states "active is the top" only when the stack had
  room or held the window.
- Sinwm.WindowManager.HandleDestroyNotify: like the other handlers, it
  requires and ensures only the parts of the invariant it touches. The
  monitor part is unchanged by its frame.
- Sinwm.WindowManager.ApplyFullscreenMonitors: when the span request creates
  the window's record, the geometry query runs after the span configure has
  been sent (sinwm.c:591 before 603). The X server answers requests in order,
  so in the running system the frozen "original" geometry is the span
  rectangle, not the geometry from before fullscreen. The model takes the
  geometry reply as a free parameter and does not tie it to the configure
  just logged. The general path queries before it configures (sinwm.c:554).
- Ordering across separate X requests and round-trips is not modelled. The
  log records the order in which the C code issues requests, not when the
  server applies them.
