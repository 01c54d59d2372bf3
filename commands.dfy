/** The requests the window manager sends to the X server, recorded instead
    of performed: configure (move, resize, restack), set input focus, and the
    property writes for _NET_ACTIVE_WINDOW and _NET_WM_STATE. */
module Commands {
  import opened Common

  /** xcb_config_window_t bits, in value-list order. */
  const CONFIG_WINDOW_X: bv16 := 1
  const CONFIG_WINDOW_Y: bv16 := 2
  const CONFIG_WINDOW_WIDTH: bv16 := 4
  const CONFIG_WINDOW_HEIGHT: bv16 := 8
  const CONFIG_WINDOW_BORDER_WIDTH: bv16 := 16
  const CONFIG_WINDOW_SIBLING: bv16 := 32
  const CONFIG_WINDOW_STACK_MODE: bv16 := 64

  /** XCB_STACK_MODE_ABOVE and XCB_STACK_MODE_BELOW. */
  const STACK_MODE_ABOVE: int := 0
  const STACK_MODE_BELOW: int := 1

  datatype Command =
    | ConfigureWindow(window: Window, mask: bv16, values: seq<int>)
    | InputFocus(window: Window)
    | ChangeActiveWindow(window: Window)
    | DeleteActiveWindow
    | ChangeWmStateFullscreen(window: Window)
    | DeleteWmState(window: Window)

  /** A configure with x, y, width and height. */
  function MoveResize(w: Window, x: int, y: int, width: int, height: int): Command {
    ConfigureWindow(w, CONFIG_WINDOW_X | CONFIG_WINDOW_Y | CONFIG_WINDOW_WIDTH | CONFIG_WINDOW_HEIGHT,
                    [x, y, width, height])
  }

  /** A configure with only the stack mode. */
  function Restack(w: Window, mode: int): Command {
    ConfigureWindow(w, CONFIG_WINDOW_STACK_MODE, [mode])
  }

  /** Raising every window of `ws`, in order. */
  function RaiseAll(ws: seq<Window>): (cs: seq<Command>)
    ensures |cs| == |ws|
  {
    if |ws| == 0 then []
    else RaiseAll(ws[..|ws| - 1]) + [Restack(ws[|ws| - 1], STACK_MODE_ABOVE)]
  }

  /** The k-th command raises the k-th window, and nothing else is sent. */
  lemma {:induction false} RaiseAllRestacks(ws: seq<Window>)
    ensures forall k :: 0 <= k < |ws| ==> RaiseAll(ws)[k] == Restack(ws[k], STACK_MODE_ABOVE)
  {
    if |ws| > 0 {
      var init := ws[..|ws| - 1];
      RaiseAllRestacks(init);
      assert forall k :: 0 <= k < |init| ==> ws[k] == init[k];
    }
  }
}
