/** Shared vocabulary of the window manager: window identifiers, the
    capacities of the fixed-size registries, and an optional value. */
module Common {

  /** An X11 window identifier. The manager only compares them. */
  type Window = nat

  /** XCB_WINDOW_NONE. */
  const NONE: Window := 0

  /** Capacity of the focus stack, the always-on-top set and the fullscreen registry. */
  const MAX_WINDOWS: nat := 128

  /** Capacity of the monitor list. */
  const MAX_MONITORS: nat := 32

  /** A server reply that may be missing (NULL in C). */
  datatype Option<T> = None | Some(value: T)
}
