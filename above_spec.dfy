/** The always-on-top set as a value (sinwm.c:30-31, 270-296) and the
    remove/add/toggle actions of a _NET_WM_STATE client message (action 0, 1
    and 2 of the Extended Window Manager Hints). */
module AboveSpec {
  import opened Common
  import opened Sequences

  /** _NET_WM_STATE_REMOVE, _NET_WM_STATE_ADD, _NET_WM_STATE_TOGGLE. */
  const ACTION_REMOVE: int := 0
  const ACTION_ADD: int := 1
  const ACTION_TOGGLE: int := 2

  /** add_to_always_on_top: no-op when present or full, otherwise append. */
  function Add(s: seq<Window>, w: Window): seq<Window>
  {
    if w in s then s
    else if |s| < MAX_WINDOWS then s + [w]
    else s
  }

  /** The membership change a _NET_WM_STATE_ABOVE request makes; any other
      action value is ignored. */
  function Apply(s: seq<Window>, w: Window, action: int): seq<Window>
  {
    if action == ACTION_ADD then Add(s, w)
    else if action == ACTION_REMOVE then RemoveFirst(s, w)
    else if action == ACTION_TOGGLE then (if w in s then RemoveFirst(s, w) else Add(s, w))
    else s
  }

  /** Add keeps the invariant; `w` is a member afterwards exactly when it was
      one or there was room; nobody else's membership changes. */
  lemma AddProperties(s: seq<Window>, w: Window)
    requires WindowListValid(s)
    ensures WindowListValid(Add(s, w))
    ensures w in Add(s, w) <==> w in s || |s| < MAX_WINDOWS
    ensures forall y :: y != w ==> (y in Add(s, w) <==> y in s)
    ensures |Add(s, w)| <= |s| + 1
  {
    if w !in s && |s| < MAX_WINDOWS {
      var r := s + [w];
      forall i, j | 0 <= i < j < |r| ensures At(r, i) != At(r, j) {
        assert r[i] == s[i];
        if j < |s| {
          NoDupsDistinct(s, i, j);
        }
      }
    }
  }

  /** Remove keeps the invariant, drops `w` and nobody else. */
  lemma RemoveProperties(s: seq<Window>, w: Window)
    requires WindowListValid(s)
    ensures WindowListValid(RemoveFirst(s, w))
    ensures w !in RemoveFirst(s, w)
    ensures forall y :: y != w ==> (y in RemoveFirst(s, w) <==> y in s)
  {
    RemoveFirstIsWithout(s, w);
    WithoutMembers(s, w);
  }

  /** Every action keeps the set duplicate-free and within capacity. */
  lemma ApplyKeepsInvariant(s: seq<Window>, w: Window, action: int)
    requires WindowListValid(s)
    ensures WindowListValid(Apply(s, w, action))
    ensures |Apply(s, w, action)| <= |s| + 1
  {
    AddProperties(s, w);
    RemoveProperties(s, w);
  }

  /** Toggle flips membership (when there is room to add). */
  lemma ToggleFlips(s: seq<Window>, w: Window)
    requires WindowListValid(s)
    requires w in s || |s| < MAX_WINDOWS
    ensures w in Apply(s, w, ACTION_TOGGLE) <==> w !in s
  {
    AddProperties(s, w);
    RemoveProperties(s, w);
  }

  /** One request from a client: a window and an action value. */
  datatype AboveRequest = AboveRequest(window: Window, action: int)

  /** A sequence of requests applied in arrival order. */
  function ApplyAll(s: seq<Window>, reqs: seq<AboveRequest>): seq<Window>
    decreases |reqs|
  {
    if |reqs| == 0 then s
    else ApplyAll(Apply(s, reqs[0].window, reqs[0].action), reqs[1..])
  }

  /** Reference semantics: the same requests on a mathematical set. */
  function ApplyToSet(m: set<Window>, w: Window, action: int): set<Window>
  {
    if action == ACTION_ADD then m + {w}
    else if action == ACTION_REMOVE then m - {w}
    else if action == ACTION_TOGGLE then (if w in m then m - {w} else m + {w})
    else m
  }

  function ApplyAllToSet(m: set<Window>, reqs: seq<AboveRequest>): set<Window>
    decreases |reqs|
  {
    if |reqs| == 0 then m
    else ApplyAllToSet(ApplyToSet(m, reqs[0].window, reqs[0].action), reqs[1..])
  }

  function Members(s: seq<Window>): set<Window>
  {
    set x | x in s
  }

  /** The windows a request sequence names. */
  function RequestWindows(reqs: seq<AboveRequest>): set<Window>
  {
    set r | r in reqs :: r.window
  }

  /** A duplicate-free sequence has as many members as entries. */
  lemma {:induction false} NoDupsCard(s: seq<Window>)
    requires NoDups(s)
    ensures |Members(s)| == |s|
    decreases |s|
  {
    if |s| > 0 {
      NoDupsTail(s);
      NoDupsCard(s[1..]);
      assert Members(s) == Members(s[1..]) + {s[0]};
    }
  }

  /** A subset is no larger than its superset. */
  lemma {:induction false} SubsetCard(a: set<Window>, b: set<Window>)
    requires a <= b
    ensures |a| <= |b|
    decreases |a|
  {
    if a != {} {
      var x :| x in a;
      SubsetCard(a - {x}, b - {x});
    }
  }

  /** One request changes membership as the set semantics says, provided an
      add has room: `w` is already a member or the set is not full. A remove
      or a toggle-off on a full set is covered. */
  lemma ApplyMatchesSet(s: seq<Window>, w: Window, action: int)
    requires WindowListValid(s) && (w in s || |s| < MAX_WINDOWS)
    ensures Members(Apply(s, w, action)) == ApplyToSet(Members(s), w, action)
  {
    AddProperties(s, w);
    RemoveProperties(s, w);
  }

  /** For any sequence of add/remove/toggle requests, of any length, whose
      windows together with the current members fit in MAX_WINDOWS, the set
      never holds a duplicate and its membership is exactly the net effect of
      the requests. */
  lemma {:induction false} NetEffect(s: seq<Window>, reqs: seq<AboveRequest>)
    requires WindowListValid(s) && |Members(s) + RequestWindows(reqs)| <= MAX_WINDOWS
    ensures WindowListValid(ApplyAll(s, reqs))
    ensures Members(ApplyAll(s, reqs)) == ApplyAllToSet(Members(s), reqs)
    decreases |reqs|
  {
    if |reqs| > 0 {
      var r := reqs[0];
      var all := Members(s) + RequestWindows(reqs);
      assert r.window in RequestWindows(reqs);
      if r.window !in s {
        NoDupsCard(s);
        SubsetCard(Members(s) + {r.window}, all);
      }
      ApplyKeepsInvariant(s, r.window, r.action);
      ApplyMatchesSet(s, r.window, r.action);
      var next := Apply(s, r.window, r.action);
      assert RequestWindows(reqs[1..]) <= RequestWindows(reqs) by {
        forall x | x in RequestWindows(reqs[1..]) ensures x in RequestWindows(reqs) {
          var q :| q in reqs[1..] && q.window == x;
          assert q in reqs;
        }
      }
      SubsetCard(Members(next) + RequestWindows(reqs[1..]), all);
      NetEffect(next, reqs[1..]);
    }
  }

  /** A client toggling one window any number of times: the set keeps at most
      that window added, whatever the length of the stream. */
  lemma OneWindowStream(s: seq<Window>, reqs: seq<AboveRequest>, w: Window)
    requires WindowListValid(s) && |s| < MAX_WINDOWS
    requires forall i :: 0 <= i < |reqs| ==> reqs[i].window == w
    ensures WindowListValid(ApplyAll(s, reqs))
    ensures Members(ApplyAll(s, reqs)) == ApplyAllToSet(Members(s), reqs)
  {
    assert RequestWindows(reqs) <= {w};
    NoDupsCard(s);
    SubsetCard(Members(s) + RequestWindows(reqs), Members(s) + {w});
    NetEffect(s, reqs);
  }
}
