/** The focus stack as a value: the windows in focus history order, the
    bottom first and the most recently focused last (sinwm.c:59-60). */
module FocusSpec {
  import opened Common
  import opened Sequences

  /** push_focus: take out an earlier occurrence of `w`, then put `w` on top
      when there is room. */
  function Push(s: seq<Window>, w: Window): seq<Window>
  {
    var rest := RemoveFirst(s, w);
    if |rest| < MAX_WINDOWS then rest + [w] else rest
  }

  /** get_top_focus: the top entry, or NONE for an empty stack. */
  function Top(s: seq<Window>): Window
  {
    if |s| == 0 then NONE else s[|s| - 1]
  }

  /** remove_focus keeps the invariant, removes `w` and keeps the order of the rest. */
  lemma RemoveKeepsInvariant(s: seq<Window>, w: Window)
    requires WindowListValid(s)
    ensures WindowListValid(RemoveFirst(s, w))
    ensures RemoveFirst(s, w) == Without(s, w)
    ensures w !in RemoveFirst(s, w)
  {
    RemoveFirstIsWithout(s, w);
    WithoutMembers(s, w);
  }

  /** push_focus keeps the invariant. */
  lemma PushKeepsInvariant(s: seq<Window>, w: Window)
    requires WindowListValid(s)
    ensures WindowListValid(Push(s, w))
  {
    RemoveKeepsInvariant(s, w);
    var rest := RemoveFirst(s, w);
    if |rest| < MAX_WINDOWS {
      var r := rest + [w];
      forall i, j | 0 <= i < j < |r| ensures At(r, i) != At(r, j) {
        if j == |rest| {
          assert r[i] == rest[i];
        } else {
          assert r[i] == rest[i] && r[j] == rest[j];
          NoDupsDistinct(rest, i, j);
        }
      }
    }
  }

  /** Whenever `w` was on the stack or there was room, `w` becomes the only
      top entry and the other entries keep their relative order. */
  lemma PushMakesTop(s: seq<Window>, w: Window)
    requires WindowListValid(s)
    requires w in s || |s| < MAX_WINDOWS
    ensures Push(s, w) == Without(s, w) + [w]
    ensures Top(Push(s, w)) == w
    ensures w !in Push(s, w)[..|Push(s, w)| - 1]
  {
    RemoveKeepsInvariant(s, w);
    RemoveFirstLength(s, w);
    assert (Without(s, w) + [w])[..|Without(s, w)|] == Without(s, w);
  }

  /** An absent window pushed on a full stack changes nothing (sinwm.c:187-188). */
  lemma PushOnFullStack(s: seq<Window>, w: Window)
    requires w !in s && |s| >= MAX_WINDOWS
    ensures Push(s, w) == s
  {
  }

  /** Pushing the current top leaves the stack unchanged. */
  lemma PushTopUnchanged(s: seq<Window>)
    requires WindowListValid(s) && |s| > 0
    ensures Push(s, Top(s)) == s
  {
    var w := s[|s| - 1];
    IndexOfUnique(s, w, |s| - 1);
    assert RemoveFirst(s, w) == s[..|s| - 1];
  }

  /** The top entry is found at its own index on a duplicate-free stack. */
  lemma IndexOfUnique(s: seq<Window>, w: Window, i: int)
    requires NoDups(s) && 0 <= i < |s| && s[i] == w
    ensures IndexOf(s, w) == i
  {
    assert w in s;
    var k := IndexOf(s, w);
    if k < i {
      NoDupsDistinct(s, k, i);
    } else {
      assert w !in s[..k] && w in s[..i + 1];
    }
  }

  /** Pushing twice is the same as pushing once. */
  lemma PushIdempotent(s: seq<Window>, w: Window)
    requires WindowListValid(s)
    ensures Push(Push(s, w), w) == Push(s, w)
  {
    if w in s || |s| < MAX_WINDOWS {
      PushMakesTop(s, w);
      PushKeepsInvariant(s, w);
      PushTopUnchanged(Push(s, w));
    } else {
      PushOnFullStack(s, w);
    }
  }

  /** Removing the top of a stack of two or more exposes the entry below it:
      the window that takes the focus when the active window goes away. */
  lemma RemoveTopFallsBack(s: seq<Window>)
    requires WindowListValid(s) && |s| >= 2
    ensures Top(RemoveFirst(s, Top(s))) == s[|s| - 2]
  {
    IndexOfUnique(s, s[|s| - 1], |s| - 1);
    assert RemoveFirst(s, Top(s)) == s[..|s| - 1];
  }
}
