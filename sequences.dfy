/** Sequence operations shared by the registries: duplicate freedom, the
    first-occurrence search, and deletion of the first occurrence with the
    rest shifted down in order. */
module Sequences {
  import opened Common

  /** The element at index `i`; named so that the duplicate-freedom
      quantifier below only fires where a proof asks about two positions. */
  ghost function At<T>(s: seq<T>, i: int): T
    requires 0 <= i < |s|
  {
    s[i]
  }

  /** No element occurs twice. */
  ghost predicate NoDups<T>(s: seq<T>) {
    forall i, j :: 0 <= i < j < |s| ==> At(s, i) != At(s, j)
  }

  /** A window list kept in one of the MAX_WINDOWS arrays (the focus stack,
      the always-on-top set): no window twice and within capacity. */
  ghost predicate WindowListValid(s: seq<Window>) {
    NoDups(s) && |s| <= MAX_WINDOWS
  }

  /** Index of the first occurrence of `x` in `s`, or -1 when there is none. */
  function IndexOf<T(==)>(s: seq<T>, x: T): (i: int)
    ensures -1 <= i < |s|
    ensures 0 <= i ==> s[i] == x && x !in s[..i]
    ensures i == -1 <==> x !in s
  {
    if |s| == 0 then -1
    else if s[0] == x then 0
    else
      var k := IndexOf(s[1..], x);
      if k == -1 then -1
      else
        assert s[..k + 1] == [s[0]] + s[1..][..k];
        k + 1
  }

  /** Deletes the first occurrence of `x`, shifting the later elements down;
      `s` itself when `x` is absent. */
  function RemoveFirst<T(==)>(s: seq<T>, x: T): seq<T>
  {
    var i := IndexOf(s, x);
    if i == -1 then s else s[..i] + s[i + 1..]
  }

  /** Reference definition: `s` with every occurrence of `x` filtered out. */
  function Without<T(==,!new)>(s: seq<T>, x: T): (r: seq<T>)
    ensures |r| <= |s|
  {
    if |s| == 0 then []
    else (if s[0] == x then [] else [s[0]]) + Without(s[1..], x)
  }

  /** The filter keeps exactly the elements other than `x`. */
  lemma {:induction false} WithoutMembers<T(!new)>(s: seq<T>, x: T)
    ensures forall y :: y in Without(s, x) <==> y in s && y != x
  {
    if |s| > 0 {
      WithoutMembers(s[1..], x);
      assert s == [s[0]] + s[1..];
    }
  }

  /** Two different positions of a duplicate-free sequence hold different
      elements. */
  lemma NoDupsDistinct<T>(s: seq<T>, i: int, j: int)
    requires NoDups(s) && 0 <= i < |s| && 0 <= j < |s| && i != j
    ensures s[i] != s[j]
  {
    if i < j {
      assert At(s, i) != At(s, j);
    } else {
      assert At(s, j) != At(s, i);
    }
  }

  lemma NoDupsTail<T>(s: seq<T>)
    requires NoDups(s) && |s| > 0
    ensures NoDups(s[1..]) && s[0] !in s[1..]
  {
    var t := s[1..];
    forall i, j | 0 <= i < j < |t| ensures At(t, i) != At(t, j) {
      NoDupsDistinct(s, i + 1, j + 1);
    }
    if s[0] in t {
      var k :| 0 <= k < |t| && t[k] == s[0];
      NoDupsDistinct(s, 0, k + 1);
    }
  }

  /** Deleting past a different head element keeps the head. */
  lemma RemoveFirstCons<T>(s: seq<T>, x: T)
    requires |s| > 0 && s[0] != x
    ensures RemoveFirst(s, x) == [s[0]] + RemoveFirst(s[1..], x)
  {
    var t := s[1..];
    var k := IndexOf(t, x);
    if k == -1 {
      assert IndexOf(s, x) == -1;
      assert s == [s[0]] + t;
    } else {
      assert IndexOf(s, x) == k + 1;
      assert s[..k + 1] == [s[0]] + t[..k];
      assert s[k + 2..] == t[k + 1..];
      calc {
        RemoveFirst(s, x);
        s[..k + 1] + s[k + 2..];
        ([s[0]] + t[..k]) + t[k + 1..];
        [s[0]] + (t[..k] + t[k + 1..]);
        [s[0]] + RemoveFirst(t, x);
      }
    }
  }

  lemma {:induction false} WithoutAbsent<T(!new)>(s: seq<T>, x: T)
    requires x !in s
    ensures Without(s, x) == s
  {
    if |s| > 0 {
      WithoutAbsent(s[1..], x);
      assert s == [s[0]] + s[1..];
    }
  }

  /** Filtering keeps a duplicate-free sequence duplicate-free. */
  lemma {:induction false} WithoutNoDups<T(!new)>(s: seq<T>, x: T)
    requires NoDups(s)
    ensures NoDups(Without(s, x))
  {
    if |s| > 0 {
      NoDupsTail(s);
      WithoutNoDups(s[1..], x);
      WithoutMembers(s[1..], x);
      var rest := Without(s[1..], x);
      var r := Without(s, x);
      if s[0] != x {
        assert r == [s[0]] + rest;
        forall i, j | 0 <= i < j < |r| ensures At(r, i) != At(r, j) {
          if i == 0 {
            assert r[j] == rest[j - 1];
            assert r[j] in rest;
          } else {
            assert r[i] == rest[i - 1] && r[j] == rest[j - 1];
            NoDupsDistinct(rest, i - 1, j - 1);
          }
        }
      } else {
        assert r == rest;
      }
    }
  }

  /** On a duplicate-free sequence, deleting the first occurrence is the same
      as filtering: `x` disappears and the others keep their relative order. */
  lemma {:induction false} RemoveFirstIsWithout<T(!new)>(s: seq<T>, x: T)
    requires NoDups(s)
    ensures RemoveFirst(s, x) == Without(s, x)
    ensures NoDups(RemoveFirst(s, x))
  {
    WithoutNoDups(s, x);
    if |s| > 0 {
      NoDupsTail(s);
      if s[0] == x {
        WithoutAbsent(s[1..], x);
        assert RemoveFirst(s, x) == s[1..];
      } else {
        RemoveFirstIsWithout(s[1..], x);
        RemoveFirstCons(s, x);
      }
    }
  }

  /** Deleting the first occurrence removes exactly one element when present. */
  lemma RemoveFirstLength<T>(s: seq<T>, x: T)
    ensures |RemoveFirst(s, x)| == if x in s then |s| - 1 else |s|
  {
  }

  /** Appending in two steps is appending the concatenation. */
  lemma AppendAssoc<T>(a: seq<T>, b: seq<T>, c: seq<T>)
    ensures (a + b) + c == a + (b + c)
  {
  }
}
