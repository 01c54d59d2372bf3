/** The two loops the registries share: the linear search for a window and
    the deletion that shifts the later entries down by one. */
module ArrayOps {
  import opened Sequences

  /** The index of the first `x` among the first `n` entries, or -1. */
  method Find<T(==)>(a: array<T>, n: int, x: T) returns (k: int)
    requires 0 <= n <= a.Length
    ensures k == IndexOf(a[..n], x)
  {
    k := 0;
    while k < n && a[k] != x
      invariant 0 <= k <= n
      invariant x !in a[..k]
    {
      k := k + 1;
    }
    if k == n {
      assert a[..n] == a[..k];
      k := -1;
    } else {
      assert a[..n][..k] == a[..k];
      FirstIndex(a[..n], x, k);
    }
  }

  lemma FirstIndex<T>(s: seq<T>, x: T, i: int)
    requires 0 <= i < |s| && s[i] == x && x !in s[..i]
    ensures IndexOf(s, x) == i
  {
  }

  /** Deletes entry `i` of the first `n` entries: entries i+1 .. n-1 move
      down by one; entry n-1 and everything after it keep their old values. */
  method DeleteAt<T>(a: array<T>, n: int, i: int)
    requires 0 <= i < n <= a.Length
    modifies a
    ensures a[..n - 1] == old(a[..i]) + old(a[i + 1..n])
    ensures a[..n - 1] == old(a[..n])[..i] + old(a[..n])[i + 1..]
    ensures a[n - 1..] == old(a[n - 1..])
  {
    var j := i;
    while j < n - 1
      invariant i <= j <= n - 1
      invariant a[..i] == old(a[..i])
      invariant forall k :: i <= k < j ==> a[k] == old(a[k + 1])
      invariant a[j..] == old(a[j..])
    {
      a[j] := a[j + 1];
      j := j + 1;
    }
  }

  /** Deletes the first `x` among the first `n` entries, if any; `m` is the
      new number of entries. */
  method Remove<T(==)>(a: array<T>, n: int, x: T) returns (m: int)
    requires 0 <= n <= a.Length
    modifies a
    ensures m == if x in old(a[..n]) then n - 1 else n
    ensures a[..m] == RemoveFirst(old(a[..n]), x)
  {
    var i := Find(a, n, x);
    if i == -1 {
      m := n;
    } else {
      DeleteAt(a, n, i);
      m := n - 1;
    }
  }
}
