/**
 * Strictly sorted sequences: the physical order of an IndexedDB object store
 * or index, with the insert, delete and cursor-seek steps the store performs.
 */
module SortedSeqs {
  import opened Ordering

  ghost predicate Sorted<T>(s: seq<T>, less: (T, T) -> bool) {
    forall i, j {:trigger less(s[i], s[j])} :: 0 <= i < j < |s| ==> less(s[i], s[j])
  }

  /** Places x at its position in sorted s (a put of a new key). */
  function Insert<T(==,!new)>(s: seq<T>, x: T, less: (T, T) -> bool): (r: seq<T>)
    requires StrictTotalOrder(less) && Sorted(s, less) && x !in s
    ensures Sorted(r, less)
    ensures forall y :: y in r <==> y in s || y == x
    ensures |r| == |s| + 1
  {
    if |s| == 0 then [x]
    else if less(s[0], x) then
      var tail := Insert(s[1..], x, less);
      assert forall y :: y in s[1..] ==> y in s;
      assert forall k :: 0 <= k < |tail| ==> tail[k] in tail;
      [s[0]] + tail
    else
      assert forall k :: 0 <= k < |s| ==> less(x, s[k]) by {
        forall k | 0 <= k < |s| ensures less(x, s[k]) {
          if k > 0 { assert less(s[0], s[k]); }
        }
      }
      [x] + s
  }

  /** Drops x from s (a delete). */
  function Remove<T(==,!new)>(s: seq<T>, x: T, less: (T, T) -> bool): (r: seq<T>)
    requires Sorted(s, less)
    ensures Sorted(r, less)
    ensures forall y :: y in r <==> y in s && y != x
  {
    if |s| == 0 then []
    else
      var tail := Remove(s[1..], x, less);
      assert forall y :: y in s[1..] ==> y in s;
      if s[0] == x then tail
      else
        assert forall k :: 0 <= k < |tail| ==> tail[k] in tail;
        [s[0]] + tail
  }

  /** Position of the first element satisfying p, or |s| (a forward cursor seek). */
  function FirstSatisfying<T>(s: seq<T>, p: T -> bool): (i: nat)
    ensures i <= |s|
    ensures forall k :: 0 <= k < i ==> !p(s[k])
    ensures i < |s| ==> p(s[i])
  {
    if |s| == 0 then 0
    else if p(s[0]) then 0
    else 1 + FirstSatisfying(s[1..], p)
  }

  /** Every element of s before position j is below x. */
  ghost predicate AllBelow<T>(s: seq<T>, j: int, x: T, less: (T, T) -> bool) {
    forall t :: 0 <= t < j && t < |s| ==> less(s[t], x)
  }

  /** Position of the first element at or after j that is not below x (a cursor continue(x)). */
  function Seek<T>(s: seq<T>, j: nat, x: T, less: (T, T) -> bool): (r: nat)
    requires j <= |s|
    ensures j <= r <= |s|
    ensures forall t :: j <= t < r ==> less(s[t], x)
    ensures r < |s| ==> !less(s[r], x)
  {
    var k := FirstSatisfying(s[j..], y => !less(y, x));
    assert forall t :: j <= t < j + k ==> s[t] == s[j..][t - j];
    j + k
  }

  /** Everything up to and including a cursor's element below x is below x. */
  lemma AllBelowExtend<T(!new)>(s: seq<T>, j: nat, x: T, less: (T, T) -> bool)
    requires StrictTotalOrder(less) && Sorted(s, less) && j < |s| && less(s[j], x)
    ensures AllBelow(s, j + 1, x, less)
  {
  }

  lemma AllBelowRaise<T(!new)>(s: seq<T>, j: int, x: T, y: T, less: (T, T) -> bool)
    requires StrictTotalOrder(less) && AllBelow(s, j, x, less) && less(x, y)
    ensures AllBelow(s, j, y, less)
  {
  }

  /**
   * A cursor at j over sorted s, with everything before j below x and s[j]
   * above x, has stepped over the place x would occupy: x is not stored.
   */
  lemma Absent<T(!new)>(s: seq<T>, j: nat, x: T, less: (T, T) -> bool)
    requires StrictTotalOrder(less) && Sorted(s, less) && j <= |s|
    requires AllBelow(s, j, x, less)
    requires j < |s| ==> less(x, s[j])
    ensures x !in s
  {
    forall t | 0 <= t < |s|
      ensures s[t] != x
    {
      if t > j {
        assert less(s[j], s[t]);
      }
    }
  }

  /** x lies before a cursor at position j: the cursor is past the end or on an element above x. */
  ghost predicate BeforeCursor<T>(s: seq<T>, j: int, x: T, less: (T, T) -> bool)
    requires 0 <= j <= |s|
  {
    j == |s| || less(x, s[j])
  }

  /** One cursor step passes exactly the element it was on. */
  lemma CursorStep<T(!new)>(s: seq<T>, j: nat, x: T, less: (T, T) -> bool)
    requires StrictTotalOrder(less) && Sorted(s, less) && j < |s| && x in s
    ensures BeforeCursor(s, j + 1, x, less) <==> BeforeCursor(s, j, x, less) || x == s[j]
  {
    var t :| 0 <= t < |s| && s[t] == x;
    if t < j {
      assert less(s[t], s[j]);
      if j + 1 < |s| {
        assert less(s[t], s[j + 1]);
      }
    } else if t == j {
      if j + 1 < |s| {
        assert less(s[t], s[j + 1]);
      }
    } else {
      assert less(s[j], s[t]);
      if t > j + 1 {
        assert less(s[j + 1], s[t]);
      }
    }
  }

  /** An element stored at or after position start is not before a cursor at start. */
  lemma CursorStart<T(!new)>(s: seq<T>, start: nat, x: T, less: (T, T) -> bool)
    requires StrictTotalOrder(less) && Sorted(s, less) && start <= |s| && x in s
    requires forall t :: 0 <= t < start ==> s[t] != x
    ensures start < |s| && !BeforeCursor(s, start, x, less)
  {
    var t :| 0 <= t < |s| && s[t] == x;
    if t > start {
      assert less(s[start], s[t]);
    }
  }

  /** Position of the first entry whose index key is above bound (an open lower bound). */
  function OpenLowerBound<K, V>(s: seq<(K, V)>, bound: K, less: (K, K) -> bool): (i: nat)
    ensures i <= |s|
    ensures forall t :: 0 <= t < i ==> !less(bound, s[t].0)
    ensures i < |s| ==> less(bound, s[i].0)
  {
    FirstSatisfying(s, (e: (K, V)) => less(bound, e.0))
  }
}
