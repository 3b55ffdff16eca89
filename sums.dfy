/** Sums of integer-valued functions over finite sets of keys (the byteSize accounting). */
module Sums {

  ghost function Sum<T>(s: set<T>, f: T -> int): int
    decreases s
  {
    if s == {} then 0
    else
      var k :| k in s;
      f(k) + Sum(s - {k}, f)
  }

  /** The sum does not depend on the order in which the keys are taken. */
  lemma {:induction false} SumRemove<T>(s: set<T>, k: T, f: T -> int)
    requires k in s
    ensures Sum(s, f) == f(k) + Sum(s - {k}, f)
    decreases s
  {
    var j :| j in s && Sum(s, f) == f(j) + Sum(s - {j}, f);
    if j != k {
      SumRemove(s - {j}, k, f);
      SumRemove(s - {k}, j, f);
      assert s - {j} - {k} == s - {k} - {j};
    }
  }

  lemma {:induction false} SumAdd<T>(s: set<T>, k: T, f: T -> int)
    requires k !in s
    ensures Sum(s + {k}, f) == Sum(s, f) + f(k)
  {
    SumRemove(s + {k}, k, f);
    assert s + {k} - {k} == s;
  }

  /** Keys on which f is zero do not contribute. */
  lemma {:induction false} SumZeros<T>(s: set<T>, z: set<T>, f: T -> int)
    requires s !! z
    requires forall k :: k in z ==> f(k) == 0
    ensures Sum(s + z, f) == Sum(s, f)
    decreases z
  {
    if z != {} {
      var k :| k in z;
      SumRemove(s + z, k, f);
      assert s + z - {k} == s + (z - {k});
      SumZeros(s, z - {k}, f);
    } else {
      assert s + z == s;
    }
  }

  /** A pointwise sum of two functions sums to the sum of their sums. */
  lemma {:induction false} SumPlus<T>(s: set<T>, f: T -> int, g: T -> int, h: T -> int)
    requires forall k :: k in s ==> f(k) == g(k) + h(k)
    ensures Sum(s, f) == Sum(s, g) + Sum(s, h)
    decreases s
  {
    if s != {} {
      var k :| k in s;
      SumRemove(s, k, f);
      SumRemove(s, k, g);
      SumRemove(s, k, h);
      SumPlus(s - {k}, f, g, h);
    }
  }
}
