/**
 * Orders used by the ordered store: the segment-wise lexicographic order of
 * resource paths (DocumentKey.comparator, which is also the order IndexedDB
 * gives to arrays of strings), and the pair order IndexedDB gives to the
 * two-element array keys of the secondary indexes.
 */
module Ordering {

  ghost predicate StrictTotalOrder<T(!new)>(less: (T, T) -> bool) {
    && (forall x :: !less(x, x))
    && (forall x, y, z :: less(x, y) && less(y, z) ==> less(x, z))
    && (forall x, y :: x != y ==> less(x, y) || less(y, x))
  }

  /** Lexicographic order: compare element by element, a proper prefix comes first. */
  predicate LexLess<T(==)>(a: seq<T>, b: seq<T>, less: (T, T) -> bool)
    decreases |a|
  {
    if |a| == 0 then |b| > 0
    else if |b| == 0 then false
    else if a[0] == b[0] then LexLess(a[1..], b[1..], less)
    else less(a[0], b[0])
  }

  /** Order of two-element keys: by the first component, then by the second. */
  predicate PairLess<A(==), B>(x: (A, B), y: (A, B), lessA: (A, A) -> bool, lessB: (B, B) -> bool) {
    lessA(x.0, y.0) || (x.0 == y.0 && lessB(x.1, y.1))
  }

  predicate CharLess(x: char, y: char) {
    x < y
  }

  /** String comparison by character code. */
  predicate StringLess(a: string, b: string) {
    LexLess(a, b, CharLess)
  }

  /** ResourcePath.comparator: segment by segment, then shorter first. */
  predicate PathLess(a: seq<string>, b: seq<string>) {
    LexLess(a, b, StringLess)
  }

  /** ResourcePath.isPrefixOf. */
  predicate IsPrefix<T(==)>(p: seq<T>, q: seq<T>) {
    |p| <= |q| && q[..|p|] == p
  }

  lemma {:induction false} LexIrreflexive<T(!new)>(a: seq<T>, less: (T, T) -> bool)
    requires StrictTotalOrder(less)
    ensures !LexLess(a, a, less)
    decreases |a|
  {
    if |a| > 0 {
      LexIrreflexive(a[1..], less);
    }
  }

  lemma {:induction false} LexTransitive<T(!new)>(a: seq<T>, b: seq<T>, c: seq<T>, less: (T, T) -> bool)
    requires StrictTotalOrder(less)
    requires LexLess(a, b, less) && LexLess(b, c, less)
    ensures LexLess(a, c, less)
    decreases |a|
  {
    if |a| > 0 && |b| > 0 && |c| > 0 && a[0] == b[0] && b[0] == c[0] {
      LexTransitive(a[1..], b[1..], c[1..], less);
    }
  }

  lemma {:induction false} LexTotal<T(!new)>(a: seq<T>, b: seq<T>, less: (T, T) -> bool)
    requires StrictTotalOrder(less)
    requires a != b
    ensures LexLess(a, b, less) || LexLess(b, a, less)
    decreases |a|
  {
    if |a| > 0 && |b| > 0 && a[0] == b[0] {
      assert a == [a[0]] + a[1..] && b == [b[0]] + b[1..];
      LexTotal(a[1..], b[1..], less);
    }
  }

  lemma LexIsStrictTotal<T(!new)>(less: (T, T) -> bool)
    requires StrictTotalOrder(less)
    ensures forall a :: !LexLess(a, a, less)
    ensures forall a, b, c :: LexLess(a, b, less) && LexLess(b, c, less) ==> LexLess(a, c, less)
    ensures forall a, b :: a != b ==> LexLess(a, b, less) || LexLess(b, a, less)
  {
    forall a: seq<T> ensures !LexLess(a, a, less) {
      LexIrreflexive(a, less);
    }
    forall a: seq<T>, b: seq<T>, c: seq<T> | LexLess(a, b, less) && LexLess(b, c, less)
      ensures LexLess(a, c, less)
    {
      LexTransitive(a, b, c, less);
    }
    forall a: seq<T>, b: seq<T> | a != b ensures LexLess(a, b, less) || LexLess(b, a, less) {
      LexTotal(a, b, less);
    }
  }

  lemma PairIsStrictTotal<A(!new), B(!new)>(lessA: (A, A) -> bool, lessB: (B, B) -> bool)
    requires StrictTotalOrder(lessA) && StrictTotalOrder(lessB)
    ensures forall x :: !PairLess(x, x, lessA, lessB)
    ensures forall x, y, z :: PairLess(x, y, lessA, lessB) && PairLess(y, z, lessA, lessB) ==> PairLess(x, z, lessA, lessB)
    ensures forall x, y :: x != y ==> PairLess(x, y, lessA, lessB) || PairLess(y, x, lessA, lessB)
  {
  }

  lemma StringLessIsStrictTotal()
    ensures StrictTotalOrder(StringLess)
  {
    LexIsStrictTotal(CharLess);
  }

  lemma PathLessIsStrictTotal()
    ensures StrictTotalOrder(PathLess)
  {
    StringLessIsStrictTotal();
    LexIsStrictTotal(StringLess);
  }

  /** A sequence never sorts before one of its prefixes. */
  lemma {:induction false} PrefixNotAbove<T(!new)>(p: seq<T>, q: seq<T>, less: (T, T) -> bool)
    requires StrictTotalOrder(less)
    requires IsPrefix(p, q)
    ensures !LexLess(q, p, less)
    decreases |p|
  {
    if |p| > 0 {
      assert q[0] == p[0];
      assert q[1..][..|p| - 1] == p[1..];
      PrefixNotAbove(p[1..], q[1..], less);
    }
  }

  /**
   * The sequences that start with p form one contiguous block of the order:
   * whatever lies between p and a sequence that starts with p starts with p too.
   */
  lemma {:induction false} PrefixBlock<T(!new)>(p: seq<T>, y: seq<T>, z: seq<T>, less: (T, T) -> bool)
    requires StrictTotalOrder(less)
    requires IsPrefix(p, z)
    requires !LexLess(y, p, less) && !LexLess(z, y, less)
    ensures IsPrefix(p, y)
    decreases |p|
  {
    if |p| > 0 {
      assert |y| > 0;
      assert z[0] == p[0];
      assert y[0] == p[0];
      assert z[1..][..|p| - 1] == p[1..];
      PrefixBlock(p[1..], y[1..], z[1..], less);
      assert y == [y[0]] + y[1..];
      assert y[..|p|] == [y[0]] + y[1..][..|p| - 1];
    }
  }
}
