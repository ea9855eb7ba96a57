/** Definitions shared by several modules. */
module Basics {

  datatype Option<+T> = None | Some(value: T)

  /** C division: the quotient is truncated. */
  function TruncDiv(a: int, b: int): int
    requires b != 0
  {
    if b < 0 then (if a >= 0 then -(a / -b) else -a / -b)
    else if a >= 0 then a / b else -(-a / b)
  }

  lemma SubsetSize<T>(a: set<T>, b: set<T>)
    requires a <= b
    ensures |a| <= |b|
  {
    assert b == a + (b - a);
  }

  /** A subset of the same size is the whole set. */
  lemma SubsetOfSize<T>(a: set<T>, b: set<T>)
    requires a <= b && |a| == |b|
    ensures a == b
  {
    assert b == a + (b - a);
  }
}
