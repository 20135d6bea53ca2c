/** Sets of consecutive numbers, and sizes of sets. */
module Intervals {
  /** from, from + 1, ..., from + n - 1 */
  function Range(from: nat, n: nat): (r: set<nat>)
    ensures (forall i: nat :: i in r <==> from <= i < from + n) && |r| == n
  {
    if n == 0 then {} else Range(from, n - 1) + {from + n - 1}
  }

  lemma SubsetSize<T>(a: set<T>, b: set<T>)
    requires a <= b
    ensures |a| <= |b|
  {
    assert b == a + (b - a);
  }
}
