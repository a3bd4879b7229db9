/** Optional values and results, shared by every module. */
module Prelude {

  datatype Option<+T> = None | Some(value: T)

  /** The outcome of an operation that may be refused. */
  datatype Result<+T, +E> = Ok(value: T) | Err(error: E)

  const MAX_INT64: int := 0x7FFF_FFFF_FFFF_FFFF
  const MIN_INT64: int := -0x8000_0000_0000_0000

  predicate FitsInt64(n: int) {
    MIN_INT64 <= n <= MAX_INT64
  }

  /** Two's complement wrap-around of 64-bit signed arithmetic. */
  function Wrap64(n: int): (w: int)
    ensures FitsInt64(w)
    ensures FitsInt64(n) ==> w == n
  {
    if FitsInt64(n) then n else (n - MIN_INT64) % 0x1_0000_0000_0000_0000 + MIN_INT64
  }

  function Pow2(n: nat): (p: nat)
    ensures p >= 1
  {
    if n == 0 then 1 else 2 * Pow2(n - 1)
  }

  /** A subset is no larger, and smaller unless it is the whole set. */
  lemma SubsetSize<T>(a: set<T>, b: set<T>)
    requires a <= b
    ensures |a| <= |b| && (a != b ==> |a| < |b|)
  {
    assert b == a + (b - a);
    if a != b {
      assert b - a != {};
    }
  }
}
