// The manual work partition of the array-summing demos: the index space
// [0, n) is cut into `numt` contiguous ranges [From, To] (both ends
// inclusive), one per thread id `tid`; every thread gets n / numt indices
// and the last one also takes the remainder.

module Partition {

  /** q * a <= q * b for a non-negative factor q. */
  lemma MulMonotone(q: int, a: int, b: int)
    requires 0 <= q && a <= b
    ensures q * a <= q * b
  {
    assert q * b - q * a == q * (b - a);
  }

  /** For a positive divisor q, q * t <= i exactly when t <= i / q. */
  lemma DivLowerBound(i: int, q: int, t: int)
    requires 0 <= i && 0 < q
    ensures q * t <= i <==> t <= i / q
  {
    var d := i / q;
    assert i == q * d + i % q;
    if t <= d {
      MulMonotone(q, t, d);
    } else {
      MulMonotone(q, d + 1, t);
    }
  }

  /**
   * The index arithmetic of a range stays inside [0, n]: `(n / numt) * k`
   * for 0 <= k <= numt never exceeds n, so with n within the range of a
   * C `int` none of the products computed for `from` and `to` overflows.
   */
  lemma ChunkBound(n: int, numt: int, k: int)
    requires 0 <= n && 1 <= numt && 0 <= k <= numt
    ensures 0 <= (n / numt) * k <= n
  {
    var q := n / numt;
    MulMonotone(q, 0, k);
    MulMonotone(q, k, numt);
    assert n == numt * q + n % numt;
  }

  /** First index of thread `tid`'s range. */
  function From(n: int, numt: int, tid: int): (r: int)
    requires 0 <= n && 1 <= numt && 0 <= tid < numt
    ensures 0 <= r <= n
  {
    ChunkBound(n, numt, tid);
    (n / numt) * tid
  }

  /**
   * Last index of thread `tid`'s range; the range is empty when it is
   * From - 1. The last thread's range always ends at n - 1.
   */
  function To(n: int, numt: int, tid: int): (r: int)
    requires 0 <= n && 1 <= numt && 0 <= tid < numt
    ensures From(n, numt, tid) <= r + 1 <= n
  {
    ChunkBound(n, numt, tid + 1);
    if tid == numt - 1 then n - 1 else (n / numt) * (tid + 1) - 1
  }

  /** Every thread but the last gets n / numt indices; the last one also gets the remainder n % numt. */
  lemma RangeLength(n: int, numt: int, tid: int)
    requires 0 <= n && 1 <= numt && 0 <= tid < numt
    ensures To(n, numt, tid) - From(n, numt, tid) + 1
            == if tid == numt - 1 then n / numt + n % numt else n / numt
  {
    assert n == numt * (n / numt) + n % numt;
  }

  /** Consecutive ranges are adjacent: no index is skipped and none is covered twice. */
  lemma Adjacent(n: int, numt: int, tid: int)
    requires 0 <= n && 1 <= numt && 0 <= tid && tid + 1 < numt
    ensures To(n, numt, tid) + 1 == From(n, numt, tid + 1)
  {
  }

  /** The first range starts at 0 and the last one ends at n - 1. */
  lemma Covers(n: int, numt: int)
    requires 0 <= n && 1 <= numt
    ensures From(n, numt, 0) == 0 && To(n, numt, numt - 1) == n - 1
  {
  }

  /** The thread whose range holds index i. */
  function Owner(n: int, numt: int, i: int): (tid: int)
    requires 0 <= n && 1 <= numt && 0 <= i < n
    ensures 0 <= tid < numt
  {
    var q := n / numt;
    if q == 0 || i / q >= numt - 1 then numt - 1 else i / q
  }

  /** Index i lies in thread tid's range exactly when tid is its owner, so every index lies in exactly one range. */
  lemma OwnerUnique(n: int, numt: int, i: int, tid: int)
    requires 0 <= n && 1 <= numt && 0 <= i < n && 0 <= tid < numt
    ensures From(n, numt, tid) <= i <= To(n, numt, tid) <==> tid == Owner(n, numt, i)
  {
    var q := n / numt;
    if q != 0 {
      DivLowerBound(i, q, tid);
      if tid < numt - 1 {
        DivLowerBound(i, q, tid + 1);
      }
    }
  }

  /**
   * With more threads than indices, every thread but the last gets the
   * empty range [0, -1] and the last one gets all of [0, n - 1].
   */
  lemma MoreThreadsThanIndices(n: int, numt: int, tid: int)
    requires 0 <= n < numt && 0 <= tid < numt
    ensures From(n, numt, tid) == 0
    ensures To(n, numt, tid) == if tid == numt - 1 then n - 1 else -1
  {
    assert n / numt == 0;
  }

  /** Ten indices over three threads, and seven over four. */
  lemma Examples()
    ensures From(10, 3, 0) == 0 && To(10, 3, 0) == 2
    ensures From(10, 3, 1) == 3 && To(10, 3, 1) == 5
    ensures From(10, 3, 2) == 6 && To(10, 3, 2) == 9
    ensures From(7, 4, 3) == 3 && To(7, 4, 3) == 6
  {
  }
}
