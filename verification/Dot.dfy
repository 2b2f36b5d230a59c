/** Dot products of matrices given as functions of row and column. */
module DotProducts {
  import opened Utils
  import opened Layouts

  type Matrix = (int, int) -> real

  /** Sum over lo <= k < hi of a(i, k) * b(k, j). */
  function Dot(a: Matrix, b: Matrix, i: int, j: int, lo: int, hi: int): real
    decreases hi - lo
  {
    if hi <= lo then 0.0 else Dot(a, b, i, j, lo, hi - 1) + a(i, hi - 1) * b(hi - 1, j)
  }

  lemma {:induction false} DotSplit(a: Matrix, b: Matrix, i: int, j: int, lo: int, mid: int, hi: int)
    requires lo <= mid <= hi
    ensures Dot(a, b, i, j, lo, hi) == Dot(a, b, i, j, lo, mid) + Dot(a, b, i, j, mid, hi)
    decreases hi - mid
  {
    if mid < hi { DotSplit(a, b, i, j, lo, mid, hi - 1); }
  }

  /** The same products under a shift of the summation index. */
  lemma {:induction false} DotShift(a: Matrix, b: Matrix, i: int, j: int, a': Matrix, b': Matrix, i': int, j': int,
                                    base: int, n: int)
    requires forall k | 0 <= k < n :: a'(i', k) * b'(k, j') == a(i, base + k) * b(base + k, j)
    ensures Dot(a', b', i', j', 0, n) == Dot(a, b, i, j, base, base + n)
  {
    if n > 0 { DotShift(a, b, i, j, a', b', i', j', base, n - 1); }
  }

  /** Zero rows of b contribute nothing, whatever a holds there. */
  lemma {:induction false} DotZero(a: Matrix, b: Matrix, i: int, j: int, lo: int, hi: int)
    requires forall k | lo <= k < hi :: b(k, j) == 0.0
    ensures Dot(a, b, i, j, lo, hi) == 0.0
    decreases hi - lo
  {
    if lo < hi {
      DotZero(a, b, i, j, lo, hi - 1);
      assert b(hi - 1, j) == 0.0;
    }
  }

  /** The value a code stands for. */
  function Dequant(q: real, s: real, z: real): real {
    s * (q - z)
  }

  /** The sum of a row of a, and of a column of b, over lo <= k < hi. */
  function RowSum(a: Matrix, i: int, lo: int, hi: int): real
    decreases hi - lo
  {
    if hi <= lo then 0.0 else RowSum(a, i, lo, hi - 1) + a(i, hi - 1)
  }

  function ColSum(b: Matrix, j: int, lo: int, hi: int): real
    decreases hi - lo
  {
    if hi <= lo then 0.0 else ColSum(b, j, lo, hi - 1) + b(hi - 1, j)
  }

  /** A row-major array as a matrix. */
  function MatrixOf(s: seq<real>, ld: int): Matrix {
    (r: int, c: int) => BufferAt(s, 0, ld, r, c)
  }
}
