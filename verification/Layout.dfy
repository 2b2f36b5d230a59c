/** Address maps. `RowMajor` is a matrix with a leading dimension; `Layout` is the padding-interleave layout of
    kernel_ref.h: NTILE-wide column panels, in which PACK_ROW consecutive rows are interleaved. */
module Layouts {
  import opened Utils

  /** Offset of (r, c) in a row-major matrix of row length ld. */
  function RowMajor(ld: int, r: int, c: int): int {
    r * ld + c
  }

  /** Element (r, c) of the row-major window at `off`; zero where there is none. */
  function BufferAt(s: seq<real>, off: int, ld: int, r: int, c: int): real {
    if 0 <= off + RowMajor(ld, r, c) < |s| then s[off + RowMajor(ld, r, c)] else 0.0
  }

  lemma RowMajorBounds(ld: int, rows: int, r: int, c: int)
    requires 0 <= r < rows && 0 <= c < ld
    ensures 0 <= RowMajor(ld, r, c) < rows * ld
  {
    MulMono(r + 1, rows, ld);
    MulMono(0, r, ld);
    assert (r + 1) * ld == r * ld + ld;
  }

  lemma RowMajorInjective(ld: int, r: int, c: int, r': int, c': int)
    requires 0 <= c < ld && 0 <= c' < ld
    ensures RowMajor(ld, r, c) == RowMajor(ld, r', c') ==> r == r' && c == c'
  {
    if RowMajor(ld, r, c) == RowMajor(ld, r', c') {
      DivUnique(RowMajor(ld, r, c), ld, r, c);
      DivUnique(RowMajor(ld, r, c), ld, r', c');
    }
  }

  datatype Layout = Layout(ntile: pos, packRow: pos, kpad: nat, npad: nat) {

    ghost predicate Valid() {
      kpad % packRow == 0 && npad % ntile == 0
    }

    function Size(): nat {
      kpad * npad
    }

    predicate In(k: int, n: int) {
      0 <= k < kpad && 0 <= n < npad
    }

    /** Where element (k, n) is stored. */
    function Idx(k: int, n: int): (q: int)
      requires Valid() && In(k, n)
      ensures 0 <= q < Size()
    {
      IdxBounds(k, n);
      RowMajor(packRow, RowMajor(ntile, RowMajor(kpad / packRow, n / ntile, k / packRow), n % ntile), k % packRow)
    }

    lemma IdxBounds(k: int, n: int)
      requires Valid() && In(k, n)
      ensures 0 <= RowMajor(packRow, RowMajor(ntile, RowMajor(kpad / packRow, n / ntile, k / packRow), n % ntile),
                            k % packRow) < Size()
    {
      DivMod(kpad, packRow);
      DivMod(npad, ntile);
      DivMod(k, packRow);
      DivMod(n, ntile);
      var kb, nb := kpad / packRow, npad / ntile;
      DivBounds(k, packRow, kb);
      DivBounds(n, ntile, nb);
      DivBounds(k, packRow, 0);
      DivBounds(n, ntile, 0);
      RowMajorBounds(kb, nb, n / ntile, k / packRow);
      RowMajorBounds(ntile, nb * kb, RowMajor(kb, n / ntile, k / packRow), n % ntile);
      RowMajorBounds(packRow, nb * kb * ntile, RowMajor(ntile, RowMajor(kb, n / ntile, k / packRow), n % ntile),
                     k % packRow);
      SizeSplit(kb, packRow, nb, ntile);
    }

    static lemma SizeSplit(kb: int, p: int, nb: int, nt: int)
      ensures nb * kb * nt * p == (kb * p) * (nb * nt)
    {
      assert nb * kb * nt * p == (nb * nt) * (kb * p);
    }

    /** Different elements are stored at different places. */
    lemma IdxInjective(k: int, n: int, k': int, n': int)
      requires Valid() && In(k, n) && In(k', n')
      ensures Idx(k, n) == Idx(k', n') ==> k == k' && n == n'
    {
      DivMod(k, packRow);
      DivMod(n, ntile);
      DivMod(k', packRow);
      DivMod(n', ntile);
      var kb := kpad / packRow;
      DivMod(kpad, packRow);
      DivBounds(k, packRow, kb);
      DivBounds(k', packRow, kb);
      DivBounds(k, packRow, 0);
      DivBounds(k', packRow, 0);
      var a, a' := RowMajor(kb, n / ntile, k / packRow), RowMajor(kb, n' / ntile, k' / packRow);
      var b, b' := RowMajor(ntile, a, n % ntile), RowMajor(ntile, a', n' % ntile);
      RowMajorInjective(packRow, b, k % packRow, b', k' % packRow);
      RowMajorInjective(ntile, a, n % ntile, a', n' % ntile);
      RowMajorInjective(kb, n / ntile, k / packRow, n' / ntile, k' / packRow);
    }

    /** The element stored at place q. */
    function Coord(q: int): (int, int)
      requires Valid() && 0 <= q < Size()
    {
      var b := q / packRow;
      var a := b / ntile;
      var kb := kpad / packRow;
      if kb == 0 then (0, 0) else (a % kb * packRow + q % packRow, a / kb * ntile + b % ntile)
    }

    /** Every place stores an element: the index map is a bijection onto the buffer. */
    lemma IdxSurjective(q: int)
      requires Valid() && 0 <= q < Size()
      ensures In(Coord(q).0, Coord(q).1) && Idx(Coord(q).0, Coord(q).1) == q
    {
      var b := q / packRow;
      var a := b / ntile;
      var kb, nb := kpad / packRow, npad / ntile;
      DivMod(kpad, packRow);
      DivMod(npad, ntile);
      SizeSplit(kb, packRow, nb, ntile);
      assert kb != 0;
      DivMod(q, packRow);
      DivMod(b, ntile);
      DivMod(a, kb);
      DivBounds(q, packRow, nb * kb * ntile);
      DivBounds(b, ntile, nb * kb);
      DivBounds(a, kb, nb);
      DivBounds(q, packRow, 0);
      DivBounds(b, ntile, 0);
      DivBounds(a, kb, 0);
      var (k, n) := Coord(q);
      DivUnique(k, packRow, a % kb, q % packRow);
      DivUnique(n, ntile, a / kb, b % ntile);
      InFromDigits(kb, packRow, a % kb, q % packRow);
      InFromDigits(nb, ntile, a / kb, b % ntile);
    }

    static lemma InFromDigits(blocks: int, p: pos, d: int, r: int)
      requires 0 <= d < blocks && 0 <= r < p
      ensures 0 <= d * p + r < blocks * p
    {
      MulMono(d + 1, blocks, p);
      MulMono(0, d, p);
      assert (d + 1) * p == d * p + p;
    }

    /** The flat address the source computes for offset (i + ii, j + jj) in a tile-aligned slice at (k0, n0). */
    lemma Address(k0: int, n0: int, i: int, j: int, jj: int, ii: int)
      requires Valid() && In(k0 + i + ii, n0 + j + jj)
      requires k0 % packRow == 0 && i % packRow == 0 && 0 <= ii < packRow
      requires n0 % ntile == 0 && j % ntile == 0 && 0 <= jj < ntile
      ensures (k0 * ntile + n0 * kpad) + i * ntile + j * kpad + jj * packRow + ii == Idx(k0 + i + ii, n0 + j + jj)
    {
      var kb := kpad / packRow;
      DivMod(kpad, packRow);
      DivMod(k0, packRow);
      DivMod(i, packRow);
      DivMod(n0, ntile);
      DivMod(j, ntile);
      var x, y := k0 / packRow + i / packRow, n0 / ntile + j / ntile;
      DivUnique(k0 + i + ii, packRow, x, ii);
      DivUnique(n0 + j + jj, ntile, y, jj);
      Digits(kb, packRow, ntile, x, y, jj, ii);
      assert k0 + i == x * packRow && n0 + j == y * ntile;
      assert (k0 * ntile + n0 * kpad) + i * ntile + j * kpad == (k0 + i) * ntile + (n0 + j) * kpad;
    }

    static lemma Digits(kb: int, p: int, nt: int, x: int, y: int, jj: int, ii: int)
      ensures RowMajor(p, RowMajor(nt, RowMajor(kb, y, x), jj), ii) == (x * p) * nt + (y * nt) * (kb * p) + jj * p + ii
    {
      assert ((y * kb + x) * nt + jj) * p == (y * kb + x) * nt * p + jj * p;
      assert (y * kb + x) * nt * p == y * kb * nt * p + x * nt * p;
      assert y * kb * nt * p == (y * nt) * (kb * p);
      assert x * nt * p == (x * p) * nt;
    }

    /** The element (k, n) of a packed buffer. */
    function At<T>(d: seq<T>, k: int, n: int): T
      requires Valid() && |d| >= Size() && In(k, n)
    {
      d[Idx(k, n)]
    }

    lemma PutCell<T>(d: seq<T>, d': seq<T>, k0: int, n0: int, x: T)
      requires Valid() && |d| >= Size() && In(k0, n0) && d' == d[Idx(k0, n0) := x]
      ensures forall k, n | In(k, n) :: At(d', k, n) == if k == k0 && n == n0 then x else At(d, k, n)
    {
      forall k, n | In(k, n)
        ensures At(d', k, n) == if k == k0 && n == n0 then x else At(d, k, n)
      {
        IdxInjective(k, n, k0, n0);
      }
    }

    /** Two buffers with the same elements are the same buffer. */
    lemma Extensional<T>(d: seq<T>, d': seq<T>)
      requires Valid() && |d| == Size() && |d'| == Size()
      requires forall k, n | In(k, n) :: At(d, k, n) == At(d', k, n)
      ensures d == d'
    {
      forall q | 0 <= q < |d|
        ensures d[q] == d'[q]
      {
        IdxSurjective(q);
        var (k, n) := Coord(q);
        assert At(d, k, n) == At(d', k, n);
      }
    }

    /** Offset of (k, n) from the start of its column panel; it does not depend on the padding. */
    function Inner(k: int, jj: int): int {
      (k - k % packRow) * ntile + jj * packRow + k % packRow
    }

    /** A place is a panel, and an offset inside a panel of ntile * kpad elements. */
    lemma PanelSplit(k: int, n: int)
      requires Valid() && In(k, n)
      ensures Idx(k, n) == RowMajor(ntile * kpad, n / ntile, Inner(k, n % ntile))
      ensures 0 <= Inner(k, n % ntile) < ntile * kpad
      ensures 0 <= n / ntile < npad / ntile
    {
      DivMod(k, packRow);
      DivMod(n, ntile);
      DivMod(npad, ntile);
      DivMod(kpad, packRow);
      DivBounds(n, ntile, npad / ntile);
      DivBounds(n, ntile, 0);
      DivBounds(k, packRow, kpad / packRow);
      DivBounds(k, packRow, 0);
      Digits(kpad / packRow, packRow, ntile, k / packRow, n / ntile, n % ntile, k % packRow);
      InnerBound(kpad / packRow, packRow, ntile, k / packRow, n % ntile, k % packRow);
      PanelStart(n / ntile, ntile, kpad);
    }

    static lemma PanelStart(y: int, nt: int, kpad: int)
      ensures (y * nt) * kpad == y * (nt * kpad)
    {
    }

    static lemma InnerBound(kb: int, p: pos, nt: pos, a: int, jj: int, ii: int)
      requires 0 <= a < kb && 0 <= jj < nt && 0 <= ii < p
      ensures 0 <= (a * p) * nt + jj * p + ii < nt * (kb * p)
    {
      InFromDigits(nt, p, jj, ii);
      InFromDigits(kb, nt * p, a, jj * p + ii);
      assert a * (nt * p) == (a * p) * nt;
      assert kb * (nt * p) == nt * (kb * p);
    }
  }

  // ----- row-major windows

  /** Place q lies in the row x col window at `off` of a matrix with rows `step` apart. */
  predicate InWindow(off: int, step: pos, row: int, col: int, q: int) {
    off <= q && (q - off) / step < row && (q - off) % step < col
  }

  lemma WindowCoord(off: int, step: pos, row: int, col: int, r: int, c: int)
    requires 0 <= r && 0 <= c < step
    ensures var q := off + RowMajor(step, r, c);
            && off <= q && (q - off) / step == r && (q - off) % step == c
            && (InWindow(off, step, row, col, q) <==> r < row && c < col)
  {
    DivUnique(RowMajor(step, r, c), step, r, c);
    MulMono(0, r, step);
  }

  lemma WindowPlace(off: int, step: pos, row: int, col: int, q: int)
    requires InWindow(off, step, row, col, q)
    ensures q == off + RowMajor(step, (q - off) / step, (q - off) % step)
    ensures 0 <= (q - off) / step < row && 0 <= (q - off) % step < col
  {
    DivMod(q - off, step);
    DivBounds(q - off, step, 0);
  }
}
