/** Windows of a row-major array that are written cell by cell, row by row. */
module TileWindows {
  import opened Utils
  import opened Layouts
  import opened DotProducts
  import opened WeightPacking
  import opened GemmKernel

  /** The window t of d holds v, everything else is as in d0. */
  ghost predicate WindowIs(t: Tile, d: seq<real>, d0: seq<real>, v: Matrix) {
    |d| == |d0| && t.Stored(d, d0, v, 0, t.n, t.m, 0)
  }

  lemma StartRows(t: Tile, d: seq<real>, v: Matrix)
    ensures t.Stored(d, d, v, 0, t.n, 0, 0)
  {
    StripStart(t, d, d, v, 0, t.n);
  }

  lemma EndRow(t: Tile, d: seq<real>, d0: seq<real>, v: Matrix, i: nat)
    requires |d| == |d0| && t.Stored(d, d0, v, 0, t.n, i, t.n)
    ensures t.Stored(d, d0, v, 0, t.n, i + 1, 0)
  {
    forall q | 0 <= q < |d| && InWindow(t.coff, t.cstride, t.m, t.n, q)
      ensures (q - t.coff) % t.cstride >= 0
    {
      WindowPlace(t.coff, t.cstride, t.m, t.n, q);
    }
  }

  /** A store to cell (i, j) of the window. */
  method Put(c: array<real>, t: Tile, q: nat, x: real, ghost d0: seq<real>, ghost v: Matrix, ghost i: nat, ghost j: nat)
    requires c.Length == |d0| && t.Fits(c.Length) && i < t.m && j < t.n
    requires q == t.coff + RowMajor(t.cstride, i, j) < c.Length && x == v(i, j)
    requires t.Stored(c[..], d0, v, 0, t.n, i, j)
    modifies c
    ensures t.Stored(c[..], d0, v, 0, t.n, i, j + 1)
  {
    ghost var before := c[..];
    c[q] := x;
    t.StoreStep(before, c[..], d0, v, 0, t.n, i, j, x);
  }

  /** The cell's place, and that it still holds what the window held. */
  lemma Cell(t: Tile, d: seq<real>, d0: seq<real>, v: Matrix, v0: Matrix, i: nat, j: nat)
    requires |d| == |d0| && t.Fits(|d|) && i < t.m && j < t.n && t.Stored(d, d0, v, 0, t.n, i, j)
    requires forall r, c | 0 <= r < t.m && 0 <= c < t.n :: HoldsAt(t, d0, v0, r, c)
    ensures 0 <= t.coff + RowMajor(t.cstride, i, j) < |d| && d[t.coff + RowMajor(t.cstride, i, j)] == v0(i, j)
  {
    WindowIndex(|d|, t.coff, t.cstride, t.m, t.n, i, j);
    WindowCoord(t.coff, t.cstride, t.m, t.n, i, j);
    assert HoldsAt(t, d0, v0, i, j);
  }

  ghost predicate HoldsAt(t: Tile, d: seq<real>, v: Matrix, r: int, c: int) {
    0 <= t.coff + RowMajor(t.cstride, r, c) < |d| && d[t.coff + RowMajor(t.cstride, r, c)] == v(r, c)
  }

  lemma HoldsWindow(t: Tile, d: seq<real>, d0: seq<real>, v: Matrix)
    requires WindowIs(t, d, d0, v) && t.Fits(|d|)
    ensures forall r, c | 0 <= r < t.m && 0 <= c < t.n :: HoldsAt(t, d, v, r, c)
  {
    forall r, c | 0 <= r < t.m && 0 <= c < t.n
      ensures HoldsAt(t, d, v, r, c)
    {
      WindowIndex(|d|, t.coff, t.cstride, t.m, t.n, r, c);
      WindowCoord(t.coff, t.cstride, t.m, t.n, r, c);
    }
  }

  lemma SameWindow(t: Tile, d: seq<real>, d0: seq<real>, v: Matrix, v': Matrix)
    requires WindowIs(t, d, d0, v) && forall r: nat, c: nat | r < t.m && c < t.n :: v'(r, c) == v(r, c)
    ensures WindowIs(t, d, d0, v')
  {
    forall q | 0 <= q < |d| && InWindow(t.coff, t.cstride, t.m, t.n, q)
      ensures v'((q - t.coff) / t.cstride, (q - t.coff) % t.cstride) == d[q]
    {
      WindowPlace(t.coff, t.cstride, t.m, t.n, q);
    }
  }

  lemma WindowTwice(t: Tile, d: seq<real>, d1: seq<real>, d0: seq<real>, v1: Matrix, v: Matrix)
    requires WindowIs(t, d1, d0, v1) && WindowIs(t, d, d1, v)
    ensures WindowIs(t, d, d0, v)
  {
    forall q | 0 <= q < |d| && InWindow(t.coff, t.cstride, t.m, t.n, q)
      ensures 0 <= (q - t.coff) / t.cstride < t.m
    {
      WindowPlace(t.coff, t.cstride, t.m, t.n, q);
    }
  }
}
