/** Packing, slicing and unpacking of weights (kernel_ref.h, bestla_prologue_b.h). */
module WeightPacking {
  import opened Utils
  import opened Layouts
  import opened Scheduling

  /** A row x col window of a row-major matrix inside an array of `len` elements. */
  predicate WindowFits(len: int, off: int, step: int, row: int, col: int) {
    0 <= off && 0 <= step && (row > 0 && col > 0 ==> off + RowMajor(step, row - 1, col - 1) < len)
  }

  lemma WindowIndex(len: int, off: int, step: int, row: int, col: int, i: int, j: int)
    requires WindowFits(len, off, step, row, col) && 0 <= i < row && 0 <= j < col
    ensures 0 <= off + RowMajor(step, i, j) < len
  {
    MulMono(i, row - 1, step);
    MulMono(0, i, step);
  }

  /** A sub-window of a matrix of leading dimension ld. */
  lemma SubWindow(len: int, ld: int, rows: int, cols: int, r0: int, c0: int, row: int, col: int)
    requires WindowFits(len, 0, ld, rows, cols)
    requires 0 <= r0 && 0 <= c0 && r0 + row <= rows && c0 + col <= cols
    ensures WindowFits(len, r0 * ld + c0, ld, row, col)
    ensures forall i, j :: (r0 * ld + c0) + RowMajor(ld, i, j) == RowMajor(ld, r0 + i, c0 + j)
  {
    MulMono(0, r0, ld);
    forall i, j
      ensures (r0 * ld + c0) + RowMajor(ld, i, j) == RowMajor(ld, r0 + i, c0 + j)
    {
      assert (r0 + i) * ld == r0 * ld + i * ld;
    }
    if row > 0 && col > 0 {
      WindowIndex(len, 0, ld, rows, cols, r0 + row - 1, c0 + col - 1);
    }
  }

  /** Element (i, j) of a row x col window, zero outside it. */
  function Padded<T>(s: seq<T>, off: int, step: int, row: int, col: int, zero: T, i: int, j: int): T
    requires WindowFits(|s|, off, step, row, col)
  {
    if 0 <= i < row && 0 <= j < col then
      WindowIndex(|s|, off, step, row, col, i, j);
      s[off + RowMajor(step, i, j)]
    else zero
  }

  /** The slice of a packed buffer that a packing call owns. */
  predicate SliceOf(l: Layout, k0: int, n0: int, rowpad: int, colpad: int) {
    && 0 <= k0 && 0 <= n0 && 0 <= rowpad && 0 <= colpad
    && k0 % l.packRow == 0 && rowpad % l.packRow == 0 && k0 + rowpad <= l.kpad
    && n0 % l.ntile == 0 && colpad % l.ntile == 0 && n0 + colpad <= l.npad
  }

  predicate InSlice(k0: int, n0: int, rowpad: int, colpad: int, k: int, n: int) {
    k0 <= k < k0 + rowpad && n0 <= n < n0 + colpad
  }

  /** Progress of the interleaving loops: row packs before i, then columns before n, then ii rows of column n. */
  predicate Done(p: int, i: int, n: int, ii: int, k': int, n': int) {
    k' < i || (k' < i + p && n' < n) || (k' < i + ii && n' == n)
  }

  /** ref::padding_interleave: copy a row x col window into a slice of the packed buffer, zero-padded. */
  method PaddingInterleave<T>(src: array<T>, soff: int, dst: array<T>, doff: int, row: nat, col: nat, rowpad: nat,
                              colpad: nat, srcStep: int, dstStep: int, ntile: pos, rowPack: pos, zero: T,
                              ghost l: Layout, ghost k0: int, ghost n0: int)
    requires src != dst && WindowFits(src.Length, soff, srcStep, row, col)
    requires l.Valid() && l.ntile == ntile && l.packRow == rowPack && l.kpad == dstStep && dst.Length == l.Size()
    requires SliceOf(l, k0, n0, rowpad, colpad) && doff == k0 * ntile + n0 * dstStep
    modifies dst
    ensures forall k, n | l.In(k, n) ::
              l.At(dst[..], k, n) == if InSlice(k0, n0, rowpad, colpad, k, n)
              then Padded(src[..], soff, srcStep, row, col, zero, k - k0, n - n0)
              else old(l.At(dst[..], k, n))
  {
    ghost var d0 := dst[..];
    var i := 0;
    while i < rowpad
      invariant i % rowPack == 0 && 0 <= i <= rowpad
      invariant Interleaved(l, dst[..], d0, src[..], soff, srcStep, row, col, zero, k0, n0, rowpad, colpad, i, 0, 0)
    {
      var j := 0;
      MultiplesApart(i, rowpad, rowPack);
      while j < colpad
        invariant j % ntile == 0 && 0 <= j <= colpad
        invariant Interleaved(l, dst[..], d0, src[..], soff, srcStep, row, col, zero, k0, n0, rowpad, colpad, i, j, 0)
      {
        MultiplesApart(j, colpad, ntile);
        for jj := 0 to ntile
          invariant Interleaved(l, dst[..], d0, src[..], soff, srcStep, row, col, zero, k0, n0, rowpad, colpad, i,
                                j + jj, 0)
        {
          InterleaveColumn(src, soff, dst, doff, row, col, rowpad, colpad, srcStep, dstStep, ntile, rowPack, zero,
                           l, k0, n0, d0, i, j, jj);
        }
        DivUnique(ntile, ntile, 1, 0);
        MultiplesAdd(j, ntile, ntile);
        j := j + ntile;
      }
      DivUnique(rowPack, rowPack, 1, 0);
      MultiplesAdd(i, rowPack, rowPack);
      i := i + rowPack;
    }
  }

  /** Every element of the buffer: the slice is filled as far as the loops have come, the rest is untouched. */
  ghost predicate Interleaved<T>(l: Layout, d: seq<T>, d0: seq<T>, s: seq<T>, soff: int, srcStep: int, row: int,
                                 col: int, zero: T, k0: int, n0: int, rowpad: int, colpad: int, i: int, nDone: int,
                                 ii: int)
    requires l.Valid() && |d| == |d0| == l.Size() && WindowFits(|s|, soff, srcStep, row, col)
  {
    forall k, n | l.In(k, n) ::
      l.At(d, k, n) == if InSlice(k0, n0, rowpad, colpad, k, n) && Done(l.packRow, i, nDone, ii, k - k0, n - n0)
      then Padded(s, soff, srcStep, row, col, zero, k - k0, n - n0)
      else l.At(d0, k, n)
  }

  /** The innermost loop: the PACK_ROW interleaved rows of one column. */
  method InterleaveColumn<T>(src: array<T>, soff: int, dst: array<T>, doff: int, row: nat, col: nat, ghost rowpad: nat,
                             ghost colpad: nat, srcStep: int, dstStep: int, ntile: pos, rowPack: pos, zero: T,
                             ghost l: Layout, ghost k0: int, ghost n0: int, ghost d0: seq<T>, i: nat, j: nat, jj: nat)
    requires src != dst && WindowFits(src.Length, soff, srcStep, row, col)
    requires l.Valid() && l.ntile == ntile && l.packRow == rowPack && l.kpad == dstStep
    requires dst.Length == l.Size() == |d0|
    requires SliceOf(l, k0, n0, rowpad, colpad) && doff == k0 * ntile + n0 * dstStep
    requires i % rowPack == 0 && i + rowPack <= rowpad && j % ntile == 0 && jj < ntile && j + ntile <= colpad
    requires Interleaved(l, dst[..], d0, src[..], soff, srcStep, row, col, zero, k0, n0, rowpad, colpad, i, j + jj, 0)
    modifies dst
    ensures Interleaved(l, dst[..], d0, src[..], soff, srcStep, row, col, zero, k0, n0, rowpad, colpad, i, j + jj + 1,
                        0)
  {
    for ii := 0 to rowPack
      invariant Interleaved(l, dst[..], d0, src[..], soff, srcStep, row, col, zero, k0, n0, rowpad, colpad, i, j + jj,
                            ii)
    {
      l.Address(k0, n0, i, j, jj, ii);
      var at := doff + i * ntile + j * dstStep + jj * rowPack + ii;
      var x := zero;
      if i + ii < row && j + jj < col {
        WindowIndex(src.Length, soff, srcStep, row, col, i + ii, j + jj);
        x := src[soff + ((i + ii) * srcStep + (j + jj))];
      }
      ghost var before := dst[..];
      dst[at] := x;
      l.PutCell(before, dst[..], k0 + i + ii, n0 + j + jj, x);
    }
  }

  // ----- Memcpy2D and slices of packed weights

  /** ref::memcpy2d: copies a row x col window, storing to each of its places once; every other place of dst keeps its
      value. `stores` counts the stores to each place. */
  method Memcpy2D<T>(src: array<T>, soff: int, dst: array<T>, doff: int, row: nat, col: nat, srcStep: int, dstStep: pos)
    returns (ghost stores: int -> nat)
    requires src != dst && WindowFits(src.Length, soff, srcStep, row, col)
    requires WindowFits(dst.Length, doff, dstStep, row, col) && col <= dstStep
    modifies dst
    ensures Copied(dst[..], old(dst[..]), src[..], soff, doff, row, col, srcStep, dstStep, row, 0)
    ensures forall q :: stores(q) == if InWindow(doff, dstStep, row, col, q) then 1 else 0
  {
    ghost var d0 := dst[..];
    stores := q => 0;
    NoneCopied(d0, src[..], soff, doff, row, col, srcStep, dstStep);
    NoneCounted(stores, doff, row, col, dstStep);
    for i := 0 to row
      invariant Copied(dst[..], d0, src[..], soff, doff, row, col, srcStep, dstStep, i, 0)
      invariant Counted(stores, doff, row, col, dstStep, i, 0)
    {
      for j := 0 to col
        invariant Copied(dst[..], d0, src[..], soff, doff, row, col, srcStep, dstStep, i, j)
        invariant Counted(stores, doff, row, col, dstStep, i, j)
      {
        WindowIndex(src.Length, soff, srcStep, row, col, i, j);
        WindowIndex(dst.Length, doff, dstStep, row, col, i, j);
        ghost var before := dst[..];
        dst[doff + (i * dstStep + j)] := src[soff + (i * srcStep + j)];
        CopyStep(before, dst[..], d0, src[..], soff, doff, row, col, srcStep, dstStep, i, j);
        CountStep(stores, doff, row, col, dstStep, i, j);
        stores := Stored(stores, doff + (i * dstStep + j));
      }
      RowCopied(dst[..], d0, src[..], soff, doff, row, col, srcStep, dstStep, i);
      RowCounted(stores, doff, row, col, dstStep, i);
    }
    AllCounted(stores, doff, row, col, dstStep);
  }

  /** One more store to place `at`. */
  ghost function Stored(stores: int -> nat, at: int): int -> nat {
    q => stores(q) + if q == at then 1 else 0
  }

  /** The places passed have been stored to once, the others not at all. */
  ghost predicate Counted(stores: int -> nat, doff: int, row: int, col: int, dstStep: pos, i: int, j: int) {
    forall q :: stores(q) == if InWindow(doff, dstStep, row, col, q) && Passed(doff, dstStep, i, j, q) then 1 else 0
  }

  lemma NoneCounted(stores: int -> nat, doff: int, row: int, col: int, dstStep: pos)
    requires forall q :: stores(q) == 0
    ensures Counted(stores, doff, row, col, dstStep, 0, 0)
  {
    forall q | InWindow(doff, dstStep, row, col, q)
      ensures !Passed(doff, dstStep, 0, 0, q)
    {
      WindowPlace(doff, dstStep, row, col, q);
    }
  }

  lemma CountStep(stores: int -> nat, doff: int, row: int, col: int, dstStep: pos, i: nat, j: nat)
    requires i < row && j < col <= dstStep && Counted(stores, doff, row, col, dstStep, i, j)
    ensures Counted(Stored(stores, doff + RowMajor(dstStep, i, j)), doff, row, col, dstStep, i, j + 1)
  {
    WindowCoord(doff, dstStep, row, col, i, j);
    var at := doff + RowMajor(dstStep, i, j);
    forall q | q != at && InWindow(doff, dstStep, row, col, q)
      ensures (q - doff) / dstStep != i || (q - doff) % dstStep != j
    {
      WindowPlace(doff, dstStep, row, col, q);
    }
  }

  lemma RowCounted(stores: int -> nat, doff: int, row: int, col: int, dstStep: pos, i: int)
    requires Counted(stores, doff, row, col, dstStep, i, col)
    ensures Counted(stores, doff, row, col, dstStep, i + 1, 0)
  {
    forall q | InWindow(doff, dstStep, row, col, q)
      ensures Passed(doff, dstStep, i, col, q) <==> Passed(doff, dstStep, i + 1, 0, q)
    {
      WindowPlace(doff, dstStep, row, col, q);
    }
  }

  lemma AllCounted(stores: int -> nat, doff: int, row: int, col: int, dstStep: pos)
    requires Counted(stores, doff, row, col, dstStep, row, 0)
    ensures forall q :: stores(q) == if InWindow(doff, dstStep, row, col, q) then 1 else 0
  {
    forall q | InWindow(doff, dstStep, row, col, q)
      ensures Passed(doff, dstStep, row, 0, q)
    {
      WindowPlace(doff, dstStep, row, col, q);
    }
  }

  lemma NoneCopied<T>(d0: seq<T>, s: seq<T>, soff: int, doff: int, row: int, col: int, srcStep: int, dstStep: pos)
    requires WindowFits(|s|, soff, srcStep, row, col)
    ensures Copied(d0, d0, s, soff, doff, row, col, srcStep, dstStep, 0, 0)
  {
    forall q | 0 <= q < |d0| && InWindow(doff, dstStep, row, col, q)
      ensures !Passed(doff, dstStep, 0, 0, q)
    {
      WindowPlace(doff, dstStep, row, col, q);
    }
  }

  lemma RowCopied<T>(d: seq<T>, d0: seq<T>, s: seq<T>, soff: int, doff: int, row: int, col: int, srcStep: int,
                     dstStep: pos, i: int)
    requires |d| == |d0| && WindowFits(|s|, soff, srcStep, row, col)
    requires Copied(d, d0, s, soff, doff, row, col, srcStep, dstStep, i, col)
    ensures Copied(d, d0, s, soff, doff, row, col, srcStep, dstStep, i + 1, 0)
  {
    forall q | 0 <= q < |d| && InWindow(doff, dstStep, row, col, q)
      ensures Passed(doff, dstStep, i, col, q) <==> Passed(doff, dstStep, i + 1, 0, q)
    {
      WindowPlace(doff, dstStep, row, col, q);
    }
  }

  /** Place q of the window comes before element j of row i. */
  predicate Passed(doff: int, dstStep: pos, i: int, j: int, q: int) {
    (q - doff) / dstStep < i || ((q - doff) / dstStep == i && (q - doff) % dstStep < j)
  }

  /** Rows before i and the first j places of row i hold the source window; all else is as in d0. */
  ghost predicate Copied<T>(d: seq<T>, d0: seq<T>, s: seq<T>, soff: int, doff: int, row: int, col: int, srcStep: int,
                            dstStep: pos, i: int, j: int)
    requires |d| == |d0| && WindowFits(|s|, soff, srcStep, row, col)
  {
    forall q | 0 <= q < |d| ::
      d[q] == if InWindow(doff, dstStep, row, col, q) && Passed(doff, dstStep, i, j, q)
      then SourceOf(s, soff, doff, row, col, srcStep, dstStep, q)
      else d0[q]
  }

  function SourceOf<T>(s: seq<T>, soff: int, doff: int, row: int, col: int, srcStep: int, dstStep: pos, q: int): T
    requires WindowFits(|s|, soff, srcStep, row, col) && InWindow(doff, dstStep, row, col, q)
  {
    WindowPlace(doff, dstStep, row, col, q);
    WindowIndex(|s|, soff, srcStep, row, col, (q - doff) / dstStep, (q - doff) % dstStep);
    s[soff + RowMajor(srcStep, (q - doff) / dstStep, (q - doff) % dstStep)]
  }

  lemma CopyStep<T>(b: seq<T>, d: seq<T>, d0: seq<T>, s: seq<T>, soff: int, doff: int, row: int, col: int, srcStep: int,
                    dstStep: pos, i: nat, j: nat)
    requires |b| == |d0| && WindowFits(|s|, soff, srcStep, row, col) && WindowFits(|b|, doff, dstStep, row, col)
    requires i < row && j < col <= dstStep
    requires Copied(b, d0, s, soff, doff, row, col, srcStep, dstStep, i, j)
    requires 0 <= doff + RowMajor(dstStep, i, j) < |b| && 0 <= soff + RowMajor(srcStep, i, j) < |s|
    requires d == b[doff + RowMajor(dstStep, i, j) := s[soff + RowMajor(srcStep, i, j)]]
    ensures Copied(d, d0, s, soff, doff, row, col, srcStep, dstStep, i, j + 1)
  {
    WindowCoord(doff, dstStep, row, col, i, j);
    var at := doff + RowMajor(dstStep, i, j);
    forall q | 0 <= q < |d| && q != at && InWindow(doff, dstStep, row, col, q)
      ensures (q - doff) / dstStep != i || (q - doff) % dstStep != j
    {
      WindowPlace(doff, dstStep, row, col, q);
    }
  }

  /** The slice (k0.., n0..) of ks x ns elements starts and ends on tile boundaries. */
  predicate AlignedSlice(l: Layout, k0: int, n0: int, ks: int, ns: int) {
    && 0 <= k0 && 0 <= n0 && 0 < ks && 0 < ns
    && k0 % l.packRow == 0 && ks % l.packRow == 0 && k0 + ks <= l.kpad
    && n0 % l.ntile == 0 && ns % l.ntile == 0 && n0 + ns <= l.npad
  }

  /** The layout of a slice copied out of l. */
  function SliceLayout(l: Layout, ks: nat, ns: nat): Layout {
    Layout(l.ntile, l.packRow, ks, ns)
  }

  /** getWeight / getQ8Weight: copies a slice of the packed buffer into a buffer packed for the slice alone. */
  method GetWeight<T>(w: array<T>, kpad: int, dst: array<T>, ks: int, ns: int, k0: int, n0: int, ntile: pos,
                      ghost l: Layout) returns (dstStep: int)
    requires w != dst && l.Valid() && l.ntile == ntile && l.kpad == kpad && w.Length == l.Size()
    requires AlignedSlice(l, k0, n0, ks, ns) && dst.Length >= ks * ns
    modifies dst
    ensures dstStep == ks
    ensures SliceLayout(l, ks, ns).Valid()
    ensures forall k, n | SliceLayout(l, ks, ns).In(k, n) ::
              l.In(k0 + k, n0 + n) && SliceLayout(l, ks, ns).At(dst[..], k, n) == l.At(w[..], k0 + k, n0 + n)
  {
    assert ntile * ks > 0;
    SliceWindow(l, k0, n0, ks, ns);
    ghost var d0 := dst[..];
    ghost var _ := Memcpy2D(w, n0 * kpad + k0 * ntile, dst, 0, ns / ntile, ntile * ks, ntile * kpad, ntile * ks);
    forall k, n | SliceLayout(l, ks, ns).In(k, n)
      ensures l.In(k0 + k, n0 + n) && SliceLayout(l, ks, ns).At(dst[..], k, n) == l.At(w[..], k0 + k, n0 + n)
    {
      SliceElement(l, w[..], d0, dst[..], k0, n0, ks, ns, k, n);
    }
    dstStep := ks;
  }

  lemma SliceWindow(l: Layout, k0: int, n0: int, ks: int, ns: int)
    requires l.Valid() && AlignedSlice(l, k0, n0, ks, ns)
    ensures n0 * l.kpad == n0 / l.ntile * (l.ntile * l.kpad)
    ensures WindowFits(l.Size(), n0 * l.kpad + k0 * l.ntile, l.ntile * l.kpad, ns / l.ntile, l.ntile * ks)
    ensures ns / l.ntile >= 0
    ensures WindowFits(ks * ns, 0, l.ntile * ks, ns / l.ntile, l.ntile * ks)
  {
    var nt := l.ntile;
    WholeTiles(ns, nt);
    PanelRange(n0, ns, l.npad, nt);
    DivMod(n0, nt);
    DivMod(ns, nt);
    DivMod(l.npad, nt);
    Layout.PanelStart(n0 / nt, nt, l.kpad);
    Layout.PanelStart(l.npad / nt, nt, l.kpad);
    Layout.PanelStart(ns / nt, nt, ks);
    assert l.kpad * l.npad == l.npad * l.kpad && ks * ns == ns * ks;
    PanelWindow(n0 / nt, ns / nt, l.npad / nt, nt, l.kpad, k0, ks);
    PanelWindow(0, ns / nt, ns / nt, nt, ks, 0, ks);
  }

  lemma PanelRange(n0: int, ns: int, npad: int, nt: pos)
    requires 0 <= n0 && 0 < ns && n0 + ns <= npad && n0 % nt == 0 && ns % nt == 0 && npad % nt == 0
    ensures 0 <= n0 / nt && n0 / nt + ns / nt <= npad / nt
  {
    DivBounds(n0, nt, 0);
    MultiplesAdd(n0, ns, nt);
    DivMod(npad, nt);
    DivBounds(n0 + ns, nt, npad / nt + 1);
    assert (npad / nt + 1) * nt == npad / nt * nt + nt;
  }

  lemma PanelWindow(y: nat, rows: pos, panels: nat, nt: pos, kpad: pos, k0: nat, ks: pos)
    requires y + rows <= panels && k0 + ks <= kpad
    ensures WindowFits(panels * (nt * kpad), y * (nt * kpad) + k0 * nt, nt * kpad, rows, nt * ks)
  {
    var p := nt * kpad;
    assert p > 0 && y * p >= 0 && k0 * nt >= 0;
    MulMono(k0 + ks, kpad, nt);
    assert (k0 + ks) * nt == k0 * nt + nt * ks && kpad * nt == p;
    assert nt * ks > 0;
    RowMajorBounds(p, panels, y + rows - 1, k0 * nt + nt * ks - 1);
    assert (y + rows - 1) * p == y * p + (rows - 1) * p;
  }

  lemma WholeTiles(ns: int, nt: pos)
    requires ns > 0 && ns % nt == 0
    ensures ns / nt >= 1
  {
    DivMod(ns, nt);
    if ns / nt <= 0 { MulMono(ns / nt, 0, nt); }
  }

  lemma SliceElement<T>(l: Layout, w: seq<T>, d0: seq<T>, d: seq<T>, k0: int, n0: int, ks: int, ns: int, k: int, n: int)
    requires l.Valid() && |w| == l.Size() && AlignedSlice(l, k0, n0, ks, ns) && |d| == |d0| >= ks * ns
    requires WindowFits(|w|, n0 * l.kpad + k0 * l.ntile, l.ntile * l.kpad, ns / l.ntile, l.ntile * ks)
    requires l.ntile * ks > 0
    requires Copied(d, d0, w, n0 * l.kpad + k0 * l.ntile, 0, ns / l.ntile, l.ntile * ks, l.ntile * l.kpad, l.ntile * ks,
                    ns / l.ntile, 0)
    requires SliceLayout(l, ks, ns).In(k, n)
    ensures SliceLayout(l, ks, ns).Valid() && l.In(k0 + k, n0 + n)
    ensures SliceLayout(l, ks, ns).At(d, k, n) == l.At(w, k0 + k, n0 + n)
  {
    var sl := SliceLayout(l, ks, ns);
    sl.PanelSplit(k, n);
    l.PanelSplit(k0 + k, n0 + n);
    ModShift(n0, n, l.ntile);
    ModShift(k0, k, l.packRow);
    Layout.PanelStart(n0 / l.ntile, l.ntile, l.kpad);
    DivMod(n0, l.ntile);
    var q := sl.Idx(k, n);
    var row, inner := n / l.ntile, sl.Inner(k, n % l.ntile);
    WindowCoord(0, l.ntile * ks, ns / l.ntile, l.ntile * ks, row, inner);
    AddTimes(k0, k - k % l.packRow, l.ntile);
    AddTimes(n0 / l.ntile, row, l.ntile * l.kpad);
  }

  // ----- threaded packing

  /** The packed buffer of a K x N matrix. */
  function PackedLayout(kk: nat, nn: nat, ktile: pos, ntile: pos, packRow: pos): Layout {
    Layout(ntile, packRow, Padto(kk, ktile), Padto(nn, ntile))
  }

  lemma PackedLayoutValid(kk: nat, nn: nat, ktile: pos, ntile: pos, packRow: pos)
    requires ktile % packRow == 0
    ensures PackedLayout(kk, nn, ktile, ntile, packRow).Valid()
  {
    PadtoBounds(kk, ktile);
    PadtoBounds(nn, ntile);
    MultipleTrans(Padto(kk, ktile), ktile, packRow);
  }

  /** d is the zero-padded packing of the K x N matrix s: what one whole-matrix padding_interleave writes. */
  ghost predicate PackedAs<T>(l: Layout, d: seq<T>, s: seq<T>, ldb: int, kk: int, nn: int, zero: T) {
    && l.Valid() && |d| == l.Size() && WindowFits(|s|, 0, ldb, kk, nn)
    && forall k, n | l.In(k, n) :: l.At(d, k, n) == Padded(s, 0, ldb, kk, nn, zero, k, n)
  }

  /** What a thread of a packing run is given. */
  ghost predicate PackShare(p: ThreadProblem, kk: nat, nn: nat, ktile: pos, ntile: pos) {
    && 0 <= p.loc.d0 && p.loc.d0 % ktile == 0 && 0 < p.size.d0 && p.loc.d0 + p.size.d0 <= kk
    && 0 <= p.loc.d1 && p.loc.d1 % ntile == 0 && 0 < p.size.d1 && p.loc.d1 + p.size.d1 <= nn
    && (p.loc.d0 + p.size.d0 == kk || p.size.d0 % ktile == 0)
    && (p.loc.d1 + p.size.d1 == nn || p.size.d1 % ntile == 0)
  }

  /** One axis of a share: padding it to whole tiles stays inside the padded problem and adds nothing another
      share holds. */
  lemma PaddedAxis(loc: nat, size: pos, total: nat, tile: pos)
    requires loc % tile == 0 && loc + size <= total && (loc + size == total || size % tile == 0)
    ensures size <= Padto(size, tile) && Padto(size, tile) % tile == 0
    ensures loc + Padto(size, tile) <= Padto(total, tile)
    ensures loc + size < total ==> Padto(size, tile) == size
    ensures loc + size == total ==> loc + Padto(size, tile) == Padto(total, tile)
  {
    PadtoBounds(size, tile);
    PadtoBounds(total, tile);
    MultiplesAdd(loc, Padto(size, tile), tile);
    if loc + size == total {
      if loc + Padto(size, tile) < Padto(total, tile) {
        MultiplesApart(loc + Padto(size, tile), Padto(total, tile), tile);
      } else if Padto(total, tile) < loc + Padto(size, tile) {
        MultiplesApart(Padto(total, tile), loc + Padto(size, tile), tile);
      }
    } else if Padto(total, tile) < loc + size {
      MultiplesApart(Padto(total, tile), loc + size, tile);
    }
  }

  /** WeightPack::run and the body of reorderWeight: one thread packs its share, padded to whole tiles. */
  method PackThread<T>(src: array<T>, ldb: int, dst: array<T>, kk: nat, nn: nat, ktile: pos, ntile: pos, packRow: pos,
                       zero: T, p: ThreadProblem)
    requires src != dst && WindowFits(src.Length, 0, ldb, kk, nn) && ktile % packRow == 0
    requires dst.Length == PackedLayout(kk, nn, ktile, ntile, packRow).Size()
    requires PackShare(p, kk, nn, ktile, ntile)
    modifies dst
    ensures PackedLayout(kk, nn, ktile, ntile, packRow).Valid()
    ensures forall k, n | PackedLayout(kk, nn, ktile, ntile, packRow).In(k, n) ::
              PackedLayout(kk, nn, ktile, ntile, packRow).At(dst[..], k, n)
              == if InSlice(p.loc.d0, p.loc.d1, Padto(p.size.d0, ktile), Padto(p.size.d1, ntile), k, n)
              then Padded(src[..], 0, ldb, kk, nn, zero, k, n)
              else old(PackedLayout(kk, nn, ktile, ntile, packRow).At(dst[..], k, n))
  {
    PackedLayoutValid(kk, nn, ktile, ntile, packRow);
    ghost var l := PackedLayout(kk, nn, ktile, ntile, packRow);
    PaddedAxis(p.loc.d0, p.size.d0, kk, ktile);
    PaddedAxis(p.loc.d1, p.size.d1, nn, ntile);
    var rowpadded := Padto(p.size.d0, ktile);
    var colpadded := Padto(p.size.d1, ntile);
    MultipleTrans(rowpadded, ktile, packRow);
    MultipleTrans(p.loc.d0, ktile, packRow);
    SubWindow(src.Length, ldb, kk, nn, p.loc.d0, p.loc.d1, p.size.d0, p.size.d1);
    var kpad := Padto(kk, ktile);
    PaddingInterleave(src, p.loc.d0 * ldb + p.loc.d1, dst, p.loc.d0 * ntile + p.loc.d1 * kpad, p.size.d0, p.size.d1,
                      rowpadded, colpadded, ldb, kpad, ntile, packRow, zero, l, p.loc.d0, p.loc.d1);
    forall k, n | l.In(k, n) && InSlice(p.loc.d0, p.loc.d1, rowpadded, colpadded, k, n)
      ensures Padded(src[..], p.loc.d0 * ldb + p.loc.d1, ldb, p.size.d0, p.size.d1, zero, k - p.loc.d0, n - p.loc.d1)
           == Padded(src[..], 0, ldb, kk, nn, zero, k, n)
    {
      var i, j := k - p.loc.d0, n - p.loc.d1;
      assert (p.loc.d0 * ldb + p.loc.d1) + RowMajor(ldb, i, j) == RowMajor(ldb, p.loc.d0 + i, p.loc.d1 + j);
    }
  }

  /** parallel_for runs every thread id below t once, in some order. */
  ghost predicate RunsAll(order: seq<nat>, t: nat) {
    && (forall x | x in order :: x < t)
    && (forall x: nat | x < t :: x in order)
    && (forall i, j | 0 <= i < j < |order| :: order[i] != order[j])
  }

  lemma SharesOf(g: Grid, kk: nat, nn: nat, ktile: pos, ntile: pos, threads: int, tid: nat)
    requires Tiling(g, Dim2(ktile, ntile), threads) && g.size == Dim2(kk, nn) && tid < g.valid
    ensures g.perRow > 0 && PackShare(GetIndex(g, tid), kk, nn, ktile, ntile)
  {
    RectangleShape(g, Dim2(ktile, ntile), threads, tid);
  }

  /** The thread whose padded share holds (k, n), padding included. */
  function PaddedOwner(g: Grid, k: nat, n: nat): int
    requires g.size.d0 > 0 && g.size.d1 > 0 && g.thd.d0 > 0 && g.thd.d1 > 0
  {
    Owner(g, Min(k, g.size.d0 - 1), Min(n, g.size.d1 - 1))
  }

  lemma PaddedOwnerHolds(g: Grid, kk: pos, nn: pos, ktile: pos, ntile: pos, threads: int, k: nat, n: nat)
    requires Tiling(g, Dim2(ktile, ntile), threads) && g.size == Dim2(kk, nn)
    requires k < Padto(kk, ktile) && n < Padto(nn, ntile)
    ensures g.perRow > 0
    ensures 0 <= PaddedOwner(g, k, n) < g.valid
    ensures var p := GetIndex(g, PaddedOwner(g, k, n));
            p.size.d0 > 0 && p.size.d1 > 0 &&
            InSlice(p.loc.d0, p.loc.d1, Padto(p.size.d0, ktile), Padto(p.size.d1, ntile), k, n)
  {
    ExactCover(g, Dim2(ktile, ntile), threads, Min(k, kk - 1), Min(n, nn - 1));
    var tid := PaddedOwner(g, k, n);
    SharesOf(g, kk, nn, ktile, ntile, threads, tid);
    var p := GetIndex(g, tid);
    assert Inside(p, Min(k, kk - 1), Min(n, nn - 1));
    PaddedAxis(p.loc.d0, p.size.d0, kk, ktile);
    PaddedAxis(p.loc.d1, p.size.d1, nn, ntile);
  }

  /** packWeight / reorderWeight: for every thread count and every order in which the threads run, the buffer
      ends as the zero-padded packing of the matrix. */
  method PackWeight<T>(src: array<T>, ldb: int, dst: array<T>, kk: nat, nn: nat, ktile: pos, ntile: pos, packRow: pos,
                       zero: T, threads: pos, order: seq<nat>)
    requires src != dst && WindowFits(src.Length, 0, ldb, kk, nn) && ktile % packRow == 0
    requires dst.Length == PackedLayout(kk, nn, ktile, ntile, packRow).Size()
    requires RunsAll(order, threads)
    modifies dst
    ensures PackedAs(PackedLayout(kk, nn, ktile, ntile, packRow), dst[..], src[..], ldb, kk, nn, zero)
  {
    PackedLayoutValid(kk, nn, ktile, ntile, packRow);
    ghost var l := PackedLayout(kk, nn, ktile, ntile, packRow);
    var sch := new Scheduler2D(threads, Dim2(kk, nn), Dim2(ktile, ntile));
    ghost var g := sch.State();
    UpdivBounds(kk, ktile, 0);
    UpdivBounds(nn, ntile, 0);
    for i := 0 to |order|
      invariant sch.State() == g
      invariant kk > 0 && nn > 0 ==> OwnedDone(l, dst[..], g, order[..i], src[..], ldb, kk, nn, zero)
    {
      PerRowPositive(g, Dim2(ktile, ntile), threads);
      var p := sch.GetThreadProblem(order[i]);
      if p.valid {
        SharesOf(g, kk, nn, ktile, ntile, threads, order[i]);
        PackThread(src, ldb, dst, kk, nn, ktile, ntile, packRow, zero, p);
      }
      if kk > 0 && nn > 0 {
        PackedSoFar(l, dst[..], g, order, i, src[..], ldb, kk, nn, ktile, zero, threads);
      }
    }
    assert order[..|order|] == order;
    forall k, n | l.In(k, n)
      ensures l.At(dst[..], k, n) == Padded(src[..], 0, ldb, kk, nn, zero, k, n)
    {
      PaddedOwnerHolds(g, kk, nn, ktile, ntile, threads, k, n);
    }
  }

  /** Every element whose owner has run holds its packed value. */
  ghost predicate OwnedDone<T>(l: Layout, d: seq<T>, g: Grid, ran: seq<nat>, s: seq<T>, ldb: int, kk: int, nn: int,
                               zero: T)
    requires l.Valid() && |d| >= l.Size() && WindowFits(|s|, 0, ldb, kk, nn)
    requires g.size.d0 > 0 && g.size.d1 > 0 && g.thd.d0 > 0 && g.thd.d1 > 0
  {
    forall k, n | l.In(k, n) && PaddedOwner(g, k, n) in ran :: l.At(d, k, n) == Padded(s, 0, ldb, kk, nn, zero, k, n)
  }

  ghost predicate ShareDone<T>(l: Layout, d: seq<T>, p: ThreadProblem, s: seq<T>, ldb: int, kk: int, nn: int,
                               ktile: pos, zero: T)
    requires l.Valid() && |d| >= l.Size() && WindowFits(|s|, 0, ldb, kk, nn)
  {
    p.size.d0 > 0 && p.size.d1 > 0 &&
    forall k, n | l.In(k, n) && InSlice(p.loc.d0, p.loc.d1, Padto(p.size.d0, ktile), Padto(p.size.d1, l.ntile), k, n) ::
      l.At(d, k, n) == Padded(s, 0, ldb, kk, nn, zero, k, n)
  }

  lemma PackedSoFar<T>(l: Layout, d: seq<T>, g: Grid, order: seq<nat>, i: nat, s: seq<T>, ldb: int, kk: pos, nn: pos,
                       ktile: pos, zero: T, threads: int)
    requires i < |order| && l == PackedLayout(kk, nn, ktile, l.ntile, l.packRow) && l.Valid() && |d| == l.Size()
    requires WindowFits(|s|, 0, ldb, kk, nn)
    requires Tiling(g, Dim2(ktile, l.ntile), threads) && g.size == Dim2(kk, nn)
    requires OwnedDone(l, d, g, order[..i], s, ldb, kk, nn, zero)
    requires g.valid > order[i] ==> g.perRow > 0
    requires GetIndex(g, order[i]).valid ==> ShareDone(l, d, GetIndex(g, order[i]), s, ldb, kk, nn, ktile, zero)
    ensures OwnedDone(l, d, g, order[..i + 1], s, ldb, kk, nn, zero)
  {
    assert order[..i + 1] == order[..i] + [order[i]];
    forall k, n | l.In(k, n) && PaddedOwner(g, k, n) in order[..i + 1]
      ensures l.At(d, k, n) == Padded(s, 0, ldb, kk, nn, zero, k, n)
    {
      PaddedOwnerHolds(g, kk, nn, ktile, l.ntile, threads, k, n);
    }
  }

  /** The packed buffer is determined by the matrix: thread counts and orders leave no trace. */
  lemma PackedUnique<T>(l: Layout, d: seq<T>, d': seq<T>, s: seq<T>, ldb: int, kk: int, nn: int, zero: T)
    requires PackedAs(l, d, s, ldb, kk, nn, zero) && PackedAs(l, d', s, ldb, kk, nn, zero)
    ensures d == d'
  {
    l.Extensional(d, d');
  }

  // ----- unpacking

  /** The elements of the destination window reverted so far. */
  ghost predicate Reverted<T>(l: Layout, s: seq<T>, d: seq<T>, d0: seq<T>, doff: int, row: int, col: int, dstStep: pos,
                              i: int, nDone: int, ii: int)
    requires l.Valid() && |s| >= l.Size() && |d| == |d0| && row <= l.kpad && col <= l.npad
  {
    forall q | 0 <= q < |d| ::
      d[q] == if InWindow(doff, dstStep, row, col, q) && Done(l.packRow, i, nDone, ii, (q - doff) / dstStep,
                                                              (q - doff) % dstStep)
      then RevertedFrom(l, s, doff, row, col, dstStep, q)
      else d0[q]
  }

  function RevertedFrom<T>(l: Layout, s: seq<T>, doff: int, row: int, col: int, dstStep: pos, q: int): T
    requires l.Valid() && |s| >= l.Size() && row <= l.kpad && col <= l.npad && InWindow(doff, dstStep, row, col, q)
  {
    WindowPlace(doff, dstStep, row, col, q);
    l.At(s, (q - doff) / dstStep, (q - doff) % dstStep)
  }

  /** ref::revert_padding_interleave: writes the packed elements back to a row-major window, dropping the padding. */
  method RevertPaddingInterleave<T>(src: array<T>, dst: array<T>, doff: int, row: nat, col: nat, rowpad: nat,
                                    colpad: nat, srcStep: int, dstStep: pos, ntile: pos, rowPack: pos, ghost l: Layout)
    requires src != dst && l.Valid() && l.ntile == ntile && l.packRow == rowPack && l.kpad == srcStep
    requires src.Length >= l.Size() && row <= rowpad <= l.kpad && col <= colpad <= l.npad
    requires rowpad % rowPack == 0 && colpad % ntile == 0
    requires WindowFits(dst.Length, doff, dstStep, row, col) && col <= dstStep
    modifies dst
    ensures Reverted(l, src[..], dst[..], old(dst[..]), doff, row, col, dstStep, row, 0, 0)
  {
    ghost var d0 := dst[..];
    NoneReverted(l, src[..], d0, doff, row, col, dstStep);
    var i := 0;
    DivUnique(0, rowPack, 0, 0);
    while i < rowpad
      invariant i % rowPack == 0 && 0 <= i <= rowpad
      invariant Reverted(l, src[..], dst[..], d0, doff, row, col, dstStep, i, 0, 0)
    {
      RevertRowPack(src, dst, doff, row, col, colpad, srcStep, dstStep, ntile, rowPack, l, d0, i);
      NextMultiple(i, rowpad, rowPack);
      i := i + rowPack;
    }
    AllReverted(l, src[..], dst[..], d0, doff, row, col, dstStep, i);
  }

  lemma NoneReverted<T>(l: Layout, s: seq<T>, d0: seq<T>, doff: int, row: nat, col: nat, dstStep: pos)
    requires l.Valid() && |s| >= l.Size() && row <= l.kpad && col <= l.npad
    ensures Reverted(l, s, d0, d0, doff, row, col, dstStep, 0, 0, 0)
  {
    forall q | 0 <= q < |d0| && InWindow(doff, dstStep, row, col, q)
      ensures !Done(l.packRow, 0, 0, 0, (q - doff) / dstStep, (q - doff) % dstStep)
    {
      WindowPlace(doff, dstStep, row, col, q);
    }
  }

  lemma AllReverted<T>(l: Layout, s: seq<T>, d: seq<T>, d0: seq<T>, doff: int, row: nat, col: nat, dstStep: pos, i: nat)
    requires l.Valid() && |s| >= l.Size() && |d| == |d0| && row <= l.kpad && col <= l.npad && row <= i
    requires Reverted(l, s, d, d0, doff, row, col, dstStep, i, 0, 0)
    ensures Reverted(l, s, d, d0, doff, row, col, dstStep, row, 0, 0)
  {
    forall q | 0 <= q < |d| && InWindow(doff, dstStep, row, col, q)
      ensures Done(l.packRow, row, 0, 0, (q - doff) / dstStep, (q - doff) % dstStep)
      ensures Done(l.packRow, i, 0, 0, (q - doff) / dstStep, (q - doff) % dstStep)
    {
      WindowPlace(doff, dstStep, row, col, q);
    }
  }

  /** One pass over the columns of PACK_ROW rows. */
  method RevertRowPack<T>(src: array<T>, dst: array<T>, doff: int, row: nat, col: nat, colpad: nat, srcStep: int,
                          dstStep: pos, ntile: pos, rowPack: pos, ghost l: Layout, ghost d0: seq<T>, i: nat)
    requires src != dst && l.Valid() && l.ntile == ntile && l.packRow == rowPack && l.kpad == srcStep
    requires src.Length >= l.Size() && row <= l.kpad && col <= colpad <= l.npad && |d0| == dst.Length
    requires WindowFits(dst.Length, doff, dstStep, row, col) && col <= dstStep
    requires i % rowPack == 0 && colpad % ntile == 0
    requires Reverted(l, src[..], dst[..], d0, doff, row, col, dstStep, i, 0, 0)
    modifies dst
    ensures Reverted(l, src[..], dst[..], d0, doff, row, col, dstStep, i + rowPack, 0, 0)
  {
    var j := 0;
    while j < colpad
      invariant j % ntile == 0 && 0 <= j <= colpad
      invariant Reverted(l, src[..], dst[..], d0, doff, row, col, dstStep, i, j, 0)
    {
      MultiplesApart(j, colpad, ntile);
      for jj := 0 to ntile
        invariant Reverted(l, src[..], dst[..], d0, doff, row, col, dstStep, i, j + jj, 0)
      {
        if j + jj < col {
          RevertColumn(src, dst, doff, row, col, srcStep, dstStep, ntile, rowPack, l, d0, i, j, jj);
        }
      }
      DivUnique(ntile, ntile, 1, 0);
      MultiplesAdd(j, ntile, ntile);
      j := j + ntile;
    }
  }

  method RevertColumn<T>(src: array<T>, dst: array<T>, doff: int, row: nat, col: nat, srcStep: int, dstStep: pos,
                         ntile: pos, rowPack: pos, ghost l: Layout, ghost d0: seq<T>, i: nat, j: nat, jj: nat)
    requires src != dst && l.Valid() && l.ntile == ntile && l.packRow == rowPack && l.kpad == srcStep
    requires src.Length >= l.Size() && row <= l.kpad && col <= l.npad && |d0| == dst.Length
    requires WindowFits(dst.Length, doff, dstStep, row, col) && col <= dstStep
    requires i % rowPack == 0 && j % ntile == 0 && jj < ntile && j + jj < col
    requires Reverted(l, src[..], dst[..], d0, doff, row, col, dstStep, i, j + jj, 0)
    modifies dst
    ensures Reverted(l, src[..], dst[..], d0, doff, row, col, dstStep, i, j + jj + 1, 0)
  {
    for ii := 0 to rowPack
      invariant Reverted(l, src[..], dst[..], d0, doff, row, col, dstStep, i, j + jj, ii)
    {
      if i + ii < row {
        l.Address(0, 0, i, j, jj, ii);
        WindowIndex(dst.Length, doff, dstStep, row, col, i + ii, j + jj);
        ghost var before := dst[..];
        var at := doff + ((i + ii) * dstStep + (j + jj));
        dst[at] := src[i * ntile + j * srcStep + jj * rowPack + ii];
        RevertStep(l, src[..], before, dst[..], d0, doff, row, col, dstStep, i, j + jj, ii);
      }
    }
  }

  lemma RevertStep<T>(l: Layout, s: seq<T>, b: seq<T>, d: seq<T>, d0: seq<T>, doff: int, row: int, col: int,
                      dstStep: pos, i: nat, n: nat, ii: nat)
    requires l.Valid() && |s| >= l.Size() && |b| == |d0| && row <= l.kpad && col <= l.npad && col <= dstStep
    requires ii < l.packRow && i + ii < row && n < col
    requires WindowFits(|b|, doff, dstStep, row, col)
    requires Reverted(l, s, b, d0, doff, row, col, dstStep, i, n, ii)
    requires 0 <= doff + RowMajor(dstStep, i + ii, n) < |b|
    requires d == b[doff + RowMajor(dstStep, i + ii, n) := l.At(s, i + ii, n)]
    ensures Reverted(l, s, d, d0, doff, row, col, dstStep, i, n, ii + 1)
  {
    WindowCoord(doff, dstStep, row, col, i + ii, n);
    var at := doff + RowMajor(dstStep, i + ii, n);
    forall q | 0 <= q < |d| && q != at && InWindow(doff, dstStep, row, col, q)
      ensures (q - doff) / dstStep != i + ii || (q - doff) % dstStep != n
    {
      WindowPlace(doff, dstStep, row, col, q);
    }
  }

  predicate InShare(p: ThreadProblem, k: int, n: int) {
    InSlice(p.loc.d0, p.loc.d1, p.size.d0, p.size.d1, k, n)
  }

  /** Coordinates in a sub-window are coordinates in the matrix, shifted. */
  lemma SubCoord(ldb: pos, r0: nat, c0: nat, row: int, col: int, q: nat)
    requires c0 + col <= ldb
    ensures InWindow(r0 * ldb + c0, ldb, row, col, q) <==>
            InSlice(r0, c0, row, col, q / ldb, q % ldb)
    ensures InWindow(r0 * ldb + c0, ldb, row, col, q) ==>
              (q - (r0 * ldb + c0)) / ldb == q / ldb - r0 && (q - (r0 * ldb + c0)) % ldb == q % ldb - c0
  {
    DivMod(q, ldb);
    var off := r0 * ldb + c0;
    if InWindow(off, ldb, row, col, q) {
      var i, j := (q - off) / ldb, (q - off) % ldb;
      DivMod(q - off, ldb);
      DivBounds(q - off, ldb, 0);
      assert (r0 + i) * ldb == r0 * ldb + i * ldb;
      DivUnique(q, ldb, r0 + i, c0 + j);
    }
    if InSlice(r0, c0, row, col, q / ldb, q % ldb) {
      assert (q / ldb - r0) * ldb == q / ldb * ldb - r0 * ldb;
      DivUnique(q - off, ldb, q / ldb - r0, q % ldb - c0);
      MulMono(0, q / ldb - r0, ldb);
    }
  }

  /** The body of unpackWeight: fetch the share's padded slice, then revert the interleaving. */
  method UnpackThread<T>(w: array<T>, out: array<T>, ldb: pos, kk: nat, nn: nat, ktile: pos, ntile: pos, packRow: pos,
                         zero: T, p: ThreadProblem)
    requires w != out && ktile % packRow == 0 && PackShare(p, kk, nn, ktile, ntile)
    requires w.Length == PackedLayout(kk, nn, ktile, ntile, packRow).Size()
    requires WindowFits(out.Length, 0, ldb, kk, nn) && nn <= ldb
    modifies out
    ensures PackedLayout(kk, nn, ktile, ntile, packRow).Valid()
    ensures forall q | 0 <= q < out.Length ::
              if InShare(p, q / ldb, q % ldb)
              then PackedLayout(kk, nn, ktile, ntile, packRow).In(q / ldb, q % ldb)
                   && out[q] == PackedLayout(kk, nn, ktile, ntile, packRow).At(w[..], q / ldb, q % ldb)
              else out[q] == old(out[q])
  {
    PackedLayoutValid(kk, nn, ktile, ntile, packRow);
    ghost var l := PackedLayout(kk, nn, ktile, ntile, packRow);
    PaddedAxis(p.loc.d0, p.size.d0, kk, ktile);
    PaddedAxis(p.loc.d1, p.size.d1, nn, ntile);
    var rowpad := Padto(p.size.d0, ktile);
    var colpad := Padto(p.size.d1, ntile);
    MultipleTrans(rowpad, ktile, packRow);
    MultipleTrans(p.loc.d0, ktile, packRow);
    SubWindow(out.Length, ldb, kk, nn, p.loc.d0, p.loc.d1, p.size.d0, p.size.d1);
    var tmp := new T[rowpad * colpad](_ => zero);
    var step := GetWeight(w, Padto(kk, ktile), tmp, rowpad, colpad, p.loc.d0, p.loc.d1, ntile, l);
    ghost var sl := SliceLayout(l, rowpad, colpad);
    var doff := p.loc.d0 * ldb + p.loc.d1;
    ghost var out0 := out[..];
    RevertPaddingInterleave(tmp, out, doff, p.size.d0, p.size.d1, rowpad, colpad, step, ldb, ntile, packRow, sl);
    forall q | 0 <= q < out.Length
      ensures if InShare(p, q / ldb, q % ldb)
              then l.In(q / ldb, q % ldb) && out[q] == l.At(w[..], q / ldb, q % ldb)
              else out[q] == old(out[q])
    {
      UnpackedAt(l, sl, w[..], tmp[..], out[..], out0, p, ldb, doff, q);
    }
  }

  lemma UnpackedAt<T>(l: Layout, sl: Layout, w: seq<T>, tmp: seq<T>, out: seq<T>, out0: seq<T>, p: ThreadProblem,
                      ldb: pos, doff: int, q: nat)
    requires l.Valid() && sl.Valid() && |w| == l.Size() && |tmp| >= sl.Size() && q < |out| == |out0|
    requires p.loc.d0 >= 0 && p.loc.d1 >= 0 && doff == p.loc.d0 * ldb + p.loc.d1 && p.loc.d1 + p.size.d1 <= ldb
    requires p.size.d0 <= sl.kpad && p.size.d1 <= sl.npad
    requires forall k, n | sl.In(k, n) ::
               l.In(p.loc.d0 + k, p.loc.d1 + n) && sl.At(tmp, k, n) == l.At(w, p.loc.d0 + k, p.loc.d1 + n)
    requires Reverted(sl, tmp, out, out0, doff, p.size.d0, p.size.d1, ldb, p.size.d0, 0, 0)
    ensures if InShare(p, q / ldb, q % ldb)
            then l.In(q / ldb, q % ldb) && out[q] == l.At(w, q / ldb, q % ldb)
            else out[q] == out0[q]
  {
    SubCoord(ldb, p.loc.d0, p.loc.d1, p.size.d0, p.size.d1, q);
    if InShare(p, q / ldb, q % ldb) {
      WindowPlace(doff, ldb, p.size.d0, p.size.d1, q);
      assert sl.In((q - doff) / ldb, (q - doff) % ldb);
    }
  }

  /** unpackWeight: for every thread count and order, the K x N window of `out` receives the packed elements and
      nothing else of `out` changes. */
  method UnpackWeight<T>(w: array<T>, out: array<T>, ldb: pos, kk: nat, nn: nat, ktile: pos, ntile: pos, packRow: pos,
                         zero: T, threads: pos, order: seq<nat>)
    requires w != out && ktile % packRow == 0 && RunsAll(order, threads)
    requires w.Length == PackedLayout(kk, nn, ktile, ntile, packRow).Size()
    requires WindowFits(out.Length, 0, ldb, kk, nn) && nn <= ldb
    modifies out
    ensures PackedLayout(kk, nn, ktile, ntile, packRow).Valid()
    ensures forall q | 0 <= q < out.Length ::
              if InSlice(0, 0, kk, nn, q / ldb, q % ldb)
              then PackedLayout(kk, nn, ktile, ntile, packRow).In(q / ldb, q % ldb)
                   && out[q] == PackedLayout(kk, nn, ktile, ntile, packRow).At(w[..], q / ldb, q % ldb)
              else out[q] == old(out[q])
  {
    PackedLayoutValid(kk, nn, ktile, ntile, packRow);
    ghost var l := PackedLayout(kk, nn, ktile, ntile, packRow);
    ghost var out0 := out[..];
    var sch := new Scheduler2D(threads, Dim2(kk, nn), Dim2(ktile, ntile));
    ghost var g := sch.State();
    PadtoBounds(kk, ktile);
    PadtoBounds(nn, ntile);
    for i := 0 to |order|
      invariant sch.State() == g
      invariant UnpackedSoFar(l, w[..], out[..], out0, ldb, kk, nn, g, order[..i])
    {
      PerRowPositive(g, Dim2(ktile, ntile), threads);
      var p := sch.GetThreadProblem(order[i]);
      ghost var before := out[..];
      if p.valid {
        SharesOf(g, kk, nn, ktile, ntile, threads, order[i]);
        UnpackThread(w, out, ldb, kk, nn, ktile, ntile, packRow, zero, p);
      }
      UnpackStep(l, w[..], before, out[..], out0, ldb, kk, nn, ktile, g, threads, order, i);
    }
    assert order[..|order|] == order;
    forall q | 0 <= q < out.Length && InSlice(0, 0, kk, nn, q / ldb, q % ldb)
      ensures Owner(g, q / ldb, q % ldb) in order
    {
      ExactCover(g, Dim2(ktile, ntile), threads, q / ldb, q % ldb);
    }
  }

  /** Inside the matrix, places whose owner has run hold the packed element; outside it nothing changed. */
  ghost predicate UnpackedSoFar<T>(l: Layout, w: seq<T>, d: seq<T>, d0: seq<T>, ldb: pos, kk: int, nn: int, g: Grid,
                                   ran: seq<nat>)
    requires l.Valid() && |w| >= l.Size() && |d| == |d0| && kk <= l.kpad && nn <= l.npad
    requires g.thd.d0 > 0 && g.thd.d1 > 0
  {
    forall q | 0 <= q < |d| ::
      if InSlice(0, 0, kk, nn, q / ldb, q % ldb)
      then Owner(g, q / ldb, q % ldb) in ran ==> d[q] == l.At(w, q / ldb, q % ldb)
      else d[q] == d0[q]
  }

  lemma UnpackStep<T>(l: Layout, w: seq<T>, b: seq<T>, d: seq<T>, d0: seq<T>, ldb: pos, kk: nat, nn: nat, ktile: pos,
                      g: Grid, threads: int, order: seq<nat>, i: nat)
    requires l.Valid() && |w| >= l.Size() && |b| == |d| == |d0| && kk <= l.kpad && nn <= l.npad && i < |order|
    requires Tiling(g, Dim2(ktile, l.ntile), threads) && g.size == Dim2(kk, nn) && (g.valid > order[i] ==> g.perRow > 0)
    requires UnpackedSoFar(l, w, b, d0, ldb, kk, nn, g, order[..i])
    requires var p := GetIndex(g, order[i]);
             if p.valid then
               && InSlice(0, 0, kk - p.size.d0 + 1, nn - p.size.d1 + 1, p.loc.d0, p.loc.d1)
               && forall q | 0 <= q < |d| ::
                    if InShare(p, q / ldb, q % ldb)
                    then l.In(q / ldb, q % ldb) && d[q] == l.At(w, q / ldb, q % ldb)
                    else d[q] == b[q]
             else d == b
    ensures UnpackedSoFar(l, w, d, d0, ldb, kk, nn, g, order[..i + 1])
  {
    assert order[..i + 1] == order[..i] + [order[i]];
    var p := GetIndex(g, order[i]);
    forall q | 0 <= q < |d|
      ensures if InSlice(0, 0, kk, nn, q / ldb, q % ldb)
              then Owner(g, q / ldb, q % ldb) in order[..i + 1] ==> d[q] == l.At(w, q / ldb, q % ldb)
              else d[q] == d0[q]
    {
      if InSlice(0, 0, kk, nn, q / ldb, q % ldb) {
        ExactCover(g, Dim2(ktile, l.ntile), threads, q / ldb, q % ldb);
        assert Inside(p, q / ldb, q % ldb) <==> order[i] == Owner(g, q / ldb, q % ldb);
      }
    }
  }

  /** Packing with t1 threads and unpacking with t2 gives the matrix back, whatever the orders. */
  method PackThenUnpack<T>(src: array<T>, ldb: pos, out: array<T>, ldo: pos, kk: nat, nn: nat, ktile: pos, ntile: pos,
                           packRow: pos, zero: T, t1: pos, order1: seq<nat>, t2: pos, order2: seq<nat>)
    requires src != out && ktile % packRow == 0 && RunsAll(order1, t1) && RunsAll(order2, t2)
    requires WindowFits(src.Length, 0, ldb, kk, nn) && nn <= ldb
    requires WindowFits(out.Length, 0, ldo, kk, nn) && nn <= ldo
    modifies out
    ensures forall k, n | 0 <= k < kk && 0 <= n < nn ::
              && 0 <= RowMajor(ldo, k, n) < out.Length && 0 <= RowMajor(ldb, k, n) < src.Length
              && out[RowMajor(ldo, k, n)] == src[RowMajor(ldb, k, n)]
  {
    var w := new T[PackedLayout(kk, nn, ktile, ntile, packRow).Size()](_ => zero);
    PackWeight(src, ldb, w, kk, nn, ktile, ntile, packRow, zero, t1, order1);
    UnpackWeight(w, out, ldo, kk, nn, ktile, ntile, packRow, zero, t2, order2);
    forall k, n | 0 <= k < kk && 0 <= n < nn
      ensures && 0 <= RowMajor(ldo, k, n) < out.Length && 0 <= RowMajor(ldb, k, n) < src.Length
              && out[RowMajor(ldo, k, n)] == src[RowMajor(ldb, k, n)]
    {
      WindowIndex(src.Length, 0, ldb, kk, nn, k, n);
      WindowIndex(out.Length, 0, ldo, kk, nn, k, n);
      WindowCoord(0, ldo, kk, nn, k, n);
    }
  }
}
