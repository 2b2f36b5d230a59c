/** LauncherKBlock of bestla_wrapper.h with CompFp32BlockEpilogue: weights that carry one scale (and zero point) per
    K block and column, applied to the products of each K block as they are added up. */
module KBlockLauncher {
  import opened Utils
  import opened Layouts
  import opened GemmCore
  import opened DotProducts
  import opened WeightPacking
  import opened Scheduling
  import opened GemmScheduling
  import opened GemmKernel
  import opened GemmLauncher

  /** Block scales, optional zero points, and the activations' block sums the zero points need. */
  datatype KQuant = KQuant(kblock: pos, scales: seq<real>, ldsb: nat, asym: bool, zps: seq<real>, reduce: seq<real>,
                           ldra: nat) {
    function Blocks(p: Param): nat {
      Updiv(p.k, kblock)
    }

    /** The first k of K block kb, or the end of K. */
    function Start(p: Param, kb: nat): nat {
      Min(kb * kblock, p.k)
    }

    ghost function Scale(kb: int, j: int): real {
      MatrixOf(scales, ldsb)(kb, j)
    }

    ghost function Zp(kb: int, j: int): real {
      if asym then MatrixOf(zps, ldsb)(kb, j) else 0.0
    }

    ghost predicate Sized(p: Param) {
      && WindowFits(|scales|, 0, ldsb, Blocks(p), p.n)
      && (asym ==> WindowFits(|zps|, 0, ldsb, Blocks(p), p.n) && WindowFits(|reduce|, 0, ldra, p.m, Blocks(p)))
    }

    /** w is the dequantised weight matrix of the codes b. */
    ghost predicate Codes(p: Param, b: Matrix, w: Matrix) {
      Sized(p) && forall k, j :: w(k, j) == Dequant(b(k, j), Scale(k / kblock, j), Zp(k / kblock, j))
    }

    /** ... and the reduce array holds the block sums of a. */
    ghost predicate Holds(p: Param, a: Matrix, b: Matrix, w: Matrix) {
      && Codes(p, b, w)
      && (asym ==>
            forall i, kb | 0 <= i < p.m && 0 <= kb < Blocks(p) ::
              MatrixOf(reduce, ldra)(i, kb) == RowSum(a, i, Start(p, kb), Start(p, kb + 1)))
    }
  }

  datatype KScratch = KScratch(tmpA: array<real>, tmpB: array<real>, tmpC: array<real>, tmpBlk: array<real>) {
    /** The buffers the kernel works in: the accumulator tile is tmpBlk. */
    function Inner(): Scratch {
      Scratch(tmpA, tmpB, tmpBlk)
    }

    ghost predicate Fits(p: Param, cfg: Config) {
      && Inner().Fits(p, cfg) && tmpC.Length == tmpBlk.Length
      && tmpC !in {tmpA, tmpB, tmpBlk, p.matA, p.packed, p.matC}
    }
  }

  /** A block product d scaled by s, less zero point z times the scale times the block sum r. */
  function Debiased(s: real, z: real, d: real, r: real): real {
    s * d - z * s * r
  }

  /** One scaled accumulation step, and the removal of one zero-point bias. */
  function Accum(s: real, d: real, x: real): real {
    s * d + x
  }

  function Unbias(x: real, z: real, s: real, r: real): real {
    x - z * s * r
  }

  lemma Recombine(s: real, z: real, d: real, r: real, x: real)
    ensures Unbias(Accum(s, d, x), z, s, r) == x + Debiased(s, z, d, r)
  {
  }

  lemma NoZeroPoint(s: real, d: real, r: real, r': real, x: real)
    ensures Accum(s, d, x) == x + Debiased(s, 0.0, d, r)
    ensures Debiased(s, 0.0, d, r) == Debiased(s, 0.0, d, r')
  {
  }

  /** The block sums of scaled codes are sums of dequantised weights. */
  lemma {:induction false} BlockTerm(a: Matrix, b: Matrix, w: Matrix, i: int, j: int, s: real, z: real, lo: int,
                                     hi: int)
    requires forall k | lo <= k < hi :: w(k, j) == Dequant(b(k, j), s, z)
    ensures Dot(a, w, i, j, lo, hi) == Debiased(s, z, Dot(a, b, i, j, lo, hi), RowSum(a, i, lo, hi))
    decreases hi - lo
  {
    if lo < hi {
      BlockTerm(a, b, w, i, j, s, z, lo, hi - 1);
      OneTerm(s, z, Dot(a, b, i, j, lo, hi - 1), RowSum(a, i, lo, hi - 1), a(i, hi - 1), b(hi - 1, j));
    }
  }

  lemma OneTerm(s: real, z: real, d: real, r: real, x: real, y: real)
    ensures Debiased(s, z, d + x * y, r + x) == Debiased(s, z, d, r) + x * Dequant(y, s, z)
  {
    assert s * (d + x * y) == s * d + s * (x * y);
    assert z * s * (r + x) == z * s * r + z * s * x;
    assert x * (s * (y - z)) == x * (s * y) - x * (s * z);
  }

  // ----- cell-wise updates of a window

  /** The window cells before (i, j) have been set to g; everything else is as in d0. */
  ghost predicate Filled(d: seq<real>, d0: seq<real>, g: int -> real, stride: pos, rows: nat, cols: nat, i: int,
                         j: int) {
    && |d| == |d0|
    && forall q | 0 <= q < |d| ::
         d[q] == if InWindow(0, stride, rows, cols,
                             q) && (q / stride < i || (q / stride == i && q % stride < j)) then g(q) else d0[q]
  }

  lemma FillStep(d: seq<real>, d': seq<real>, d0: seq<real>, g: int -> real, stride: pos, rows: nat, cols: nat, i: nat,
                 j: nat)
    requires Filled(d, d0, g, stride, rows, cols, i, j) && i < rows && j < cols <= stride
    requires WindowFits(|d|, 0, stride, rows, cols)
    requires 0 <= i * stride + j < |d| && d' == d[i * stride + j := g(i * stride + j)]
    ensures Filled(d', d0, g, stride, rows, cols, i, j + 1)
  {
    WindowCoord(0, stride, rows, cols, i, j);
    forall q | 0 <= q < |d| && q != i * stride + j && InWindow(0, stride, rows, cols, q)
      ensures !(q / stride == i && q % stride == j)
    {
      WindowPlace(0, stride, rows, cols, q);
    }
  }

  lemma FillRow(d: seq<real>, d0: seq<real>, g: int -> real, stride: pos, rows: nat, cols: nat, i: nat)
    requires Filled(d, d0, g, stride, rows, cols, i, cols)
    ensures Filled(d, d0, g, stride, rows, cols, i + 1, 0)
  {
  }

  lemma FillStart(d: seq<real>, g: int -> real, stride: pos, rows: nat, cols: nat)
    ensures Filled(d, d, g, stride, rows, cols, 0, 0)
  {
    forall q | 0 <= q < |d| && InWindow(0, stride, rows, cols, q)
      ensures q / stride >= 0
    {
      WindowPlace(0, stride, rows, cols, q);
    }
  }

  /** The store of one cell. */
  method PutCell(acc: array<real>, q: nat, x: real, ghost d0: seq<real>, ghost g: int -> real, ghost stride: pos,
                 ghost rows: nat, ghost cols: nat, ghost i: nat, ghost j: nat)
    requires Filled(acc[..], d0, g, stride, rows, cols, i, j) && i < rows && j < cols <= stride
    requires WindowFits(acc.Length, 0, stride, rows, cols) && q == i * stride + j < acc.Length && x == g(q)
    modifies acc
    ensures Filled(acc[..], d0, g, stride, rows, cols, i, j + 1)
  {
    ghost var before := acc[..];
    acc[q] := x;
    FillStep(before, acc[..], d0, g, stride, rows, cols, i, j);
  }

  /** accum_alphaN_f32_f32. */
  method AccumAlphaN(alpha: seq<real>, aoff: int, src: array<real>, dst: array<real>, stride: pos, rows: nat, cols: nat,
                     ghost g: int -> real)
    requires dst != src && cols <= stride && dst.Length == src.Length
    requires WindowFits(dst.Length, 0, stride, rows, cols)
    requires 0 <= aoff && aoff + cols <= |alpha|
    requires forall q | 0 <= q < dst.Length && InWindow(0, stride, rows, cols, q) ::
               g(q) == Accum(alpha[aoff + q % stride], src[q], dst[q])
    modifies dst
    ensures Filled(dst[..], old(dst[..]), g, stride, rows, cols, rows, 0)
  {
    FillStart(dst[..], g, stride, rows, cols);
    for i := 0 to rows
      invariant Filled(dst[..], old(dst[..]), g, stride, rows, cols, i, 0)
    {
      for j := 0 to cols
        invariant Filled(dst[..], old(dst[..]), g, stride, rows, cols, i, j)
      {
        WindowIndex(dst.Length, 0, stride, rows, cols, i, j);
        WindowCoord(0, stride, rows, cols, i, j);
        PutCell(dst, i * stride + j, alpha[aoff + j] * src[i * stride + j] + dst[i * stride + j], old(dst[..]), g,
                stride, rows, cols, i, j);
      }
      FillRow(dst[..], old(dst[..]), g, stride, rows, cols, i);
    }
  }

  /** remove_wei_zeropoint_bias. */
  method RemoveWeightBias(acc: array<real>, stride: pos, rows: nat, cols: nat, zps: seq<real>, scales: seq<real>,
                          soff: int, lds: nat, reduce: seq<real>, roff: int, ghost g: int -> real)
    requires cols <= stride
    requires WindowFits(acc.Length, 0, stride, rows, cols)
    requires 0 <= soff && soff + cols <= |scales| && soff + cols <= |zps|
    requires forall i | 0 <= i < rows :: 0 <= roff + RowMajor(lds, i, 0) < |reduce|
    requires forall i | 0 <= i < rows ::
               BiasRow(acc[..], stride, cols, zps, scales, soff, reduce[roff + RowMajor(lds, i, 0)], i, g)
    modifies acc
    ensures Filled(acc[..], old(acc[..]), g, stride, rows, cols, rows, 0)
  {
    FillStart(acc[..], g, stride, rows, cols);
    for i := 0 to rows
      invariant Filled(acc[..], old(acc[..]), g, stride, rows, cols, i, 0)
    {
      assert 0 <= roff + RowMajor(lds, i, 0) < |reduce|;
      var reducef := reduce[roff + i * lds];
      RemoveRowBias(acc, stride, rows, cols, zps, scales, soff, reducef, i, old(acc[..]), g);
    }
  }

  /** Row i of the window is to become g: the cell less zero point times scale times the row's sum. */
  ghost predicate BiasRow(d0: seq<real>, stride: pos, cols: nat, zps: seq<real>, scales: seq<real>, soff: int,
                          reducef: real, i: nat, g: int -> real)
  {
    forall j | 0 <= j < cols && 0 <= RowMajor(stride, i, j) < |d0| && 0 <= soff + j < |zps| && soff + j < |scales| ::
      g(RowMajor(stride, i, j)) == Unbias(d0[RowMajor(stride, i, j)], zps[soff + j], scales[soff + j], reducef)
  }

  method RemoveRowBias(acc: array<real>, stride: pos, rows: nat, cols: nat, zps: seq<real>, scales: seq<real>,
                       soff: int, reducef: real, i: nat, ghost d0: seq<real>, ghost g: int -> real)
    requires cols <= stride && i < rows
    requires WindowFits(acc.Length, 0, stride, rows, cols)
    requires 0 <= soff && soff + cols <= |scales| && soff + cols <= |zps|
    requires BiasRow(d0, stride, cols, zps, scales, soff, reducef, i, g)
    requires Filled(acc[..], d0, g, stride, rows, cols, i, 0)
    modifies acc
    ensures Filled(acc[..], d0, g, stride, rows, cols, i + 1, 0)
  {
    for j := 0 to cols
      invariant Filled(acc[..], d0, g, stride, rows, cols, i, j)
    {
      WindowIndex(acc.Length, 0, stride, rows, cols, i, j);
      WindowCoord(0, stride, rows, cols, i, j);
      var x := acc[i * stride + j] - zps[soff + j] * scales[soff + j] * reducef;
      assert g(RowMajor(stride, i, j)) == x;
      PutCell(acc, i * stride + j, x, d0, g, stride, rows, cols, i, j);
    }
    FillRow(acc[..], d0, g, stride, rows, cols, i);
  }

  // ----- the block epilogue

  /** The products of a and b over one piece of K. */
  ghost function Partial(a: Matrix, b: Matrix, lo: int, hi: int): Matrix {
    (i: int, j: int) => Dot(a, b, i, j, lo, hi)
  }

  lemma BlockWeights(p: Param, kq: KQuant, a: Matrix, b: Matrix, w: Matrix, j: int, kb: nat)
    requires kq.Holds(p, a, b, w) && kb < kq.Blocks(p)
    ensures forall k | kq.Start(p, kb) <= k < kq.Start(p, kb + 1) ::
              w(k, j) == Dequant(b(k, j), kq.Scale(kb, j), kq.Zp(kb, j))
  {
    BlockBounds(p, kq, kb);
    forall k | kq.Start(p, kb) <= k < kq.Start(p, kb + 1)
      ensures k / kq.kblock == kb
    {
      DivUnique(k, kq.kblock, kb, k - kb * kq.kblock);
    }
  }

  /** Adding the scaled block product, less the zero point's share, extends the dequantised product by one K block. */
  lemma BlockAdvance(p: Param, kq: KQuant, a: Matrix, b: Matrix, w: Matrix, i: int, j: int, kb: nat, r: real, s: real,
                     z: real)
    requires kq.Holds(p, a, b, w) && kb < kq.Blocks(p) && 0 <= i < p.m
    requires s == kq.Scale(kb, j) && z == kq.Zp(kb, j)
    requires kq.asym ==> r == MatrixOf(kq.reduce, kq.ldra)(i, kb)
    ensures var lo, hi := kq.Start(p, kb), kq.Start(p, kb + 1);
            Dot(a, w, i, j, 0, hi) == Dot(a, w, i, j, 0, lo) + Debiased(s, z, Dot(a, b, i, j, lo, hi), r)
  {
    var lo, hi := kq.Start(p, kb), kq.Start(p, kb + 1);
    BlockBounds(p, kq, kb);
    BlockWeights(p, kq, a, b, w, j, kb);
    BlockTerm(a, b, w, i, j, s, z, lo, hi);
    DotSplit(a, w, i, j, 0, lo, hi);
    if !kq.asym {
      NoZeroPoint(s, Dot(a, b, i, j, lo, hi), r, RowSum(a, i, lo, hi), 0.0);
    }
  }

  lemma BlockBounds(p: Param, kq: KQuant, kb: nat)
    requires kb < kq.Blocks(p)
    ensures kq.Start(p, kb) == kb * kq.kblock < p.k
    ensures kq.Start(p, kb) < kq.Start(p, kb + 1) <= kq.Start(p, kb) + kq.kblock
  {
    UpdivBounds(p.k, kq.kblock, kb);
    assert (kb + 1) * kq.kblock == kb * kq.kblock + kq.kblock;
  }

  ghost function ScaledCell(alpha: seq<real>, soff: int, src: seq<real>, d0: seq<real>, stride: pos): int -> real {
    (q: int) => if 0 <= q < |d0| && q < |src| && 0 <= soff + q % stride < |alpha|
      then Accum(alpha[soff + q % stride], src[q], d0[q]) else 0.0
  }

  ghost function BiasCell(zps: seq<real>, scales: seq<real>, soff: int, reduce: seq<real>, roff: int, lds: nat,
                          d0: seq<real>, stride: pos): int -> real
  {
    (q: int) => if 0 <= q < |d0| && 0 <= soff + q % stride < |zps| && soff + q % stride < |scales|
      then Unbias(d0[q], zps[soff + q % stride], scales[soff + q % stride], BufferAt(reduce, roff, lds, q / stride, 0))
      else 0.0
  }

  /** The rectangle a block epilogue works on. */
  ghost predicate Covers(p: Param, blk: Block, len: int, nsize: nat) {
    && blk.Fits(len) && nsize <= blk.npad && blk.row0 + blk.msize <= p.m && blk.col0 + nsize <= p.n
  }

  /** CompFp32BlockScale: the scaled block is added to tmpC. */
  method AddScaled(p: Param, kq: KQuant, tmpBlk: array<real>, tmpC: array<real>, blk: Block, nsize: nat, kb: nat)
    returns (ghost g: int -> real)
    requires kq.Sized(p) && kb < kq.Blocks(p) && tmpC != tmpBlk && tmpC.Length == tmpBlk.Length
    requires Covers(p, blk, tmpC.Length, nsize)
    modifies tmpC
    ensures g == ScaledCell(kq.scales, kb * kq.ldsb + blk.col0, tmpBlk[..], old(tmpC[..]), blk.stride)
    ensures Filled(tmpC[..], old(tmpC[..]), g, blk.stride, blk.msize, nsize, blk.msize, 0)
  {
    var soff := kb * kq.ldsb + blk.col0;
    g := ScaledCell(kq.scales, soff, tmpBlk[..], tmpC[..], blk.stride);
    if nsize > 0 {
      ScaleRow(|kq.scales|, kq.ldsb, kq.Blocks(p), p.n, kb, blk.col0, nsize);
      SubWindow(tmpC.Length, blk.stride, blk.msize, blk.npad, 0, 0, blk.msize, nsize);
      forall q | 0 <= q < tmpC.Length && InWindow(0, blk.stride, blk.msize, nsize, q)
        ensures g(q) == Accum(kq.scales[soff + q % blk.stride], tmpBlk[q], tmpC[q])
      {
        WindowPlace(0, blk.stride, blk.msize, nsize, q);
      }
      AccumAlphaN(kq.scales, soff, tmpBlk, tmpC, blk.stride, blk.msize, nsize, g);
    }
  }

  lemma ScaleRow(len: int, lds: nat, blocks: nat, n: nat, kb: nat, col0: nat, nsize: pos)
    requires WindowFits(len, 0, lds, blocks, n) && kb < blocks && col0 + nsize <= n
    ensures 0 <= kb * lds + col0 && kb * lds + col0 + nsize <= len
  {
    WindowIndex(len, 0, lds, blocks, n, kb, col0);
    WindowIndex(len, 0, lds, blocks, n, kb, col0 + nsize - 1);
  }

  /** The zero-point part of the block epilogue. */
  method SubtractBias(p: Param, kq: KQuant, tmpC: array<real>, blk: Block, nsize: nat,
                      kb: nat) returns (ghost g: int -> real)
    requires kq.Sized(p) && kb < kq.Blocks(p) && kq.asym
    requires Covers(p, blk, tmpC.Length, nsize)
    modifies tmpC
    ensures g == BiasCell(kq.zps, kq.scales, kb * kq.ldsb + blk.col0, kq.reduce, blk.row0 * kq.ldra + kb, kq.ldra,
                          old(tmpC[..]), blk.stride)
    ensures Filled(tmpC[..], old(tmpC[..]), g, blk.stride, blk.msize, nsize, blk.msize, 0)
  {
    var soff, roff := kb * kq.ldsb + blk.col0, blk.row0 * kq.ldra + kb;
    g := BiasCell(kq.zps, kq.scales, soff, kq.reduce, roff, kq.ldra, tmpC[..], blk.stride);
    if nsize > 0 {
      ScaleRow(|kq.scales|, kq.ldsb, kq.Blocks(p), p.n, kb, blk.col0, nsize);
      ScaleRow(|kq.zps|, kq.ldsb, kq.Blocks(p), p.n, kb, blk.col0, nsize);
      SubWindow(tmpC.Length, blk.stride, blk.msize, blk.npad, 0, 0, blk.msize, nsize);
      forall i | 0 <= i < blk.msize
        ensures 0 <= roff + RowMajor(kq.ldra, i, 0) < |kq.reduce|
        ensures BiasRow(tmpC[..], blk.stride, nsize, kq.zps, kq.scales, soff, kq.reduce[roff + RowMajor(kq.ldra, i, 0)],
                        i, g)
      {
        ReduceCell(|kq.reduce|, kq.ldra, p.m, kq.Blocks(p), blk.row0, i, kb);
        BiasRowIs(tmpC[..], blk.stride, nsize, kq.zps, kq.scales, soff, kq.reduce, roff, kq.ldra, i, g);
      }
      RemoveWeightBias(tmpC, blk.stride, blk.msize, nsize, kq.zps, kq.scales, soff, kq.ldra, kq.reduce, roff, g);
    }
  }

  lemma ReduceCell(len: int, ldra: nat, m: nat, blocks: nat, row0: nat, i: nat, kb: nat)
    requires WindowFits(len, 0, ldra, m, blocks) && kb < blocks && row0 + i < m
    ensures row0 * ldra + kb + RowMajor(ldra, i, 0) == RowMajor(ldra, row0 + i, kb)
    ensures 0 <= RowMajor(ldra, row0 + i, kb) < len
  {
    WindowIndex(len, 0, ldra, m, blocks, row0 + i, kb);
    assert (row0 + i) * ldra == row0 * ldra + i * ldra;
  }

  lemma BiasRowIs(d0: seq<real>, stride: pos, cols: nat, zps: seq<real>, scales: seq<real>, soff: int,
                  reduce: seq<real>, roff: int, lds: nat, i: nat, g: int -> real)
    requires g == BiasCell(zps, scales, soff, reduce, roff, lds, d0, stride) && cols <= stride
    requires 0 <= roff + RowMajor(lds, i, 0) < |reduce|
    ensures BiasRow(d0, stride, cols, zps, scales, soff, reduce[roff + RowMajor(lds, i, 0)], i, g)
  {
    forall j | 0 <= j < cols && 0 <= RowMajor(stride, i, j) < |d0| && 0 <= soff + j < |zps| && soff + j < |scales|
      ensures g(RowMajor(stride, i, j)) == Unbias(d0[RowMajor(stride, i, j)], zps[soff + j], scales[soff + j],
                                                  reduce[roff + RowMajor(lds, i, 0)])
    {
      DivUnique(RowMajor(stride, i, j), stride, i, j);
    }
  }

  /** CompFp32BlockEpilogue: with the block's products in tmpBlk, tmpC moves on by one K block. */
  method BlockEpilogue(p: Param, kq: KQuant, tmpBlk: array<real>, tmpC: array<real>, blk: Block, nsize: nat, kb: nat,
                       ghost a: Matrix, ghost b: Matrix, ghost w: Matrix)
    requires kq.Holds(p, a, b, w) && kb < kq.Blocks(p)
    requires tmpC != tmpBlk && tmpC.Length == tmpBlk.Length
    requires Covers(p, blk, tmpC.Length, nsize)
    requires BlockHolds(blk, tmpBlk[..], nsize, Partial(a, b, kq.Start(p, kb), kq.Start(p, kb + 1)))
    requires BlockHolds(blk, tmpC[..], nsize, Partial(a, w, 0, kq.Start(p, kb)))
    modifies tmpC
    ensures BlockHolds(blk, tmpC[..], nsize, Partial(a, w, 0, kq.Start(p, kb + 1)))
  {
    ghost var d0 := tmpC[..];
    ghost var g := AddScaled(p, kq, tmpBlk, tmpC, blk, nsize, kb);
    ghost var d1 := tmpC[..];
    ghost var g2 := g;
    if kq.asym {
      g2 := SubtractBias(p, kq, tmpC, blk, nsize, kb);
    }
    EpilogueDone(p, kq, tmpBlk[..], d0, d1, tmpC[..], blk, nsize, kb, a, b, w, g, g2);
  }

  lemma EpilogueDone(p: Param, kq: KQuant, s: seq<real>, d0: seq<real>, d1: seq<real>, d: seq<real>, blk: Block,
                     nsize: nat, kb: nat, a: Matrix, b: Matrix, w: Matrix, g: int -> real, g2: int -> real)
    requires kq.Holds(p, a, b, w) && kb < kq.Blocks(p) && Covers(p, blk, |d0|, nsize) && |s| == |d0| == |d1| == |d|
    requires BlockHolds(blk, s, nsize, Partial(a, b, kq.Start(p, kb), kq.Start(p, kb + 1)))
    requires BlockHolds(blk, d0, nsize, Partial(a, w, 0, kq.Start(p, kb)))
    requires g == ScaledCell(kq.scales, kb * kq.ldsb + blk.col0, s, d0, blk.stride)
    requires Filled(d1, d0, g, blk.stride, blk.msize, nsize, blk.msize, 0)
    requires kq.asym ==>
               && g2 == BiasCell(kq.zps, kq.scales, kb * kq.ldsb + blk.col0, kq.reduce, blk.row0 * kq.ldra + kb,
                                 kq.ldra, d1, blk.stride)
               && Filled(d, d1, g2, blk.stride, blk.msize, nsize, blk.msize, 0)
    requires !kq.asym ==> d == d1
    ensures BlockHolds(blk, d, nsize, Partial(a, w, 0, kq.Start(p, kb + 1)))
  {
    forall q | 0 <= q < |d| && InWindow(0, blk.stride, blk.msize, nsize, q)
      ensures d[q] == Dot(a, w, blk.row0 + q / blk.stride, blk.col0 + q % blk.stride, 0, kq.Start(p, kb + 1))
    {
      assert d1[q] == g(q) && d[q] == (if kq.asym then g2(q) else d1[q]);
      EpilogueCell(p, kq, s, d0, d1, blk, nsize, kb, a, b, w, g, g2, q);
    }
  }

  lemma EpilogueCell(p: Param, kq: KQuant, s: seq<real>, d0: seq<real>, d1: seq<real>, blk: Block, nsize: nat, kb: nat,
                     a: Matrix, b: Matrix, w: Matrix, g: int -> real, g2: int -> real, q: nat)
    requires kq.Holds(p, a, b, w) && kb < kq.Blocks(p) && Covers(p, blk, |d0|, nsize) && |s| == |d0| == |d1|
    requires q < |d0| && InWindow(0, blk.stride, blk.msize, nsize, q)
    requires BlockHolds(blk, s, nsize, Partial(a, b, kq.Start(p, kb), kq.Start(p, kb + 1)))
    requires BlockHolds(blk, d0, nsize, Partial(a, w, 0, kq.Start(p, kb)))
    requires g == ScaledCell(kq.scales, kb * kq.ldsb + blk.col0, s, d0, blk.stride) && d1[q] == g(q)
    requires kq.asym ==>
               g2 == BiasCell(kq.zps, kq.scales, kb * kq.ldsb + blk.col0, kq.reduce, blk.row0 * kq.ldra + kb,
                              kq.ldra, d1, blk.stride)
    ensures (if !kq.asym then d1[q] else g2(q))
         == Dot(a, w, blk.row0 + q / blk.stride, blk.col0 + q % blk.stride, 0, kq.Start(p, kb + 1))
  {
    WindowPlace(0, blk.stride, blk.msize, nsize, q);
    var i, c := blk.row0 + q / blk.stride, blk.col0 + q % blk.stride;
    ScaleRow(|kq.scales|, kq.ldsb, kq.Blocks(p), p.n, kb, blk.col0, nsize);
    var sc := kq.Scale(kb, c);
    ScaledValue(kq.scales, kq.ldsb, kb, blk.col0, s, d0, blk.stride, q, g, sc);
    if !kq.asym {
      BlockAdvance(p, kq, a, b, w, i, c, kb, 0.0, sc, 0.0);
      NoZeroPoint(sc, s[q], 0.0, 0.0, d0[q]);
    } else {
      BiasedCell(p, kq, a, b, w, i, c, kb, s[q], d0[q], d1, g2, q, blk, sc);
    }
  }

  lemma BiasedCell(p: Param, kq: KQuant, a: Matrix, b: Matrix, w: Matrix, i: int, c: int, kb: nat, dot: real,
                   start: real, d1: seq<real>, g2: int -> real, q: nat, blk: Block, sc: real)
    requires kq.Holds(p, a, b, w) && kb < kq.Blocks(p) && kq.asym && sc == kq.Scale(kb, c)
    requires blk.row0 + q / blk.stride == i < p.m && q / blk.stride >= 0
    requires blk.col0 <= c == blk.col0 + q % blk.stride < p.n
    requires dot == Dot(a, b, i, c, kq.Start(p, kb), kq.Start(p, kb + 1))
    requires start == Dot(a, w, i, c, 0, kq.Start(p, kb))
    requires q < |d1| && d1[q] == Accum(sc, dot, start)
    requires g2 == BiasCell(kq.zps, kq.scales, kb * kq.ldsb + blk.col0, kq.reduce, blk.row0 * kq.ldra + kb,
                            kq.ldra, d1, blk.stride)
    ensures g2(q) == Dot(a, w, i, c, 0, kq.Start(p, kb + 1))
  {
    WindowIndex(|kq.scales|, 0, kq.ldsb, kq.Blocks(p), p.n, kb, c);
    WindowIndex(|kq.zps|, 0, kq.ldsb, kq.Blocks(p), p.n, kb, c);
    ReduceCell(|kq.reduce|, kq.ldra, p.m, kq.Blocks(p), blk.row0, q / blk.stride, kb);
    var z, r := kq.Zp(kb, c), MatrixOf(kq.reduce, kq.ldra)(i, kb);
    BlockAdvance(p, kq, a, b, w, i, c, kb, r, sc, z);
    BiasValue(kq.zps, kq.scales, kq.ldsb, kb, blk.col0, kq.reduce, blk.row0 * kq.ldra + kb, kq.ldra, d1, blk.stride,
              q, g2, r, sc, z);
    Recombine(sc, z, dot, r, start);
  }

  lemma ScaledValue(alpha: seq<real>, lds: nat, kb: nat, col0: nat, s: seq<real>, d0: seq<real>, stride: pos, q: nat,
                    g: int -> real, sc: real)
    requires g == ScaledCell(alpha, kb * lds + col0, s, d0, stride) && q < |d0| == |s|
    requires kb * lds + col0 + q % stride < |alpha| && sc == MatrixOf(alpha, lds)(kb, col0 + q % stride)
    ensures g(q) == Accum(sc, s[q], d0[q])
  {
    assert RowMajor(lds, kb, col0 + q % stride) == kb * lds + col0 + q % stride;
  }

  lemma BiasValue(zps: seq<real>, scales: seq<real>, lds: nat, kb: nat, col0: nat, reduce: seq<real>, roff: int,
                  ldra: nat, d1: seq<real>, stride: pos, q: nat, g: int -> real, r: real, sc: real, z: real)
    requires g == BiasCell(zps, scales, kb * lds + col0, reduce, roff, ldra, d1, stride) && q < |d1|
    requires kb * lds + col0 + q % stride < |zps| && kb * lds + col0 + q % stride < |scales|
    requires 0 <= roff + RowMajor(ldra, q / stride, 0) < |reduce| && r == reduce[roff + RowMajor(ldra, q / stride, 0)]
    requires sc == MatrixOf(scales, lds)(kb, col0 + q % stride) && z == MatrixOf(zps, lds)(kb, col0 + q % stride)
    ensures g(q) == Unbias(d1[q], z, sc, r)
  {
    assert RowMajor(lds, kb, col0 + q % stride) == kb * lds + col0 + q % stride;
    assert BufferAt(reduce, roff, ldra, q / stride, 0) == r;
  }

  // ----- run_block: K blocks no longer than a K step

  /** What the two branches need of the block sizes: K blocks and K steps are whole kernel steps unless one is all of
      K; a K step is whole K blocks, or all of K; K blocks longer than a K step divide K, as run_block_large asserts. */
  predicate KShape(c: Core, k: pos, kblock: pos, block2: pos) {
    && (block2 % c.ktile == 0 || block2 >= k)
    && (kblock % c.ktile == 0 || kblock >= k)
    && (if kblock <= block2 then block2 % kblock == 0 || block2 >= k else k % kblock == 0)
  }

  ghost predicate ChunkAt(p: Param, kq: KQuant, block2: pos, iterk: nat, kremain: int) {
    && KShape(p.core, p.k, kq.kblock, block2) && kq.kblock <= block2
    && iterk < p.k && iterk % p.core.ktile == 0 && iterk % kq.kblock == 0
    && kremain == RemainSize(iterk, p.k, block2)
  }

  /** K block kb is rows kpos .. kpos + ksize. */
  ghost predicate WholeBlock(p: Param, kq: KQuant, kb: nat, kpos: int, ksize: int) {
    kb < kq.Blocks(p) && kq.Start(p, kb) == kpos && kq.Start(p, kb + 1) == kpos + ksize
  }

  lemma BlockAt(p: Param, kq: KQuant, kpos: nat)
    requires kpos < p.k && kpos % kq.kblock == 0
    ensures WholeBlock(p, kq, kpos / kq.kblock, kpos, RemainSize(kpos, p.k, kq.kblock))
  {
    DivMod(kpos, kq.kblock);
    var kb := kpos / kq.kblock;
    DivBounds(kpos, kq.kblock, 0);
    UpdivBounds(p.k, kq.kblock, kb);
    BlockBounds(p, kq, kb);
    assert (kb + 1) * kq.kblock == kb * kq.kblock + kq.kblock;
  }

  /** One K block inside a K step. */
  lemma PieceFits(p: Param, kq: KQuant, block2: pos, iterk: nat, kremain: pos, ikk: nat, ksize: int)
    requires p.core.Valid() && ChunkAt(p, kq, block2, iterk, kremain) && ikk < kremain && ikk % kq.kblock == 0
    requires ksize == RemainSize(iterk + ikk, p.k, kq.kblock)
    ensures 0 < ksize && ikk + ksize <= kremain && iterk + ikk + ksize <= p.k
    ensures iterk + ikk + ksize == p.k || ksize % p.core.ktile == 0
    ensures ikk % p.core.ktile == 0 && ikk + Padto(ksize, p.core.ktile) <= Padto(kremain, p.core.ktile)
    ensures WholeBlock(p, kq, (iterk + ikk) / kq.kblock, iterk + ikk, ksize)
    ensures iterk + ikk + ksize == p.k || (iterk + ikk + ksize) % p.core.ktile == 0
    ensures iterk + ikk + Padto(ksize, p.core.ktile) == Padto(iterk + ikk + ksize, p.core.ktile)
  {
    var kt := p.core.ktile;
    MultiplesAdd(iterk, ikk, kq.kblock);
    BlockAt(p, kq, iterk + ikk);
    if block2 % kq.kblock == 0 && kremain == block2 {
      MultiplesApart(ikk, block2, kq.kblock);
    }
    if kq.kblock % kt == 0 {
      MultipleTrans(ikk, kq.kblock, kt);
    } else {
      MultipleSmall(ikk, kq.kblock);
      DivUnique(0, kt, 0, 0);
    }
    PaddedAxis(ikk, ksize, kremain, kt);
    MultiplesAdd(iterk, ikk, kt);
    PaddedEnd(iterk + ikk, ksize, p.k, kt);
  }

  lemma MultipleSmall(x: nat, b: pos)
    requires x % b == 0 && x < b
    ensures x == 0
  {
    DivUnique(x, b, 0, x);
  }

  /** Rows ikk .. of a fetched slice are a slice of their own. */
  lemma SubSlice(p: Param, d: seq<real>, sl: Layout, bv: Matrix, b: Matrix, blk: Block, iterk: nat, kremain: pos,
                 kpadded: nat, ikk: nat, ksize: pos, bv': Matrix)
    requires p.core.Valid() && p.L().Valid()
    requires KSlice(p, d, sl, 0, bv, b, blk.(kbase := iterk), iterk, kremain, kpadded)
    requires p.ZeroBelow(b) && Panel(p, blk) && iterk % p.core.ktile == 0
    requires ikk % p.core.ktile == 0 && ikk + ksize <= kremain && iterk + ikk + ksize <= p.k
    requires iterk + ikk + ksize == p.k || ksize % p.core.ktile == 0
    requires ikk + Padto(ksize, p.core.ktile) <= kpadded
    requires forall kk, j :: bv'(kk, j) == b(iterk + ikk + kk, blk.col0 + j)
    ensures KSlice(p, d, sl, ikk, bv', b, blk.(kbase := iterk + ikk), iterk + ikk, ksize, Padto(ksize, p.core.ktile))
  {
    var c := p.core;
    var kp := Padto(ksize, c.ktile);
    MultipleTrans(ikk, c.ktile, c.packRow);
    MultiplesAdd(iterk, ikk, c.ktile);
    PaddedAxis(iterk + ikk, ksize, p.k, c.ktile);
    forall kk, j | 0 <= kk < kp && 0 <= j < blk.npad
      ensures bv'(kk, j) == bv(ikk + kk, j)
      ensures kk >= ksize ==> bv'(kk, j) == 0.0
    {
      if kk >= ksize {
        assert p.k <= iterk + ikk + kk < p.L().kpad;
      }
    }
    OperandBPart(d, sl, 0, blk.npad, kpadded, bv, ikk, kp, bv');
  }

  /** Rows past the real ones are zero in b, so the padded kernel steps have added the block's products exactly. */
  lemma PieceDone(p: Param, d: seq<real>, blk: Block, nsize: nat, a: Matrix, b: Matrix, hi: nat)
    requires p.core.Valid() && p.ZeroBelow(b) && Panel(p, blk) && nsize <= blk.npad && blk.kbase <= hi <= p.k
    requires hi == p.k || hi % p.core.ktile == 0
    requires blk.Rows(d, a, b, 0, blk.msize, Padto(hi, p.core.ktile))
    ensures BlockHolds(blk, d, nsize, Partial(a, b, blk.kbase, hi))
  {
    var upto := Padto(hi, p.core.ktile);
    PadtoBounds(hi, p.core.ktile);
    PadtoBounds(p.k, p.core.ktile);
    forall q | 0 <= q < |d| && InWindow(0, blk.stride, blk.msize, nsize, q)
      ensures d[q] == Dot(a, b, blk.row0 + q / blk.stride, blk.col0 + q % blk.stride, blk.kbase, hi)
    {
      WindowPlace(0, blk.stride, blk.msize, nsize, q);
      var i, j := blk.row0 + q / blk.stride, blk.col0 + q % blk.stride;
      PaddingFree(p, a, b, i, j, blk.kbase, hi, upto);
    }
  }

  lemma PaddingFree(p: Param, a: Matrix, b: Matrix, i: int, j: int, lo: nat, hi: nat, upto: nat)
    requires p.ZeroBelow(b) && 0 <= j < p.L().npad && lo <= hi <= upto <= p.L().kpad && (hi < upto ==> hi == p.k)
    ensures Dot(a, b, i, j, lo, upto) == Dot(a, b, i, j, lo, hi)
  {
    DotSplit(a, b, i, j, lo, hi, upto);
    DotZero(a, b, i, j, hi, upto);
  }

  /** What stays fixed while a block of C is computed. */
  ghost predicate KReady(p: Param, kq: KQuant, s: KScratch, blk: Block, block2: pos, nsize: nat, a: Matrix, b: Matrix,
                         w: Matrix) {
    && p.core.Valid() && p.L().Valid() && p.ZeroBelow(b) && kq.Holds(p, a, b, w)
    && BlockReady(p, s.Inner(), blk, block2) && KShape(p.core, p.k, kq.kblock, block2)
    && Covers(p, blk, s.tmpC.Length, nsize) && s.tmpC.Length == s.tmpBlk.Length
    && s.tmpC !in {s.tmpA, s.tmpB, s.tmpBlk, p.matA, p.packed}
  }

  /** tmpC holds the dequantised products below `upto`. */
  ghost predicate SoFar(s: KScratch, blk: Block, nsize: nat, a: Matrix, w: Matrix, upto: int)
    reads s.tmpC
  {
    BlockHolds(blk, s.tmpC[..], nsize, Partial(a, w, 0, upto))
  }

  /** The row loop, writing to tmpBlk. */
  method PieceProducts(p: Param, s: KScratch, blk: Block, ghost block2: pos, kpos: nat, ksize: pos, bstep: int,
                       boff: int, ghost sl: Layout, ghost kloc: nat, ghost bv: Matrix, ghost a: Matrix,
                       ghost b: Matrix)
    requires p.core.Valid() && OperandA(p.matA[..], 0, p.lda, p.m, p.k, a)
    requires BlockReady(p, s.Inner(), blk, block2) && Padto(ksize, p.core.ktile) <= Depth(p.core, block2)
    requires KSlice(p, s.tmpB[..], sl, kloc, bv, b, blk, kpos, ksize, Padto(ksize, p.core.ktile))
    requires bstep == sl.kpad && boff == kloc * p.core.ntile
    requires kpos > blk.kbase ==> blk.Rows(s.tmpBlk[..], a, b, 0, blk.msize, kpos)
    modifies s.tmpA, s.tmpBlk
    ensures blk.Rows(s.tmpBlk[..], a, b, 0, blk.msize, kpos + Padto(ksize, p.core.ktile))
  {
    MulMono(Padto(ksize, p.core.ktile), Depth(p.core, block2), p.core.mtile);
    RowGroups(p, s.tmpA, s.tmpB, s.tmpBlk, blk, kpos, ksize, Padto(ksize, p.core.ktile), bstep, boff, sl, kloc, bv, a,
              b);
  }

  /** The products of the K block kbase .. hi are in tmpBlk: it is scaled into tmpC. */
  method FinishBlock(p: Param, kq: KQuant, s: KScratch, blk: Block, ghost block2: pos, nsize: nat, kbase: nat,
                     ghost hi: nat, kb: nat, ghost a: Matrix, ghost b: Matrix, ghost w: Matrix)
    requires KReady(p, kq, s, blk, block2, nsize, a, b, w)
    requires kbase <= hi <= p.k && WholeBlock(p, kq, kb, kbase, hi - kbase) && (hi == p.k || hi % p.core.ktile == 0)
    requires blk.(kbase := kbase).Rows(s.tmpBlk[..], a, b, 0, blk.msize, Padto(hi, p.core.ktile))
    requires SoFar(s, blk, nsize, a, w, kbase)
    modifies s.tmpC
    ensures SoFar(s, blk, nsize, a, w, hi)
  {
    PieceDone(p, s.tmpBlk[..], blk.(kbase := kbase), nsize, a, b, hi);
    BlockEpilogue(p, kq, s.tmpBlk, s.tmpC, blk, nsize, kb, a, b, w);
  }

  /** A fetched K step, with the K block at ikk to come. */
  ghost predicate PieceAt(p: Param, kq: KQuant, d: seq<real>, blk: Block, block2: pos, iterk: nat, kremain: int,
                          kpadded: int, ikk: nat, sl: Layout, bv: Matrix, b: Matrix) {
    && ChunkAt(p, kq, block2, iterk, kremain) && ikk % kq.kblock == 0 && 0 < kpadded <= Depth(p.core, block2)
    && KSlice(p, d, sl, 0, bv, b, blk.(kbase := iterk), iterk, kremain, kpadded)
  }

  lemma PieceReady(p: Param, kq: KQuant, s: KScratch, d: seq<real>, blk: Block, block2: pos, iterk: nat, kremain: pos,
                   kpadded: nat, kpos: nat, ksize: int, hi: int, kb: int, sl: Layout, bv: Matrix, b: Matrix,
                   bv': Matrix)
    requires p.core.Valid() && p.L().Valid() && p.ZeroBelow(b) && BlockReady(p, s.Inner(), blk, block2) && iterk <= kpos
    requires PieceAt(p, kq, d, blk, block2, iterk, kremain, kpadded, kpos - iterk, sl, bv, b) && kpos < iterk + kremain
    requires ksize == RemainSize(kpos, p.k, kq.kblock) && hi == Min(kpos + kq.kblock, p.k) && kb == kpos / kq.kblock
    requires forall kk, j :: bv'(kk, j) == b(kpos + kk, blk.col0 + j)
    ensures PieceEnds(p, kq, block2, kpos, ksize, hi, kb)
    ensures KSlice(p, d, sl, kpos - iterk, bv', b, blk.(kbase := kpos), kpos, ksize, Padto(ksize, p.core.ktile))
  {
    PieceInside(p, kq, block2, iterk, kremain, kpadded, kpos, ksize, hi, kb);
    PieceFits(p, kq, block2, iterk, kremain, kpos - iterk, ksize);
    SubSlice(p, d, sl, bv, b, blk, iterk, kremain, kpadded, kpos - iterk, ksize, bv');
  }

  /** The K block at kpos is block kb; its padded rows fit the scratch buffer and end at hi, padded. */
  ghost predicate PieceEnds(p: Param, kq: KQuant, block2: pos, kpos: nat, ksize: int, hi: int, kb: int) {
    && 0 < ksize && Padto(ksize, p.core.ktile) <= Depth(p.core, block2) && kpos <= hi <= p.k
    && (hi == p.k || hi % p.core.ktile == 0) && kpos + Padto(ksize, p.core.ktile) == Padto(hi, p.core.ktile)
    && 0 <= kb && WholeBlock(p, kq, kb, kpos, hi - kpos)
  }

  lemma PieceInside(p: Param, kq: KQuant, block2: pos, iterk: nat, kremain: pos, kpadded: nat, kpos: nat, ksize: int,
                    hi: int, kb: int)
    requires p.core.Valid() && ChunkAt(p, kq, block2, iterk, kremain) && iterk <= kpos < iterk + kremain
    requires (kpos - iterk) % kq.kblock == 0 && kpadded == Padto(kremain, p.core.ktile) <= Depth(p.core, block2)
    requires ksize == RemainSize(kpos, p.k, kq.kblock) && hi == Min(kpos + kq.kblock, p.k) && kb == kpos / kq.kblock
    ensures PieceEnds(p, kq, block2, kpos, ksize, hi, kb)
  {
    PieceFits(p, kq, block2, iterk, kremain, kpos - iterk, ksize);
    DivBounds(kpos, kq.kblock, 0);
  }

  lemma PaddedEnd(loc: nat, size: pos, total: nat, tile: pos)
    requires loc % tile == 0 && loc + size <= total && (loc + size == total || size % tile == 0)
    ensures loc + Padto(size, tile) == Padto(loc + size, tile)
    ensures loc + size == total || (loc + size) % tile == 0
  {
    PaddedAxis(loc, size, total, tile);
    if size % tile == 0 {
      MultiplesAdd(loc, size, tile);
      PadtoBounds(loc + size, tile);
      PadtoBounds(size, tile);
    }
  }

  /** One K block of run_block, from rows ikk .. of a fetched slice: its products go to tmpBlk, then scaled into tmpC.
    */
  method RunPiece(p: Param, kq: KQuant, s: KScratch, blk: Block, ghost block2: pos, nsize: nat, kpos: nat, ksize: pos,
                  ikk: nat, bstep: int, kb: nat, ghost hi: nat, ghost sl: Layout, ghost bv: Matrix, ghost a: Matrix,
                  ghost b: Matrix, ghost w: Matrix)
    requires OperandA(p.matA[..], 0, p.lda, p.m, p.k, a) && KReady(p, kq, s, blk, block2, nsize, a, b, w)
    requires KSlice(p, s.tmpB[..], sl, ikk, bv, b, blk.(kbase := kpos), kpos, ksize, Padto(ksize, p.core.ktile))
    requires bstep == sl.kpad
    requires Padto(ksize, p.core.ktile) <= Depth(p.core, block2)
    requires kpos + Padto(ksize, p.core.ktile) == Padto(hi, p.core.ktile)
    requires kpos <= hi <= p.k && WholeBlock(p, kq, kb, kpos, hi - kpos) && (hi == p.k || hi % p.core.ktile == 0)
    requires SoFar(s, blk, nsize, a, w, kpos)
    modifies s.tmpA, s.tmpBlk, s.tmpC
    ensures SoFar(s, blk, nsize, a, w, hi)
  {
    PieceProducts(p, s, blk.(kbase := kpos), block2, kpos, ksize, bstep, ikk * p.core.ntile, sl, ikk, bv, a, b);
    FinishBlock(p, kq, s, blk, block2, nsize, kpos, hi, kb, a, b, w);
  }

  method RunSlicePiece(p: Param, kq: KQuant, s: KScratch, blk: Block, ghost block2: pos, nsize: nat, iterk: nat,
                       kremain: pos, ghost kpadded: nat, kpos: nat, bstep: int, ghost hi: nat, ghost sl: Layout,
                       ghost bv: Matrix, ghost a: Matrix, ghost b: Matrix, ghost w: Matrix)
    requires OperandA(p.matA[..], 0, p.lda, p.m, p.k, a) && KReady(p, kq, s, blk, block2, nsize, a, b, w)
    requires iterk <= kpos < iterk + kremain && bstep == sl.kpad && hi == Min(kpos + kq.kblock, p.k)
    requires PieceAt(p, kq, s.tmpB[..], blk, block2, iterk, kremain, kpadded, kpos - iterk, sl, bv, b)
    requires SoFar(s, blk, nsize, a, w, kpos)
    modifies s.tmpA, s.tmpBlk, s.tmpC
    ensures SoFar(s, blk, nsize, a, w, hi)
  {
    var ksize, kb := RemainSize(kpos, p.k, kq.kblock), kpos / kq.kblock;
    ghost var bv' := (kk: int, j: int) => b(kpos + kk, blk.col0 + j);
    PieceReady(p, kq, s, s.tmpB[..], blk, block2, iterk, kremain, kpadded, kpos, ksize, hi, kb, sl, bv, b, bv');
    RunPiece(p, kq, s, blk, block2, nsize, kpos, ksize, kpos - iterk, bstep, kb, hi, sl, bv', a, b, w);
  }

  /** The loop over the K blocks of a fetched K step. */
  method RunPieces(p: Param, kq: KQuant, s: KScratch, blk: Block, ghost block2: pos, nsize: nat, iterk: nat,
                   kremain: pos, ghost kpadded: nat, bstep: int, ghost sl: Layout, ghost bv: Matrix, ghost a: Matrix,
                   ghost b: Matrix, ghost w: Matrix)
    requires OperandA(p.matA[..], 0, p.lda, p.m, p.k, a) && KReady(p, kq, s, blk, block2, nsize, a, b, w)
    requires bstep == sl.kpad
    requires PieceAt(p, kq, s.tmpB[..], blk, block2, iterk, kremain, kpadded, 0, sl, bv, b)
    requires SoFar(s, blk, nsize, a, w, iterk)
    modifies s.tmpA, s.tmpBlk, s.tmpC
    ensures SoFar(s, blk, nsize, a, w, Min(iterk + block2, p.k))
  {
    var ikk := 0;
    ghost var sa, sb, upto := p.matA[..], s.tmpB[..], iterk;
    while ikk < kremain
      invariant 0 <= ikk && ikk % kq.kblock == 0 && p.matA[..] == sa && s.tmpB[..] == sb
      invariant ikk > kremain ==> iterk + kremain == p.k
      invariant upto == Min(iterk + ikk, p.k) && SoFar(s, blk, nsize, a, w, upto)
    {
      NextPiece(p, kq, block2, iterk, kremain, ikk);
      upto := Min(iterk + ikk + kq.kblock, p.k);
      RunSlicePiece(p, kq, s, blk, block2, nsize, iterk, kremain, kpadded, iterk + ikk, bstep, upto, sl, bv, a, b, w);
      ikk := ikk + kq.kblock;
    }
    assert upto == Min(iterk + block2, p.k);
  }

  lemma NextPiece(p: Param, kq: KQuant, block2: pos, iterk: nat, kremain: pos, ikk: nat)
    requires p.core.Valid() && ChunkAt(p, kq, block2, iterk, kremain) && ikk < kremain && ikk % kq.kblock == 0
    ensures (ikk + kq.kblock) % kq.kblock == 0
    ensures ikk + kq.kblock > kremain ==> iterk + kremain == p.k
  {
    PieceFits(p, kq, block2, iterk, kremain, ikk, RemainSize(iterk + ikk, p.k, kq.kblock));
    DivUnique(kq.kblock, kq.kblock, 1, 0);
    MultiplesAdd(ikk, kq.kblock, kq.kblock);
  }

  /** One K step of run_block. */
  method RunChunk(p: Param, kq: KQuant, s: KScratch, blk: Block, block2: pos, nsize: nat, iterk: nat,
                  ghost a: Matrix, ghost b: Matrix, ghost w: Matrix)
    requires p.Holds(a, b) && KReady(p, kq, s, blk, block2, nsize, a, b, w)
    requires ChunkAt(p, kq, block2, iterk, RemainSize(iterk, p.k, block2))
    requires SoFar(s, blk, nsize, a, w, iterk)
    modifies s.tmpA, s.tmpB, s.tmpBlk, s.tmpC
    ensures p.Holds(a, b)
    ensures SoFar(s, blk, nsize, a, w, Min(iterk + block2, p.k))
  {
    var kremain := RemainSize(iterk, p.k, block2);
    var kpadded := Padto(kremain, p.core.ktile);
    KRemainFits(p, iterk, block2, blk.npad, kremain, kpadded);
    var bstep, sl, bv := FetchWeight(p, s.tmpB, blk.(kbase := iterk), iterk, kremain, kpadded, a, b);
    DivUnique(0, kq.kblock, 0, 0);
    RunPieces(p, kq, s, blk, block2, nsize, iterk, kremain, kpadded, bstep, sl, bv, a, b, w);
  }

  /** The K loop of run_block. */
  method RunSmall(p: Param, kq: KQuant, s: KScratch, blk: Block, block2: pos, nsize: nat,
                  ghost a: Matrix, ghost b: Matrix, ghost w: Matrix)
    requires p.Holds(a, b) && KReady(p, kq, s, blk, block2, nsize, a, b, w) && kq.kblock <= block2
    requires SoFar(s, blk, nsize, a, w, 0)
    modifies s.tmpA, s.tmpB, s.tmpBlk, s.tmpC
    ensures p.Holds(a, b)
    ensures SoFar(s, blk, nsize, a, w, p.k)
  {
    var iterk := 0;
    DivUnique(0, p.core.ktile, 0, 0);
    DivUnique(0, kq.kblock, 0, 0);
    while iterk < p.k
      invariant 0 <= iterk && (iterk < p.k ==> iterk % p.core.ktile == 0 && iterk % kq.kblock == 0)
      invariant p.Holds(a, b)
      invariant SoFar(s, blk, nsize, a, w, Min(iterk, p.k))
    {
      RunChunk(p, kq, s, blk, block2, nsize, iterk, a, b, w);
      if block2 % p.core.ktile == 0 {
        MultiplesAdd(iterk, block2, p.core.ktile);
      }
      if block2 % kq.kblock == 0 {
        MultiplesAdd(iterk, block2, kq.kblock);
      }
      iterk := iterk + block2;
    }
  }

  // ----- run_block_large: a K block takes several K steps

  method Clear(d: array<real>, len: nat)
    requires len <= d.Length
    modifies d
    ensures forall q | 0 <= q < d.Length :: d[q] == if q < len then 0.0 else old(d[q])
  {
    for i := 0 to len
      invariant forall q | 0 <= q < d.Length :: d[q] == if q < i then 0.0 else old(d[q])
    {
      d[i] := 0.0;
    }
  }

  ghost predicate LargeAt(p: Param, kq: KQuant, block2: pos, iterk: nat) {
    && p.core.Valid() && KShape(p.core, p.k, kq.kblock, block2) && kq.kblock > block2
    && iterk < p.k && iterk % kq.kblock == 0 && block2 < p.k
  }

  /** A K step shorter than a K block is shorter than K. */
  lemma ShortStep(c: Core, k: pos, kblock: pos, block2: pos)
    requires KShape(c, k, kblock, block2) && kblock > block2
    ensures block2 < k && block2 % c.ktile == 0
  {
    if k < kblock { DivUnique(k, kblock, 0, k); }
  }

  /** One K step inside a long K block. */
  lemma LargeStepFits(p: Param, kq: KQuant, block2: pos, iterk: nat, iblkk: nat, ksize: int)
    requires LargeAt(p, kq, block2, iterk) && iblkk < kq.kblock && iblkk % p.core.ktile == 0
    requires ksize == RemainSize(iterk + iblkk, iterk + kq.kblock, block2)
    ensures 0 < ksize && KPiece(p, iterk + iblkk, ksize, Padto(ksize, p.core.ktile))
    ensures Padto(ksize, p.core.ktile) <= block2
    ensures iblkk + block2 < kq.kblock ==> Padto(ksize, p.core.ktile) == block2
    ensures iterk + iblkk + ksize == iterk + Min(iblkk + block2, kq.kblock) <= p.k
  {
    var kt := p.core.ktile;
    MultiplesApart(iterk, p.k, kq.kblock);
    if kq.kblock % kt == 0 {
      MultipleTrans(iterk, kq.kblock, kt);
      MultiplesAdd(kq.kblock, iblkk, kt);
    } else {
      MultipleSmall(iterk, kq.kblock);
      DivUnique(0, kt, 0, 0);
    }
    MultiplesAdd(iterk, iblkk, kt);
    PadtoBounds(ksize, kt);
    PadtoBounds(block2, kt);
    if block2 < Padto(ksize, kt) {
      MultiplesApart(block2, Padto(ksize, kt), kt);
    }
  }

  /** How far the products in tmpBlk reach once `done` of a long K block is behind. */
  function LargeUpto(c: Core, iterk: nat, done: nat, kblock: pos): nat {
    if done < kblock then iterk + done else Padto(iterk + kblock, c.ktile)
  }

  /** One K step of a long K block. */
  method LargeStep(p: Param, s: KScratch, blk: Block, ghost block2: pos, iterk: nat, iblkk: nat, kremain: pos,
                   ghost a: Matrix, ghost b: Matrix)
    requires p.Holds(a, b) && BlockReady(p, s.Inner(), blk, block2)
    requires KPiece(p, iterk + iblkk, kremain, Padto(kremain, p.core.ktile))
    requires Padto(kremain, p.core.ktile) <= Depth(p.core, block2)
    requires iblkk > 0 ==> blk.(kbase := iterk).Rows(s.tmpBlk[..], a, b, 0, blk.msize, iterk + iblkk)
    modifies s.tmpA, s.tmpB, s.tmpBlk
    ensures p.Holds(a, b)
    ensures blk.(kbase := iterk).Rows(s.tmpBlk[..], a, b, 0, blk.msize, iterk + iblkk + Padto(kremain, p.core.ktile))
  {
    var at := iterk + iblkk;
    var kpadded := Padto(kremain, p.core.ktile);
    PadtoBounds(kremain, p.core.ktile);
    MulMono(kpadded, Depth(p.core, block2), blk.npad);
    var here := blk.(kbase := iterk);
    var bstep, sl, bv := FetchWeight(p, s.tmpB, here, at, kremain, kpadded, a, b);
    PieceProducts(p, s, here, block2, at, kremain, bstep, 0, sl, 0, bv, a, b);
  }

  method LargeIteration(p: Param, kq: KQuant, s: KScratch, blk: Block, block2: pos, iterk: nat, iblkk: nat,
                        ghost a: Matrix, ghost b: Matrix)
    requires p.Holds(a, b) && BlockReady(p, s.Inner(), blk, block2) && LargeAt(p, kq, block2, iterk)
    requires iblkk < kq.kblock && iblkk % p.core.ktile == 0
    requires iblkk > 0 ==> blk.(kbase := iterk).Rows(s.tmpBlk[..], a, b, 0, blk.msize, iterk + iblkk)
    modifies s.tmpA, s.tmpB, s.tmpBlk
    ensures p.Holds(a, b)
    ensures blk.(kbase := iterk).Rows(s.tmpBlk[..], a, b, 0, blk.msize,
                                      LargeUpto(p.core, iterk, iblkk + block2, kq.kblock))
  {
    var kremain := RemainSize(iterk + iblkk, iterk + kq.kblock, block2);
    LargeStepFits(p, kq, block2, iterk, iblkk, kremain);
    PaddedEnd(iterk + iblkk, kremain, p.k, p.core.ktile);
    PadtoBounds(block2, p.core.ktile);
    LargeStep(p, s, blk, block2, iterk, iblkk, kremain, a, b);
  }

  method LargeSteps(p: Param, kq: KQuant, s: KScratch, blk: Block, block2: pos, iterk: nat, ghost a: Matrix,
                    ghost b: Matrix)
    requires p.Holds(a, b) && BlockReady(p, s.Inner(), blk, block2) && LargeAt(p, kq, block2, iterk)
    modifies s.tmpA, s.tmpB, s.tmpBlk
    ensures p.Holds(a, b)
    ensures blk.(kbase := iterk).Rows(s.tmpBlk[..], a, b, 0, blk.msize, Padto(iterk + kq.kblock, p.core.ktile))
  {
    var iblkk := 0;
    DivUnique(0, p.core.ktile, 0, 0);
    ghost var sa, sw := p.matA[..], p.packed[..];
    while iblkk < kq.kblock
      invariant 0 <= iblkk && iblkk % p.core.ktile == 0 && p.matA[..] == sa && p.packed[..] == sw
      invariant iblkk > 0 ==>
                  blk.(kbase := iterk).Rows(s.tmpBlk[..], a, b, 0, blk.msize,
                                            LargeUpto(p.core, iterk, iblkk, kq.kblock))
    {
      LargeIteration(p, kq, s, blk, block2, iterk, iblkk, a, b);
      MultiplesAdd(iblkk, block2, p.core.ktile);
      iblkk := iblkk + block2;
    }
  }

  /** The K block at iterk: its tile is cleared, filled over several K steps, and scaled once. */
  method LargeBlock(p: Param, kq: KQuant, s: KScratch, blk: Block, block2: pos, nsize: nat, iterk: nat,
                    ghost a: Matrix, ghost b: Matrix, ghost w: Matrix)
    requires p.Holds(a, b) && KReady(p, kq, s, blk, block2, nsize, a, b, w) && LargeAt(p, kq, block2, iterk)
    requires blk.msize * blk.stride <= s.tmpBlk.Length
    requires SoFar(s, blk, nsize, a, w, iterk)
    modifies s.tmpA, s.tmpB, s.tmpBlk, s.tmpC
    ensures p.Holds(a, b)
    ensures SoFar(s, blk, nsize, a, w, iterk + kq.kblock)
  {
    Clear(s.tmpBlk, blk.msize * blk.stride);
    LargeSteps(p, kq, s, blk, block2, iterk, a, b);
    LargeEnd(p, kq, block2, iterk);
    FinishBlock(p, kq, s, blk, block2, nsize, iterk, iterk + kq.kblock, iterk / kq.kblock, a, b, w);
  }

  lemma LargeEnd(p: Param, kq: KQuant, block2: pos, iterk: nat)
    requires LargeAt(p, kq, block2, iterk)
    ensures iterk + kq.kblock <= p.k && WholeBlock(p, kq, iterk / kq.kblock, iterk, kq.kblock)
    ensures iterk + kq.kblock == p.k || (iterk + kq.kblock) % p.core.ktile == 0
  {
    BlockAt(p, kq, iterk);
    MultiplesApart(iterk, p.k, kq.kblock);
    if kq.kblock % p.core.ktile == 0 {
      MultipleTrans(iterk, kq.kblock, p.core.ktile);
      MultiplesAdd(iterk, kq.kblock, p.core.ktile);
    }
  }

  /** The loop of run_block_large. */
  method RunLarge(p: Param, kq: KQuant, s: KScratch, blk: Block, block2: pos, nsize: nat,
                  ghost a: Matrix, ghost b: Matrix, ghost w: Matrix)
    requires p.Holds(a, b) && KReady(p, kq, s, blk, block2, nsize, a, b, w) && kq.kblock > block2
    requires blk.msize * blk.stride <= s.tmpBlk.Length
    requires SoFar(s, blk, nsize, a, w, 0)
    modifies s.tmpA, s.tmpB, s.tmpBlk, s.tmpC
    ensures p.Holds(a, b)
    ensures SoFar(s, blk, nsize, a, w, p.k)
  {
    var iterk := 0;
    DivUnique(0, kq.kblock, 0, 0);
    DivUnique(kq.kblock, kq.kblock, 1, 0);
    ShortStep(p.core, p.k, kq.kblock, block2);
    while iterk < p.k
      invariant 0 <= iterk <= p.k && iterk % kq.kblock == 0 && p.Holds(a, b)
      invariant SoFar(s, blk, nsize, a, w, iterk)
    {
      LargeBlock(p, kq, s, blk, block2, nsize, iterk, a, b, w);
      MultiplesApart(iterk, p.k, kq.kblock);
      MultiplesAdd(iterk, kq.kblock, kq.kblock);
      iterk := iterk + kq.kblock;
    }
  }

  // ----- run

  /** What a thread needs to run its rectangle. */
  ghost predicate KRunReady(p: Param, kq: KQuant, cfg: Config, s: KScratch, a: Matrix, b: Matrix, w: Matrix) {
    && p.Separate() && cfg.Valid(p) && s.Fits(p, cfg) && kq.Holds(p, a, b, w)
    && KShape(p.core, p.k, kq.kblock, cfg.block.d2)
  }

  /** Both branches leave the dequantised product of the block in tmpC. */
  method RunKProducts(p: Param, kq: KQuant, s: KScratch, blk: Block, block2: pos, nsize: nat,
                      ghost a: Matrix, ghost b: Matrix, ghost w: Matrix)
    requires p.Holds(a, b) && KReady(p, kq, s, blk, block2, nsize, a, b, w)
    requires blk.msize * blk.stride <= s.tmpBlk.Length
    modifies s.tmpA, s.tmpB, s.tmpBlk, s.tmpC
    ensures p.Holds(a, b)
    ensures SoFar(s, blk, nsize, a, w, p.k)
  {
    Clear(s.tmpC, s.tmpC.Length);
    if kq.kblock <= block2 {
      RunSmall(p, kq, s, blk, block2, nsize, a, b, w);
    } else {
      RunLarge(p, kq, s, blk, block2, nsize, a, b, w);
    }
  }

  /** One block0 x block1 block of the thread's rectangle. */
  method RunKBlock(p: Param, kq: KQuant, cfg: Config, s: KScratch, blkM: nat, blkN: nat, msize: pos, nsize: pos,
                   ghost a: Matrix, ghost b: Matrix, ghost w: Matrix) returns (ghost hits: Hits)
    requires p.Holds(a, b) && KRunReady(p, kq, cfg, s, a, b, w)
    requires blkM + msize <= cfg.size.d0 && msize <= cfg.block.d0
    requires blkN + nsize <= cfg.size.d1 && nsize <= cfg.block.d1 && blkN % p.core.ntile == 0
    requires blkN + nsize == cfg.size.d1 || nsize % p.core.ntile == 0
    modifies s.tmpA, s.tmpB, s.tmpC, s.tmpBlk, p.matC
    ensures p.Holds(a, b)
    ensures Written(p.ldc, p.matC[..], old(p.matC[..]), ProductOf(a, w, p.k), cfg.loc.d0 + blkM, cfg.loc.d1 + blkN,
                    msize, nsize)
    ensures HitsOnce(hits, cfg.loc.d0 + blkM, cfg.loc.d1 + blkN, msize, nsize)
  {
    var npadded := Padto(nsize, p.core.ntile);
    var blk := Block(cfg.loc.d0 + blkM, cfg.loc.d1 + blkN, msize, npadded, cfg.block.d1, 0);
    BlockFits(p, cfg, s.Inner(), blkM, blkN, msize, nsize, npadded, 0);
    MulMono(msize, cfg.block.d0, cfg.block.d1);
    RunKProducts(p, kq, s, blk, cfg.block.d2, nsize, a, b, w);
    hits := Epilogue(p, s.tmpC, blk, nsize, ProductOf(a, w, p.k));
  }

  /** The row blocks of one column block. */
  method RunKColumn(p: Param, kq: KQuant, cfg: Config, s: KScratch, itern: nat, nremain: pos,
                    ghost a: Matrix, ghost b: Matrix, ghost w: Matrix) returns (ghost hits: Hits)
    requires p.Holds(a, b) && KRunReady(p, kq, cfg, s, a, b, w)
    requires itern + nremain <= cfg.size.d1 && nremain <= cfg.block.d1 && itern % p.core.ntile == 0
    requires itern + nremain == cfg.size.d1 || nremain % p.core.ntile == 0
    modifies s.tmpA, s.tmpB, s.tmpC, s.tmpBlk, p.matC
    ensures p.Holds(a, b)
    ensures Written(p.ldc, p.matC[..], old(p.matC[..]), ProductOf(a, w, p.k), cfg.loc.d0, cfg.loc.d1 + itern,
                    cfg.size.d0, nremain)
    ensures HitsOnce(hits, cfg.loc.d0, cfg.loc.d1 + itern, cfg.size.d0, nremain)
  {
    ghost var d0 := p.matC[..];
    hits := (i, j) => 0;
    var iterm := 0;
    while iterm < cfg.size.d0
      invariant 0 <= iterm && p.Holds(a, b)
      invariant Written(p.ldc, p.matC[..], d0, ProductOf(a, w, p.k), cfg.loc.d0, cfg.loc.d1 + itern,
                        Min(iterm, cfg.size.d0), nremain)
      invariant HitsOnce(hits, cfg.loc.d0, cfg.loc.d1 + itern, Min(iterm, cfg.size.d0), nremain)
    {
      var mremain := RemainSize(iterm, cfg.size.d0, cfg.block.d0);
      ghost var h := hits;
      ghost var x := RunKBlock(p, kq, cfg, s, iterm, itern, mremain, nremain, a, b, w);
      hits := (i, j) => h(i, j) + x(i, j);
      iterm := iterm + cfg.block.d0;
    }
  }

  /** LauncherKBlock::run: the thread's rectangle of C becomes A times the dequantised weights, whether K blocks are
      shorter or longer than a K step; every element is written once. */
  method RunK(p: Param, kq: KQuant, cfg: Config, s: KScratch, ghost a: Matrix, ghost b: Matrix, ghost w: Matrix)
    returns (ghost hits: Hits)
    requires p.Holds(a, b) && KRunReady(p, kq, cfg, s, a, b, w)
    modifies s.tmpA, s.tmpB, s.tmpC, s.tmpBlk, p.matC
    ensures p.Holds(a, b)
    ensures Written(p.ldc, p.matC[..], old(p.matC[..]), ProductOf(a, w, p.k), cfg.loc.d0, cfg.loc.d1, cfg.size.d0,
                    cfg.size.d1)
    ensures HitsOnce(hits, cfg.loc.d0, cfg.loc.d1, cfg.size.d0, cfg.size.d1)
  {
    ghost var d0 := p.matC[..];
    hits := (i, j) => 0;
    var itern := 0;
    DivUnique(0, p.core.ntile, 0, 0);
    while itern < cfg.size.d1
      invariant 0 <= itern && itern % p.core.ntile == 0 && p.Holds(a, b)
      invariant Written(p.ldc, p.matC[..], d0, ProductOf(a, w, p.k), cfg.loc.d0, cfg.loc.d1, cfg.size.d0,
                        Min(itern, cfg.size.d1))
      invariant HitsOnce(hits, cfg.loc.d0, cfg.loc.d1, cfg.size.d0, Min(itern, cfg.size.d1))
    {
      var nremain := RemainSize(itern, cfg.size.d1, cfg.block.d1);
      ghost var h := hits;
      ghost var x := RunKColumn(p, kq, cfg, s, itern, nremain, a, b, w);
      hits := (i, j) => h(i, j) + x(i, j);
      MultiplesAdd(itern, cfg.block.d1, p.core.ntile);
      itern := itern + cfg.block.d1;
    }
  }
}
