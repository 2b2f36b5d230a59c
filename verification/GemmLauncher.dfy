/** LauncherBase of bestla_wrapper.h: the blocked loop nest one thread runs. */
module GemmLauncher {
  import opened Utils
  import opened Layouts
  import opened GemmCore
  import opened DotProducts
  import opened WeightPacking
  import opened Scheduling
  import opened GemmScheduling
  import opened GemmKernel

  /** The GEMM problem: row-major A and C, packed B. */
  datatype Param = Param(core: Core, m: pos, n: pos, k: pos, matA: array<real>, lda: nat, packed: array<real>,
                         matC: array<real>, ldc: pos)
  {
    function L(): Layout {
      PackedLayout(k, n, core.ktile, core.ntile, core.packRow)
    }

    /** A holds a; the packed buffer holds b with zero rows from k on. */
    ghost predicate Holds(a: Matrix, b: Matrix)
      reads matA, packed
    {
      && core.Valid() && L().Valid() && packed.Length == L().Size()
      && OperandA(matA[..], 0, lda, m, k, a)
      && (forall kk, nn | L().In(kk, nn) :: L().At(packed[..], kk, nn) == b(kk, nn))
      && ZeroBelow(b)
    }

    ghost predicate ZeroBelow(b: Matrix) {
      forall kk, nn | k <= kk < L().kpad && 0 <= nn < L().npad :: b(kk, nn) == 0.0
    }

    ghost predicate Separate() {
      matC != matA && matC != packed && WindowFits(matC.Length, 0, ldc, m, n) && n <= ldc
    }
  }

  /** What the scheduler tells a thread: its rectangle and its blocks. */
  datatype Config = Config(loc: Dim2, size: Dim2, block: Dim3) {
    ghost predicate Valid(p: Param) {
      && 0 <= loc.d0 && 0 < size.d0 && loc.d0 + size.d0 <= p.m
      && 0 <= loc.d1 && 0 < size.d1 && loc.d1 + size.d1 <= p.n && loc.d1 % p.core.ntile == 0
      && (loc.d1 + size.d1 == p.n || size.d1 % p.core.ntile == 0)
      && 0 < block.d0
      && 0 < block.d1 && block.d1 % p.core.ntile == 0
      && 0 < block.d2 && (block.d2 % p.core.ktile == 0 || block.d2 >= p.k)
    }
  }

  /** Scratch buffers carved from the thread's stack, with room for K steps of whole KTILEs. That is what the source
      reserves if the K block is a KTILE multiple, and more if it is all of an unaligned K. */
  datatype Scratch = Scratch(tmpA: array<real>, tmpB: array<real>, tmpC: array<real>) {
    ghost predicate Fits(p: Param, cfg: Config) {
      && tmpA != tmpB && tmpA != tmpC && tmpB != tmpC
      && {tmpA, tmpB, tmpC} !! {p.matA, p.packed, p.matC}
      && 0 < cfg.block.d0 && 0 < cfg.block.d1 && 0 < cfg.block.d2
      && tmpA.Length == p.core.mtile * Depth(p.core, cfg.block.d2)
      && tmpB.Length == cfg.block.d1 * Depth(p.core, cfg.block.d2)
      && tmpC.Length == cfg.block.d0 * cfg.block.d1
    }
  }

  /** The buffer window as a matrix. */
  ghost function BufferMatrix(s: seq<real>, off: int, step: int): Matrix {
    (r: int, k: int) => BufferAt(s, off, step, r, k)
  }

  lemma BufferHolds(s: seq<real>, off: int, step: int, m: int, kp: int)
    requires WindowFits(|s|, off, step, m, kp)
    ensures OperandA(s, off, step, m, kp, BufferMatrix(s, off, step))
  {
    forall r, k | 0 <= r < m && 0 <= k < kp
      ensures 0 <= off + RowMajor(step, r, k) < |s|
    {
      WindowIndex(|s|, off, step, m, kp, r, k);
    }
  }

  /** av is the msize x ksize part of a at (moff, koff). */
  ghost predicate ViewOf(av: Matrix, a: Matrix, moff: int, koff: int, msize: int, ksize: int) {
    forall r, kk | 0 <= r < msize && 0 <= kk < ksize :: av(r, kk) == a(moff + r, koff + kk)
  }

  /** ActivationBase::getActivation: the caller's rows in place when they are aligned and whole, else a copy whose
      KTILE padding is left as it was. */
  method GetActivation(c: Core, matA: array<real>, lda: nat, ghost m: nat, ghost k: nat, tmpA: array<real>, msize: pos,
                       ksize: pos, moff: nat, koff: nat, ghost a: Matrix)
    returns (buf: array<real>, off: int, step: int, ghost av: Matrix)
    requires OperandA(matA[..], 0, lda, m, k, a) && tmpA != matA
    requires msize <= c.mtile && moff + msize <= m && koff + ksize <= k
    requires c.mtile * Depth(c, ksize) <= tmpA.Length
    modifies tmpA
    ensures buf == matA || buf == tmpA
    ensures OperandA(buf[..], off, step, msize, Depth(c, ksize), av)
    ensures ViewOf(av, a, moff, koff, msize, ksize)
  {
    var aligned: bool := *;  // whether the address happens to be 64-byte aligned
    if ksize % c.ktile == 0 && msize >= c.mtile && aligned {
      PadtoBounds(ksize, c.ktile);
      buf, off, step := matA, moff * lda + koff, lda;
      av := BufferMatrix(matA[..], off, step);
      RawView(matA[..], off, lda, m, k, a, moff, koff, msize, ksize);
    } else {
      av := CopyActivation(c, matA, lda, m, k, tmpA, msize, ksize, moff, koff, a);
      buf, off, step := tmpA, 0, Depth(c, ksize);
    }
  }

  lemma RawView(s: seq<real>, off: int, lda: nat, m: nat, k: nat, a: Matrix, moff: nat, koff: nat, msize: pos,
                ksize: pos)
    requires OperandA(s, 0, lda, m, k, a) && moff + msize <= m && koff + ksize <= k && off == moff * lda + koff
    ensures WindowFits(|s|, off, lda, msize, ksize)
    ensures OperandA(s, off, lda, msize, ksize, BufferMatrix(s, off, lda))
    ensures ViewOf(BufferMatrix(s, off, lda), a, moff, koff, msize, ksize)
  {
    SubWindow(|s|, lda, m, k, moff, koff, msize, ksize);
    BufferHolds(s, off, lda, msize, ksize);
    var av := BufferMatrix(s, off, lda);
    forall r, kk | 0 <= r < msize && 0 <= kk < ksize
      ensures av(r, kk) == a(moff + r, koff + kk)
    {
      SubElement(s, lda, m, k, a, moff, koff, r, kk);
    }
  }

  method CopyActivation(c: Core, matA: array<real>, lda: nat, ghost m: nat, ghost k: nat, tmpA: array<real>, msize: pos,
                        ksize: pos, moff: nat, koff: nat, ghost a: Matrix) returns (ghost av: Matrix)
    requires OperandA(matA[..], 0, lda, m, k, a) && tmpA != matA
    requires msize <= c.mtile && moff + msize <= m && koff + ksize <= k
    requires c.mtile * Depth(c, ksize) <= tmpA.Length
    modifies tmpA
    ensures OperandA(tmpA[..], 0, Depth(c, ksize), msize, Depth(c, ksize), av)
    ensures ViewOf(av, a, moff, koff, msize, ksize)
  {
    PadtoBounds(ksize, c.ktile);
    var src := moff * lda + koff;
    var kpad := Depth(c, ksize);
    RawView(matA[..], src, lda, m, k, a, moff, koff, msize, ksize);
    CopyWindow(tmpA.Length, c.mtile, kpad, msize, ksize);
    ghost var d0 := tmpA[..];
    ghost var _ := Memcpy2D(matA, src, tmpA, 0, msize, ksize, lda, kpad);
    av := BufferMatrix(tmpA[..], 0, kpad);
    BufferHolds(tmpA[..], 0, kpad, msize, kpad);
    CopiedView(matA[..], tmpA[..], d0, src, lda, msize, ksize, kpad, a, moff, koff);
  }

  lemma CopiedView(s: seq<real>, d: seq<real>, d0: seq<real>, soff: int, lda: nat, msize: nat, ksize: nat, kpad: pos,
                   a: Matrix, moff: nat, koff: nat)
    requires WindowFits(|s|, soff, lda, msize, ksize) && WindowFits(|d|, 0, kpad, msize, ksize) && |d| == |d0|
    requires Copied(d, d0, s, soff, 0, msize, ksize, lda, kpad, msize, 0) && ksize <= kpad
    requires ViewOf(BufferMatrix(s, soff, lda), a, moff, koff, msize, ksize)
    ensures ViewOf(BufferMatrix(d, 0, kpad), a, moff, koff, msize, ksize)
  {
    var av, dv := BufferMatrix(s, soff, lda), BufferMatrix(d, 0, kpad);
    forall r, kk | 0 <= r < msize && 0 <= kk < ksize
      ensures dv(r, kk) == a(moff + r, koff + kk)
    {
      CopiedElement(s, d, d0, soff, lda, msize, ksize, kpad, r, kk);
      assert av(r, kk) == a(moff + r, koff + kk);
    }
  }

  /** An element of a sub-window, read through its own offset. */
  lemma SubElement(s: seq<real>, lda: nat, m: nat, k: nat, a: Matrix, moff: nat, koff: nat, r: nat, kk: nat)
    requires OperandA(s, 0, lda, m, k, a) && moff + r < m && koff + kk < k
    ensures BufferAt(s, moff * lda + koff, lda, r, kk) == a(moff + r, koff + kk)
  {
    WindowIndex(|s|, 0, lda, m, k, moff + r, koff + kk);
    assert (moff + r) * lda == moff * lda + r * lda;
    assert s[0 + RowMajor(lda, moff + r, koff + kk)] == a(moff + r, koff + kk);
  }

  lemma CopiedElement(s: seq<real>, d: seq<real>, d0: seq<real>, soff: int, lda: nat, msize: nat, ksize: nat, kpad: pos,
                      r: nat, kk: nat)
    requires WindowFits(|s|, soff, lda, msize, ksize) && WindowFits(|d|, 0, kpad, msize, ksize) && |d| == |d0|
    requires Copied(d, d0, s, soff, 0, msize, ksize, lda, kpad, msize, 0)
    requires r < msize && kk < ksize <= kpad
    ensures BufferAt(d, 0, kpad, r, kk) == BufferAt(s, soff, lda, r, kk)
  {
    WindowIndex(|d|, 0, kpad, msize, ksize, r, kk);
    WindowIndex(|s|, soff, lda, msize, ksize, r, kk);
    WindowCoord(0, kpad, msize, ksize, r, kk);
  }

  lemma CopyWindow(len: int, mtile: pos, kpad: pos, msize: nat, ksize: nat)
    requires mtile * kpad <= len && msize <= mtile && ksize <= kpad
    ensures WindowFits(len, 0, kpad, msize, ksize) && WindowFits(len, 0, kpad, msize, kpad)
  {
    if msize > 0 {
      RowMajorBounds(kpad, mtile, msize - 1, kpad - 1);
    }
  }

  // ----- one block of C

  /** A block of C in the scratch buffer: msize x npad cells `stride` apart, at (row0, col0) of C, summed from kbase. */
  datatype Block = Block(row0: nat, col0: nat, msize: nat, npad: nat, stride: pos, kbase: nat) {
    ghost predicate Fits(len: int) {
      WindowFits(len, 0, stride, msize, npad) && npad <= stride
    }

    /** The cells of rows lo .. hi hold the products over kbase <= k < upto. */
    ghost predicate Rows(d: seq<real>, a: Matrix, b: Matrix, lo: int, hi: int, upto: int) {
      forall q {:trigger d[q]} | 0 <= q < |d| && InWindow(0, stride, msize, npad, q) && lo <= q / stride < hi ::
        d[q] == Dot(a, b, row0 + q / stride, col0 + q % stride, kbase, upto)
    }

    /** Only cells of rows lo .. hi differ. */
    ghost predicate Untouched(d: seq<real>, d0: seq<real>, lo: int, hi: int)
      requires |d| == |d0|
    {
      forall q {:trigger d[q]} | 0 <= q < |d| && !(InWindow(0, stride, msize, npad, q) && lo <= q / stride < hi) ::
        d[q] == d0[q]
    }
  }

  /** bv is b seen from (kpos, col0). */
  ghost predicate ShiftOf(bv: Matrix, b: Matrix, kpos: int, col0: int) {
    forall kk, j :: bv(kk, j) == b(kpos + kk, col0 + j)
  }

  ghost predicate ZeroTail(bv: Matrix, lo: int, hi: int, n: int) {
    forall kk, j | lo <= kk < hi && 0 <= j < n :: bv(kk, j) == 0.0
  }

  /** The zero rows of b make the arbitrary K padding of the A operand harmless: one kernel call advances the
      products of a cell by a whole step. */
  lemma StepProduct(a: Matrix, b: Matrix, oa: Matrix, ob: Matrix, row: int, col: int, r: int, c: int, moff: int,
                    kbase: nat, kpos: nat, msize: int, ksize: nat, depth: nat)
    requires kbase <= kpos
    requires ViewOf(oa, a, moff, kpos, msize, ksize) && 0 <= r < msize && row == moff + r
    requires forall k | 0 <= k < depth :: ob(k, c) == b(kpos + k, col)
    requires forall k | ksize <= k < depth :: ob(k, c) == 0.0
    ensures Dot(a, b, row, col, kbase, kpos + depth) == Dot(a, b, row, col, kbase, kpos) + Dot(oa, ob, r, c, 0, depth)
  {
    forall k | 0 <= k < depth
      ensures oa(r, k) * ob(k, c) == a(row, kpos + k) * b(kpos + k, col)
    {
      if k >= ksize {
        assert ob(k, c) == 0.0 && b(kpos + k, col) == 0.0;
      }
    }
    DotShift(a, b, row, col, oa, ob, r, c, kpos, depth);
    DotSplit(a, b, row, col, kbase, kpos, kpos + depth);
  }

  ghost predicate Apart(matA: array<real>, tmpA: array<real>, tmpB: array<real>, tmpC: array<real>) {
    tmpA != matA && tmpB != matA && tmpC != matA && tmpC != tmpA && tmpC != tmpB && tmpA != tmpB
  }

  /** Rows kloc.. of the scratch copy of B hold, for this block, the rows kpos.. of b: ksize real ones and zero
      padding. */
  ghost predicate StepReady(c: Core, k: nat, lenA: int, sb: seq<real>, lenC: int, blk: Block, kpos: nat, ksize: nat,
                            sl: Layout, kloc: nat, bstep: int, boff: int, b: Matrix, bv: Matrix) {
    && c.Valid() && 0 < ksize && blk.kbase <= kpos && kpos + ksize <= k
    && OperandB(sb, sl, kloc, blk.npad, Depth(c, ksize), bv) && ShiftOf(bv, b, kpos, blk.col0)
    && ZeroTail(bv, ksize, Depth(c, ksize), blk.npad)
    && sl.ntile == c.ntile && sl.packRow == c.packRow && bstep == sl.kpad && boff == kloc * c.ntile
    && c.mtile * Depth(c, ksize) <= lenA
    && blk.Fits(lenC) && 0 < blk.npad && blk.npad % c.ntile == 0
  }

  /** Row group i .. i + mrem of the block can take the step at kpos. */
  ghost predicate GroupReady(c: Core, m: nat, d: seq<real>, blk: Block, i: nat, mrem: nat, kpos: nat, a: Matrix,
                             b: Matrix) {
    && mrem <= c.mtile && blk.row0 + i + mrem <= m && i + mrem <= blk.msize
    && (kpos > blk.kbase ==> blk.Rows(d, a, b, i, i + mrem, kpos))
  }

  /** One kernel call has been made for the row group: tile t of the buffer took operands o. */
  ghost predicate TileStep(d: seq<real>, d0: seq<real>, blk: Block, t: Tile, o: Operands, a: Matrix, b: Matrix, i: nat,
                           kpos: nat, ksize: nat) {
    && |d| == |d0| && blk.npad <= blk.stride && i + t.m <= blk.msize && blk.kbase <= kpos
    && t.coff == i * blk.stride && t.cstride == blk.stride && t.n == blk.npad && (t.init <==> kpos == blk.kbase)
    && (forall q | 0 <= q < |d| ::
          d[q] == if InWindow(t.coff, t.cstride, t.m, t.n, q) then t.Result(d0, o, q) else d0[q])
    && ViewOf(o.a, a, blk.row0 + i, kpos, t.m, ksize) && o.kp >= 0
    && ShiftOf(o.b, b, kpos, blk.col0) && ZeroTail(o.b, ksize, o.kp, blk.npad)
  }

  /** Fetch the activations, run the kernel on the rows of tmpC. */
  method KernelCall(c: Core, matA: array<real>, lda: nat, ghost m: nat, ghost k: nat, tmpA: array<real>,
                    tmpB: array<real>, bstep: int, boff: int, tmpC: array<real>, blk: Block, i: nat, mrem: pos,
                    kpos: nat, ksize: pos, ghost sl: Layout, ghost kloc: nat, ghost a: Matrix, ghost b: Matrix,
                    ghost bv: Matrix)
    returns (ghost t: Tile, ghost o: Operands)
    requires Apart(matA, tmpA, tmpB, tmpC) && OperandA(matA[..], 0, lda, m, k, a)
    requires StepReady(c, k, tmpA.Length, tmpB[..], tmpC.Length, blk, kpos, ksize, sl, kloc, bstep, boff, b, bv)
    requires GroupReady(c, m, tmpC[..], blk, i, mrem, kpos, a, b)
    modifies tmpA, tmpC
    ensures t.m == mrem && o.kp == Depth(c, ksize) && TileStep(tmpC[..], old(tmpC[..]), blk, t, o, a, b, i, kpos, ksize)
  {
    var buf, aoff, astep, av := GetActivation(c, matA, lda, m, k, tmpA, mrem, ksize, blk.row0 + i, kpos, a);
    SubWindow(tmpC.Length, blk.stride, blk.msize, blk.npad, i, 0, mrem, blk.npad);
    var tile := Tile(i * blk.stride, blk.stride, mrem, blk.npad, kpos == blk.kbase);
    t := tile;
    o := Operands(aoff, astep, mrem, sl, kloc, blk.npad, Depth(c, ksize), av, bv);
    Forward(c, buf, aoff, astep, tmpB, boff, bstep, tmpC, tile, ksize, o);
  }

  /** One K step of an MTILE row group. */
  method StepTile(c: Core, matA: array<real>, lda: nat, ghost m: nat, ghost k: nat, tmpA: array<real>,
                  tmpB: array<real>, bstep: int, boff: int, tmpC: array<real>, blk: Block, i: nat, mrem: pos, kpos: nat,
                  ksize: pos, ghost sl: Layout, ghost kloc: nat, ghost a: Matrix, ghost b: Matrix, ghost bv: Matrix)
    requires Apart(matA, tmpA, tmpB, tmpC) && OperandA(matA[..], 0, lda, m, k, a)
    requires StepReady(c, k, tmpA.Length, tmpB[..], tmpC.Length, blk, kpos, ksize, sl, kloc, bstep, boff, b, bv)
    requires GroupReady(c, m, tmpC[..], blk, i, mrem, kpos, a, b)
    modifies tmpA, tmpC
    ensures blk.Rows(tmpC[..], a, b, i, i + mrem, kpos + Depth(c, ksize))
    ensures blk.Untouched(tmpC[..], old(tmpC[..]), i, i + mrem)
  {
    ghost var d0 := tmpC[..];
    ghost var t, o := KernelCall(c, matA, lda, m, k, tmpA, tmpB, bstep, boff, tmpC, blk, i, mrem, kpos, ksize, sl, kloc,
                                 a, b, bv);
    TileAdvanced(tmpC[..], d0, blk, t, o, a, b, i, kpos, ksize);
  }

  lemma TileAdvanced(d: seq<real>, d0: seq<real>, blk: Block, t: Tile, o: Operands, a: Matrix, b: Matrix, i: nat,
                     kpos: nat, ksize: nat)
    requires TileStep(d, d0, blk, t, o, a, b, i, kpos, ksize)
    requires kpos > blk.kbase ==> blk.Rows(d0, a, b, i, i + t.m, kpos)
    ensures blk.Rows(d, a, b, i, i + t.m, kpos + o.kp)
    ensures blk.Untouched(d, d0, i, i + t.m)
  {
    forall q | 0 <= q < |d|
      ensures if InWindow(0, blk.stride, blk.msize, blk.npad, q) && i <= q / blk.stride < i + t.m
              then d[q] == Dot(a, b, blk.row0 + q / blk.stride, blk.col0 + q % blk.stride, blk.kbase, kpos + o.kp)
              else d[q] == d0[q]
    {
      SubCoord(blk.stride, i, 0, t.m, blk.npad, q);
      if InWindow(t.coff, t.cstride, t.m, t.n, q) {
        var r, c := q / blk.stride - i, q % blk.stride;
        WindowPlace(t.coff, t.cstride, t.m, t.n, q);
        StepProduct(a, b, o.a, o.b, blk.row0 + i + r, blk.col0 + c, r, c, blk.row0 + i, blk.kbase, kpos, t.m, ksize,
                    o.kp);
      }
    }
  }

  /** kremain rows of B from kpos, padded to kpadded and stored from row kloc of the scratch copy: what the row loop
      works from. */
  ghost predicate KSlice(p: Param, tmpB: seq<real>, sl: Layout, kloc: nat, bv: Matrix, b: Matrix, blk: Block, kpos: int,
                         kremain: int, kpadded: int) {
    && blk.kbase <= kpos && 0 < kremain && kpos + kremain <= p.k
    && (kpos + kremain == p.k || kremain % p.core.ktile == 0)
    && kpadded == Padto(kremain, p.core.ktile)
    && sl.ntile == p.core.ntile && sl.packRow == p.core.packRow
    && OperandB(tmpB, sl, kloc, blk.npad, kpadded, bv) && ShiftOf(bv, b, kpos, blk.col0)
    && ZeroTail(bv, kremain, kpadded, blk.npad)
  }

  /** The k rows the two kernel calls of a row group cover. */
  lemma KTailSplit(c: Core, kremain: pos)
    ensures var le := PadtoLe(kremain, c.ktile);
            && 0 <= le <= kremain && le % c.ktile == 0
            && (le > 0 ==> Depth(c, le) == le)
            && (le < kremain ==> Depth(c, kremain - le) == c.ktile && le + c.ktile == Depth(c, kremain))
            && (le == kremain ==> Depth(c, kremain) == le)
  {
    PadtoBounds(kremain, c.ktile);
    var le := PadtoLe(kremain, c.ktile);
    PadtoBounds(le, c.ktile);
    if le < kremain {
      PadtoBounds(kremain - le, c.ktile);
      DivUnique(c.ktile, c.ktile, 1, 0);
      var t := Depth(c, kremain - le);
      if t < c.ktile {
        MultiplesApart(t, c.ktile, c.ktile);
      } else if c.ktile < t {
        MultiplesApart(c.ktile, t, c.ktile);
      }
      NextStep(c, kremain, le);
    }
  }

  /** The two kernel calls of a row group are ready: whole steps from bv, the padded tail from tv. */
  ghost predicate Parts(c: Core, k: nat, lenA: int, sb: seq<real>, lenC: int, blk: Block, kpos: nat, le: nat,
                        kremain: nat, sl: Layout, kloc: nat, bstep: int, boff: int, b: Matrix, bv: Matrix,
                        tv: Matrix) {
    && (le > 0 ==> StepReady(c, k, lenA, sb, lenC, blk, kpos, le, sl, kloc, bstep, boff, b, bv))
    && (le < kremain ==>
          StepReady(c, k, lenA, sb, lenC, blk, kpos + le, kremain - le, sl, kloc + le, bstep, boff + le * c.ntile, b,
                    tv))
  }

  /** The rows of bv from `at` on. */
  ghost function From(bv: Matrix, at: int): Matrix {
    (kk: int, j: int) => bv(at + kk, j)
  }

  lemma SliceParts(p: Param, lenA: int, s: seq<real>, lenC: int, sl: Layout, kloc: nat, bstep: int, boff: int,
                   bv: Matrix, b: Matrix, blk: Block, kpos: nat, kremain: pos, kpadded: nat, tv: Matrix)
    requires p.core.Valid() && KSlice(p, s, sl, kloc, bv, b, blk, kpos, kremain, kpadded)
    requires p.core.mtile * kpadded <= lenA && blk.Fits(lenC) && 0 < blk.npad && blk.npad % p.core.ntile == 0
    requires tv == From(bv, PadtoLe(kremain, p.core.ktile))
    requires bstep == sl.kpad && boff == kloc * p.core.ntile
    ensures Parts(p.core, p.k, lenA, s, lenC, blk, kpos, PadtoLe(kremain, p.core.ktile), kremain, sl, kloc, bstep, boff,
                  b, bv, tv)
  {
    var c := p.core;
    var le := PadtoLe(kremain, c.ktile);
    KTailSplit(c, kremain);
    ScratchRoom(c, kremain, lenA);
    if le > 0 {
      WholeSteps(p, s, sl, kloc, bv, b, blk, kpos, kremain, kpadded, le);
    }
    if le < kremain {
      AddTimes(kloc, le, c.ntile);
      TailStep(p, s, sl, kloc, bv, b, blk, kpos, kremain, kpadded, le, tv);
    }
  }

  lemma WholeSteps(p: Param, s: seq<real>, sl: Layout, kloc: nat, bv: Matrix, b: Matrix, blk: Block, kpos: nat,
                   kremain: pos, kpadded: nat, le: pos)
    requires p.core.Valid() && KSlice(p, s, sl, kloc, bv, b, blk, kpos, kremain, kpadded) && le <= kremain
    ensures OperandB(s, sl, kloc, blk.npad, le, bv) && ZeroTail(bv, le, le, blk.npad)
  {
    PadtoBounds(kremain, p.core.ktile);
    OperandBPart(s, sl, kloc, blk.npad, kpadded, bv, 0, le, bv);
  }

  lemma TailStep(p: Param, s: seq<real>, sl: Layout, kloc: nat, bv: Matrix, b: Matrix, blk: Block, kpos: nat,
                 kremain: pos, kpadded: nat, le: nat, tv: Matrix)
    requires p.core.Valid() && KSlice(p, s, sl, kloc, bv, b, blk, kpos, kremain, kpadded)
    requires le == PadtoLe(kremain, p.core.ktile) < kremain && tv == From(bv, le)
    ensures OperandB(s, sl, kloc + le, blk.npad, p.core.ktile, tv) && ShiftOf(tv, b, kpos + le, blk.col0)
    ensures ZeroTail(tv, kremain - le, p.core.ktile, blk.npad)
  {
    var c := p.core;
    KTailSplit(c, kremain);
    MultipleTrans(le, c.ktile, c.packRow);
    MultiplesAdd(kloc, le, c.packRow);
    OperandBPart(s, sl, kloc, blk.npad, kpadded, bv, le, c.ktile, tv);
  }

  lemma ScratchRoom(c: Core, kremain: pos, len: int)
    requires c.mtile * Depth(c, kremain) <= len
    ensures var le := PadtoLe(kremain, c.ktile);
            && (le > 0 ==> c.mtile * Depth(c, le) <= len)
            && (le < kremain ==> c.mtile * Depth(c, kremain - le) <= len)
  {
    KTailSplit(c, kremain);
    MulMono(PadtoLe(kremain, c.ktile), Depth(c, kremain), c.mtile);
    if PadtoLe(kremain, c.ktile) < kremain {
      MulMono(c.ktile, Depth(c, kremain), c.mtile);
    }
  }

  /** The body of the row loop of run_block: whole KTILE steps, then the K tail padded to one step. */
  method RowGroup(c: Core, matA: array<real>, lda: nat, ghost m: nat, ghost k: nat, tmpA: array<real>,
                  tmpB: array<real>, tmpC: array<real>, blk: Block, i: nat, mrem: pos, kpos: nat, kremain: pos,
                  bstep: int, boff: int, ghost sl: Layout, ghost kloc: nat, ghost bv: Matrix, ghost tv: Matrix,
                  ghost a: Matrix, ghost b: Matrix)
    requires Apart(matA, tmpA, tmpB, tmpC) && OperandA(matA[..], 0, lda, m, k, a)
    requires Parts(c, k, tmpA.Length, tmpB[..], tmpC.Length, blk, kpos, PadtoLe(kremain, c.ktile), kremain, sl, kloc,
                   bstep, boff, b, bv, tv)
    requires GroupReady(c, m, tmpC[..], blk, i, mrem, kpos, a, b)
    modifies tmpA, tmpC
    ensures blk.Rows(tmpC[..], a, b, i, i + mrem, kpos + Depth(c, kremain))
    ensures blk.Untouched(tmpC[..], old(tmpC[..]), i, i + mrem)
  {
    var kpaddedle := PadtoLe(kremain, c.ktile);
    KTailSplit(c, kremain);
    if kpaddedle > 0 {
      StepTile(c, matA, lda, m, k, tmpA, tmpB, bstep, boff, tmpC, blk, i, mrem, kpos, kpaddedle, sl, kloc, a, b, bv);
    }
    var ktail := kremain - kpaddedle;
    if ktail > 0 {
      StepTile(c, matA, lda, m, k, tmpA, tmpB, bstep, boff + kpaddedle * c.ntile, tmpC, blk, i, mrem, kpos + kpaddedle,
               ktail, sl, kloc + kpaddedle, a, b, tv);
    }
  }

  /** Rows before i hold the products below `upto`, the others still those below kpos. */
  ghost predicate Between(blk: Block, d: seq<real>, a: Matrix, b: Matrix, i: int, kpos: int, upto: int) {
    && blk.Rows(d, a, b, 0, Min(i, blk.msize), upto)
    && (kpos > blk.kbase ==> blk.Rows(d, a, b, i, blk.msize, kpos))
  }

  lemma GroupAdvanced(blk: Block, d: seq<real>, d0: seq<real>, a: Matrix, b: Matrix, i: nat, i': nat, kpos: int,
                      upto: int)
    requires |d| == |d0| && i < i' && Between(blk, d0, a, b, i, kpos, upto)
    requires blk.Rows(d, a, b, i, Min(i', blk.msize), upto) && blk.Untouched(d, d0, i, Min(i', blk.msize))
    ensures Between(blk, d, a, b, i', kpos, upto)
  {
  }

  lemma NoneAdvanced(blk: Block, d: seq<real>, a: Matrix, b: Matrix, kpos: int, upto: int)
    requires kpos > blk.kbase ==> blk.Rows(d, a, b, 0, blk.msize, kpos)
    ensures Between(blk, d, a, b, 0, kpos, upto)
  {
  }

  /** The row loop: every MTILE group of the block takes the K piece. */
  method RowGroups(p: Param, tmpA: array<real>, tmpB: array<real>, tmpC: array<real>, blk: Block, kpos: nat,
                   kremain: pos, ghost kpadded: nat, bstep: int, boff: int, ghost sl: Layout, ghost kloc: nat,
                   ghost bv: Matrix, ghost a: Matrix, ghost b: Matrix)
    requires Apart(p.matA, tmpA, tmpB, tmpC) && OperandA(p.matA[..], 0, p.lda, p.m, p.k, a)
    requires p.core.Valid() && KSlice(p, tmpB[..], sl, kloc, bv, b, blk, kpos, kremain, kpadded)
    requires bstep == sl.kpad && boff == kloc * p.core.ntile
    requires p.core.mtile * kpadded <= tmpA.Length && blk.row0 + blk.msize <= p.m
    requires blk.Fits(tmpC.Length) && 0 < blk.npad && blk.npad % p.core.ntile == 0
    requires kpos > blk.kbase ==> blk.Rows(tmpC[..], a, b, 0, blk.msize, kpos)
    modifies tmpA, tmpC
    ensures blk.Rows(tmpC[..], a, b, 0, blk.msize, kpos + kpadded)
  {
    ghost var le := PadtoLe(kremain, p.core.ktile);
    ghost var tv := From(bv, le);
    SliceParts(p, tmpA.Length, tmpB[..], tmpC.Length, sl, kloc, bstep, boff, bv, b, blk, kpos, kremain, kpadded, tv);
    NoneAdvanced(blk, tmpC[..], a, b, kpos, kpos + kpadded);
    RowLoop(p.core, p.matA, p.lda, p.m, p.k, tmpA, tmpB, tmpC, blk, kpos, kremain, bstep, boff, sl, kloc, bv, tv, a, b);
  }

  method RowLoop(c: Core, matA: array<real>, lda: nat, ghost m: nat, ghost k: nat, tmpA: array<real>, tmpB: array<real>,
                 tmpC: array<real>, blk: Block, kpos: nat, kremain: pos, bstep: int, boff: int,
                 ghost sl: Layout, ghost kloc: nat, ghost bv: Matrix, ghost tv: Matrix, ghost a: Matrix,
                 ghost b: Matrix)
    requires Apart(matA, tmpA, tmpB, tmpC) && OperandA(matA[..], 0, lda, m, k, a)
    requires Parts(c, k, tmpA.Length, tmpB[..], tmpC.Length, blk, kpos, PadtoLe(kremain, c.ktile), kremain, sl, kloc,
                   bstep, boff, b, bv, tv)
    requires blk.row0 + blk.msize <= m
    requires Between(blk, tmpC[..], a, b, 0, kpos, kpos + Depth(c, kremain))
    modifies tmpA, tmpC
    ensures blk.Rows(tmpC[..], a, b, 0, blk.msize, kpos + Depth(c, kremain))
  {
    var i := 0;
    while i < blk.msize
      invariant 0 <= i && Between(blk, tmpC[..], a, b, i, kpos, kpos + Depth(c, kremain))
    {
      var mrem := RemainSize(i, blk.msize, c.mtile);
      ghost var d0 := tmpC[..];
      RowGroup(c, matA, lda, m, k, tmpA, tmpB, tmpC, blk, i, mrem, kpos, kremain, bstep, boff, sl, kloc, bv, tv, a, b);
      GroupAdvanced(blk, tmpC[..], d0, a, b, i, i + c.mtile, kpos, kpos + Depth(c, kremain));
      i := i + c.mtile;
    }
  }

  /** Rows iterk .. iterk + kremain of B, padded to kpadded: whole tiles unless they are the last. */
  ghost predicate KPiece(p: Param, iterk: int, kremain: int, kpadded: int) {
    && 0 <= iterk && iterk % p.core.ktile == 0 && 0 < kremain && iterk + kremain <= p.k
    && (iterk + kremain == p.k || kremain % p.core.ktile == 0)
    && kpadded == Padto(kremain, p.core.ktile)
  }

  /** The block's columns are whole tiles of the packed buffer. */
  ghost predicate Panel(p: Param, blk: Block) {
    0 < blk.npad && blk.npad % p.core.ntile == 0 && blk.col0 % p.core.ntile == 0 && blk.col0 + blk.npad <= p.L().npad
  }

  /** mProB.getWeight for one K block: the scratch copy holds rows iterk.. of b for the block's columns. */
  method FetchWeight(p: Param, tmpB: array<real>, blk: Block, iterk: nat, kremain: pos, kpadded: pos, ghost a: Matrix,
                     ghost b: Matrix)
    returns (bstep: int, ghost sl: Layout, ghost bv: Matrix)
    requires p.Holds(a, b) && tmpB != p.packed && tmpB != p.matA
    requires KPiece(p, iterk, kremain, kpadded) && Panel(p, blk) && kpadded * blk.npad <= tmpB.Length
    requires blk.kbase <= iterk
    modifies tmpB
    ensures p.Holds(a, b)
    ensures KSlice(p, tmpB[..], sl, 0, bv, b, blk, iterk, kremain, kpadded) && bstep == sl.kpad == kpadded
  {
    SliceAligned(p, blk, iterk, kremain, kpadded);
    ghost var l := p.L();
    sl := SliceLayout(l, kpadded, blk.npad);
    bstep := GetWeight(p.packed, Padto(p.k, p.core.ktile), tmpB, kpadded, blk.npad, iterk, blk.col0, p.core.ntile, l);
    bv := (kk: int, j: int) => b(iterk + kk, blk.col0 + j);
    SliceHolds(p, p.packed[..], tmpB[..], sl, bv, b, blk, iterk, kremain, kpadded);
  }

  lemma SliceAligned(p: Param, blk: Block, iterk: nat, kremain: pos, kpadded: pos)
    requires p.core.Valid() && p.L().Valid() && KPiece(p, iterk, kremain, kpadded) && Panel(p, blk)
    ensures AlignedSlice(p.L(), iterk, blk.col0, kpadded, blk.npad)
  {
    var c := p.core;
    PaddedAxis(iterk, kremain, p.k, c.ktile);
    MultipleTrans(kpadded, c.ktile, c.packRow);
    MultipleTrans(iterk, c.ktile, c.packRow);
  }

  lemma SliceHolds(p: Param, w: seq<real>, d: seq<real>, sl: Layout, bv: Matrix, b: Matrix, blk: Block, iterk: nat,
                   kremain: pos, kpadded: pos)
    requires p.core.Valid() && p.L().Valid() && |w| == p.L().Size()
    requires forall kk, nn | p.L().In(kk, nn) :: p.L().At(w, kk, nn) == b(kk, nn)
    requires p.ZeroBelow(b)
    requires KPiece(p, iterk, kremain, kpadded) && blk.kbase <= iterk
    requires sl == SliceLayout(p.L(), kpadded, blk.npad) && sl.Valid() && |d| >= sl.Size()
    requires forall k, n | sl.In(k, n) ::
               p.L().In(iterk + k, blk.col0 + n) && sl.At(d, k, n) == p.L().At(w, iterk + k, blk.col0 + n)
    requires forall kk, j :: bv(kk, j) == b(iterk + kk, blk.col0 + j)
    ensures KSlice(p, d, sl, 0, bv, b, blk, iterk, kremain, kpadded)
  {
    PadtoBounds(kremain, p.core.ktile);
    DivUnique(0, sl.packRow, 0, 0);
    forall kk, j | 0 <= kk < sl.kpad && 0 <= j < blk.npad
      ensures sl.At(d, 0 + kk, j) == bv(kk, j)
      ensures kk >= kremain ==> bv(kk, j) == 0.0
    {
      assert sl.In(kk, j);
      assert p.L().At(w, iterk + kk, blk.col0 + j) == b(iterk + kk, blk.col0 + j);
    }
  }

  /** How much of K the block holds after the iterations below iterk: all of the padded K once iterk passes K. */
  function Upto(p: Param, iterk: nat): nat {
    if iterk < p.k then iterk else p.L().kpad
  }

  /** A block of C and the scratch buffers it is computed in fit together. */
  ghost predicate BlockReady(p: Param, s: Scratch, blk: Block, block2: int) {
    && Apart(p.matA, s.tmpA, s.tmpB, s.tmpC) && {s.tmpA, s.tmpB, s.tmpC} !! {p.packed}
    && 0 < block2 && (block2 % p.core.ktile == 0 || block2 >= p.k)
    && p.core.mtile * Depth(p.core, block2) <= s.tmpA.Length && Depth(p.core, block2) * blk.npad <= s.tmpB.Length
    && Panel(p, blk)
    && blk.Fits(s.tmpC.Length) && blk.row0 + blk.msize <= p.m
  }

  /** One iteration of the K loop. */
  method KStep(p: Param, s: Scratch, blk: Block, block2: int, iterk: nat, ghost a: Matrix, ghost b: Matrix)
    requires p.Holds(a, b) && BlockReady(p, s, blk, block2)
    requires iterk < p.k && iterk % p.core.ktile == 0 && blk.kbase == 0
    requires iterk > 0 ==> blk.Rows(s.tmpC[..], a, b, 0, blk.msize, iterk)
    modifies s.tmpA, s.tmpB, s.tmpC
    ensures p.Holds(a, b)
    ensures blk.Rows(s.tmpC[..], a, b, 0, blk.msize, Upto(p, iterk + block2))
  {
    var kremain := RemainSize(iterk, p.k, block2);
    var kpadded := Padto(kremain, p.core.ktile);
    KRemainFits(p, iterk, block2, blk.npad, kremain, kpadded);
    var bstep, sl, bv := FetchWeight(p, s.tmpB, blk, iterk, kremain, kpadded, a, b);
    RowGroups(p, s.tmpA, s.tmpB, s.tmpC, blk, iterk, kremain, kpadded, bstep, 0, sl, 0, bv, a, b);
  }

  /** The K loop of run_block: on exit every cell holds its whole product. */
  method KBlocks(p: Param, s: Scratch, blk: Block, block2: int, ghost a: Matrix, ghost b: Matrix)
    requires p.Holds(a, b) && BlockReady(p, s, blk, block2) && blk.kbase == 0
    modifies s.tmpA, s.tmpB, s.tmpC
    ensures p.Holds(a, b)
    ensures blk.Rows(s.tmpC[..], a, b, 0, blk.msize, p.L().kpad)
  {
    var iterk := 0;
    DivUnique(0, p.core.ktile, 0, 0);
    while iterk < p.k
      invariant 0 <= iterk && (iterk < p.k ==> iterk % p.core.ktile == 0) && p.Holds(a, b)
      invariant iterk > 0 ==> blk.Rows(s.tmpC[..], a, b, 0, blk.msize, Upto(p, iterk))
      decreases p.k - iterk
    {
      KStep(p, s, blk, block2, iterk, a, b);
      if block2 % p.core.ktile == 0 {
        MultiplesAdd(iterk, block2, p.core.ktile);
      }
      iterk := iterk + block2;
    }
  }

  lemma KRemainFits(p: Param, iterk: nat, block2: pos, npad: nat, kremain: int, kpadded: int)
    requires iterk < p.k && iterk % p.core.ktile == 0 && (block2 % p.core.ktile == 0 || block2 >= p.k)
    requires kremain == RemainSize(iterk, p.k, block2)
    requires kremain > 0 ==> kpadded == Padto(kremain, p.core.ktile)
    ensures KPiece(p, iterk, kremain, kpadded)
    ensures 0 < kpadded <= Depth(p.core, block2)
    ensures p.core.mtile * kpadded <= p.core.mtile * Depth(p.core, block2)
    ensures kpadded * npad <= Depth(p.core, block2) * npad
    ensures iterk + kpadded == Upto(p, iterk + block2)
  {
    var c := p.core;
    PadtoBounds(kremain, c.ktile);
    PaddedAxis(iterk, kremain, p.k, c.ktile);
    PadtoMono(kremain, block2, c.ktile);
    PadtoBounds(block2, c.ktile);
    MulMono(kpadded, Depth(c, block2), npad);
    MulMono(kpadded, Depth(c, block2), c.mtile);
  }

  lemma PadtoMono(a: nat, b: nat, tile: pos)
    requires a <= b
    ensures Padto(a, tile) <= Padto(b, tile)
  {
    UpdivBounds(b, tile, 0);
    UpdivBounds(a, tile, Updiv(b, tile));
    MulMono(Updiv(a, tile), Updiv(b, tile), tile);
  }

  // ----- run_block and run

  /** How often each element of C has been written. */
  type Hits = (int, int) -> nat

  ghost predicate HitsOnce(h: Hits, row0: int, col0: int, rows: int, cols: int) {
    forall i, j :: h(i, j) == if InSlice(row0, col0, rows, cols, i, j) then 1 else 0
  }

  /** The rectangle of C holds v, the rest of the array is as it was. */
  ghost predicate Written(ldc: pos, d: seq<real>, d0: seq<real>, v: Matrix, row0: int, col0: int, rows: int, cols: int)
  {
    && |d| == |d0|
    && forall q | 0 <= q < |d| ::
         d[q] == if InSlice(row0, col0, rows, cols, q / ldc, q % ldc) then v(q / ldc, q % ldc) else d0[q]
  }

  /** The first nsize columns of the block hold v. */
  ghost predicate BlockHolds(blk: Block, d: seq<real>, nsize: int, v: Matrix) {
    forall q | 0 <= q < |d| && InWindow(0, blk.stride, blk.msize, nsize, q) ::
      d[q] == v(blk.row0 + q / blk.stride, blk.col0 + q % blk.stride)
  }

  /** The stores to the elements of a row-major matrix. */
  ghost function HitsOf(stores: int -> nat, ldc: pos): Hits {
    (i: int, j: int) => if 0 <= i && 0 <= j < ldc then stores(RowMajor(ldc, i, j)) else 0
  }

  lemma HitOnce(stores: int -> nat, ldc: pos, doff: int, blk: Block, nsize: pos, i: int, j: int)
    requires doff == blk.row0 * ldc + blk.col0 && blk.col0 + nsize <= ldc
    requires forall q :: stores(q) == if InWindow(doff, ldc, blk.msize, nsize, q) then 1 else 0
    ensures HitsOf(stores, ldc)(i, j) == if InSlice(blk.row0, blk.col0, blk.msize, nsize, i, j) then 1 else 0
  {
    if 0 <= i && 0 <= j < ldc {
      var q := RowMajor(ldc, i, j);
      MulMono(0, i, ldc);
      DivUnique(q, ldc, i, j);
      SubCoord(ldc, blk.row0, blk.col0, blk.msize, nsize, q);
    }
  }

  /** AccumulatorWriteBack: the real rows and columns of the block go to C, each once. */
  method Epilogue(p: Param, tmpC: array<real>, blk: Block, nsize: pos, ghost v: Matrix) returns (ghost hits: Hits)
    requires p.matC != tmpC && WindowFits(p.matC.Length, 0, p.ldc, p.m, p.n) && p.n <= p.ldc
    requires blk.Fits(tmpC.Length) && nsize <= blk.npad && blk.row0 + blk.msize <= p.m && blk.col0 + nsize <= p.n
    requires BlockHolds(blk, tmpC[..], nsize, v)
    modifies p.matC
    ensures Written(p.ldc, p.matC[..], old(p.matC[..]), v, blk.row0, blk.col0, blk.msize, nsize)
    ensures HitsOnce(hits, blk.row0, blk.col0, blk.msize, nsize)
  {
    ghost var d0 := p.matC[..];
    SubWindow(p.matC.Length, p.ldc, p.m, p.n, blk.row0, blk.col0, blk.msize, nsize);
    SubWindow(tmpC.Length, blk.stride, blk.msize, blk.npad, 0, 0, blk.msize, nsize);
    ghost var doff := blk.row0 * p.ldc + blk.col0;
    ghost var stores := Memcpy2D(tmpC, 0, p.matC, blk.row0 * p.ldc + blk.col0, blk.msize, nsize, blk.stride, p.ldc);
    hits := HitsOf(stores, p.ldc);
    forall i, j
      ensures hits(i, j) == if InSlice(blk.row0, blk.col0, blk.msize, nsize, i, j) then 1 else 0
    {
      HitOnce(stores, p.ldc, doff, blk, nsize, i, j);
    }
    forall q | 0 <= q < p.matC.Length
      ensures p.matC[q] == if InSlice(blk.row0, blk.col0, blk.msize, nsize, q / p.ldc, q % p.ldc)
                           then v(q / p.ldc, q % p.ldc) else d0[q]
    {
      CopiedValue(p.ldc, tmpC[..], p.matC[..], d0, blk, nsize, v, q);
    }
  }

  lemma CopiedValue(ldc: pos, s: seq<real>, d: seq<real>, d0: seq<real>, blk: Block, nsize: pos, v: Matrix, q: nat)
    requires q < |d| == |d0| && blk.Fits(|s|) && nsize <= blk.npad && blk.col0 + nsize <= ldc
    requires BlockHolds(blk, s, nsize, v)
    requires WindowFits(|s|, 0, blk.stride, blk.msize, nsize)
    requires Copied(d, d0, s, 0, blk.row0 * ldc + blk.col0, blk.msize, nsize, blk.stride, ldc, blk.msize, 0)
    ensures d[q] == if InSlice(blk.row0, blk.col0, blk.msize, nsize, q / ldc, q % ldc)
                    then v(q / ldc, q % ldc) else d0[q]
  {
    SubCoord(ldc, blk.row0, blk.col0, blk.msize, nsize, q);
    var doff := blk.row0 * ldc + blk.col0;
    if InWindow(doff, ldc, blk.msize, nsize, q) {
      var r, c := (q - doff) / ldc, (q - doff) % ldc;
      WindowPlace(doff, ldc, blk.msize, nsize, q);
      WindowCoord(0, blk.stride, blk.msize, nsize, r, c);
      WindowIndex(|s|, 0, blk.stride, blk.msize, nsize, r, c);
      assert s[0 + RowMajor(blk.stride, r, c)] == v(blk.row0 + r, blk.col0 + c);
    }
  }

  /** The product of a and b over the whole K. */
  ghost function ProductOf(a: Matrix, b: Matrix, k: int): Matrix {
    (i: int, j: int) => Dot(a, b, i, j, 0, k)
  }

  /** The padding rows of B add nothing. */
  lemma WholeK(p: Param, a: Matrix, b: Matrix, i: int, j: int)
    requires p.ZeroBelow(b) && 0 <= j < p.n
    ensures Dot(a, b, i, j, 0, p.L().kpad) == Dot(a, b, i, j, 0, p.k)
  {
    PadtoBounds(p.k, p.core.ktile);
    PadtoBounds(p.n, p.core.ntile);
    DotSplit(a, b, i, j, 0, p.k, p.L().kpad);
    DotZero(a, b, i, j, p.k, p.L().kpad);
  }

  lemma RowsAreProduct(p: Param, d: seq<real>, blk: Block, nsize: nat, a: Matrix, b: Matrix)
    requires p.ZeroBelow(b) && nsize <= blk.npad && blk.col0 + nsize <= p.n && blk.kbase == 0
    requires blk.Rows(d, a, b, 0, blk.msize, p.L().kpad)
    ensures BlockHolds(blk, d, nsize, ProductOf(a, b, p.k))
  {
    forall q | 0 <= q < |d| && InWindow(0, blk.stride, blk.msize, nsize, q)
      ensures d[q] == Dot(a, b, blk.row0 + q / blk.stride, blk.col0 + q % blk.stride, 0, p.k)
    {
      WindowPlace(0, blk.stride, blk.msize, nsize, q);
      WholeK(p, a, b, blk.row0 + q / blk.stride, blk.col0 + q % blk.stride);
    }
  }

  /** run_block: one block0 x block1 block of the thread's rectangle. */
  method RunBlock(p: Param, cfg: Config, s: Scratch, blkM: nat, blkN: nat, msize: pos, nsize: pos,
                  ghost a: Matrix, ghost b: Matrix) returns (ghost hits: Hits)
    requires p.Holds(a, b) && p.Separate() && cfg.Valid(p) && s.Fits(p, cfg)
    requires blkM + msize <= cfg.size.d0 && msize <= cfg.block.d0
    requires blkN + nsize <= cfg.size.d1 && nsize <= cfg.block.d1 && blkN % p.core.ntile == 0
    requires blkN + nsize == cfg.size.d1 || nsize % p.core.ntile == 0
    modifies s.tmpA, s.tmpB, s.tmpC, p.matC
    ensures p.Holds(a, b)
    ensures Written(p.ldc, p.matC[..], old(p.matC[..]), ProductOf(a, b, p.k), cfg.loc.d0 + blkM, cfg.loc.d1 + blkN,
                    msize, nsize)
    ensures HitsOnce(hits, cfg.loc.d0 + blkM, cfg.loc.d1 + blkN, msize, nsize)
  {
    var npadded := Padto(nsize, p.core.ntile);
    var blk := Block(cfg.loc.d0 + blkM, cfg.loc.d1 + blkN, msize, npadded, cfg.block.d1, 0);
    BlockFits(p, cfg, s, blkM, blkN, msize, nsize, npadded, 0);
    KBlocks(p, s, blk, cfg.block.d2, a, b);
    RowsAreProduct(p, s.tmpC[..], blk, nsize, a, b);
    hits := Epilogue(p, s.tmpC, blk, nsize, ProductOf(a, b, p.k));
  }

  lemma BlockFits(p: Param, cfg: Config, s: Scratch, blkM: nat, blkN: nat, msize: pos, nsize: pos, npadded: int,
                  kbase: nat)
    requires cfg.Valid(p) && s.Fits(p, cfg) && npadded == Padto(nsize, p.core.ntile)
    requires blkM + msize <= cfg.size.d0 && msize <= cfg.block.d0
    requires blkN + nsize <= cfg.size.d1 && nsize <= cfg.block.d1 && blkN % p.core.ntile == 0
    requires blkN + nsize == cfg.size.d1 || nsize % p.core.ntile == 0
    ensures npadded >= nsize
    ensures BlockReady(p, s, Block(cfg.loc.d0 + blkM, cfg.loc.d1 + blkN, msize, npadded, cfg.block.d1, kbase),
                       cfg.block.d2)
  {
    var nt := p.core.ntile;
    PadtoBounds(nsize, nt);
    MultiplesAdd(cfg.loc.d1, blkN, nt);
    if blkN + nsize == cfg.size.d1 && cfg.size.d1 % nt == 0 {
      MultiplesAdd(cfg.size.d1, blkN, nt);
    }
    PaddedAxis(cfg.loc.d1 + blkN, nsize, p.n, nt);
    if npadded > cfg.block.d1 {
      MultiplesApart(cfg.block.d1, npadded, nt);
    }
    PadtoBounds(cfg.block.d2, p.core.ktile);
    MulMono(npadded, cfg.block.d1, Depth(p.core, cfg.block.d2));
    RowMajorBounds(cfg.block.d1, cfg.block.d0, msize - 1, npadded - 1);
  }

  /** The inner loop of run: the row blocks of one column block. */
  method RunColumn(p: Param, cfg: Config, s: Scratch, itern: nat, nremain: pos, ghost a: Matrix, ghost b: Matrix)
    returns (ghost hits: Hits)
    requires p.Holds(a, b) && p.Separate() && cfg.Valid(p) && s.Fits(p, cfg)
    requires itern + nremain <= cfg.size.d1 && nremain <= cfg.block.d1 && itern % p.core.ntile == 0
    requires itern + nremain == cfg.size.d1 || nremain % p.core.ntile == 0
    modifies s.tmpA, s.tmpB, s.tmpC, p.matC
    ensures p.Holds(a, b)
    ensures Written(p.ldc, p.matC[..], old(p.matC[..]), ProductOf(a, b, p.k), cfg.loc.d0, cfg.loc.d1 + itern,
                    cfg.size.d0, nremain)
    ensures HitsOnce(hits, cfg.loc.d0, cfg.loc.d1 + itern, cfg.size.d0, nremain)
  {
    ghost var d0 := p.matC[..];
    hits := (i, j) => 0;
    var iterm := 0;
    while iterm < cfg.size.d0
      invariant 0 <= iterm && p.Holds(a, b)
      invariant Written(p.ldc, p.matC[..], d0, ProductOf(a, b, p.k), cfg.loc.d0, cfg.loc.d1 + itern,
                        Min(iterm, cfg.size.d0), nremain)
      invariant HitsOnce(hits, cfg.loc.d0, cfg.loc.d1 + itern, Min(iterm, cfg.size.d0), nremain)
    {
      var mremain := RemainSize(iterm, cfg.size.d0, cfg.block.d0);
      ghost var h, before := hits, p.matC[..];
      ghost var w := RunBlock(p, cfg, s, iterm, itern, mremain, nremain, a, b);
      hits := (i, j) => h(i, j) + w(i, j);
      iterm := iterm + cfg.block.d0;
    }
  }

  /** LauncherBase::run: the thread's rectangle of C becomes the product, every element written once. */
  method Run(p: Param, cfg: Config, s: Scratch, ghost a: Matrix, ghost b: Matrix) returns (ghost hits: Hits)
    requires p.Holds(a, b) && p.Separate() && cfg.Valid(p) && s.Fits(p, cfg)
    modifies s.tmpA, s.tmpB, s.tmpC, p.matC
    ensures p.Holds(a, b)
    ensures Written(p.ldc, p.matC[..], old(p.matC[..]), ProductOf(a, b, p.k), cfg.loc.d0, cfg.loc.d1, cfg.size.d0,
                    cfg.size.d1)
    ensures HitsOnce(hits, cfg.loc.d0, cfg.loc.d1, cfg.size.d0, cfg.size.d1)
  {
    ghost var d0 := p.matC[..];
    hits := (i, j) => 0;
    var itern := 0;
    DivUnique(0, p.core.ntile, 0, 0);
    while itern < cfg.size.d1
      invariant 0 <= itern && itern % p.core.ntile == 0 && p.Holds(a, b)
      invariant Written(p.ldc, p.matC[..], d0, ProductOf(a, b, p.k), cfg.loc.d0, cfg.loc.d1, cfg.size.d0,
                        Min(itern, cfg.size.d1))
      invariant HitsOnce(hits, cfg.loc.d0, cfg.loc.d1, cfg.size.d0, Min(itern, cfg.size.d1))
    {
      var nremain := RemainSize(itern, cfg.size.d1, cfg.block.d1);
      ghost var h := hits;
      ghost var w := RunColumn(p, cfg, s, itern, nremain, a, b);
      hits := (i, j) => h(i, j) + w(i, j);
      MultiplesAdd(itern, cfg.block.d1, p.core.ntile);
      itern := itern + cfg.block.d1;
    }
  }
}
