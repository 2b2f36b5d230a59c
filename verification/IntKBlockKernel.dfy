/** The kblock kernels of bestla_gemm.h: integer products summed one K block at a time, each sum scaled into a float
    accumulator and corrected for the activations' zero point. */
module IntKBlockKernel {
  import opened Utils
  import opened Layouts
  import opened GemmCore
  import opened DotProducts
  import opened WeightPacking
  import opened GemmKernel

  /** An element of a row-major cache. */
  function Cell(s: seq<real>, ld: int, r: int, c: int): real {
    BufferAt(s, 0, ld, r, c)
  }

  /** One scaled block sum added; one zero-point share taken off. */
  function AddBlock(x: real, sum: real, sa: real, sb: real): real {
    x + sum * (sa * sb)
  }

  function TakeZp(x: real, za: real, sa: real, kscale: real, rb: real): real {
    x - za * sa * kscale * rb
  }

  /** The kernel's extra parameters: scales and zero points of A by row and block, scales and sums of B by block and
      column, and the share of a block's correction one call takes. */
  datatype Corrections = Corrections(asym: bool, zpA: seq<real>, scaleA: seq<real>, ldsa: nat, scaleB: seq<real>,
                                     reduceB: seq<real>, ldsb: nat, kscale: real)
  {
    ghost predicate Fits(m: nat, n: nat, blocks: nat) {
      && WindowFits(|scaleA|, 0, ldsa, m, blocks) && (asym ==> WindowFits(|zpA|, 0, ldsa, m, blocks))
      && WindowFits(|scaleB|, 0, ldsb, blocks, n) && WindowFits(|reduceB|, 0, ldsb, blocks, n)
    }

    function Apply(x: real, sum: real, r: int, col: int, kb: int): real {
      var y := AddBlock(x, sum, Cell(scaleA, ldsa, r, kb), Cell(scaleB, ldsb, kb, col));
      if asym then
        TakeZp(y, Cell(zpA, ldsa, r, kb), Cell(scaleA, ldsa, r, kb), kscale, Cell(reduceB, ldsb, kb, col))
      else y
    }
  }

  /** The code rows `blocks` K blocks take. */
  function BlockRows(blocks: nat, kblock: pos): nat {
    if blocks == 0 then 0 else BlockRows(blocks - 1, kblock) + kblock
  }

  lemma {:induction false} BlockRowsAre(blocks: nat, kblock: pos)
    ensures BlockRows(blocks, kblock) == blocks * kblock
  {
    if blocks > 0 {
      BlockRowsAre(blocks - 1, kblock);
      assert blocks * kblock == (blocks - 1) * kblock + kblock;
    }
  }

  /** The float accumulator of element (r, col) after `blocks` K blocks, started from v. */
  ghost function BlockSums(o: Operands, cor: Corrections, kblock: pos, v: Matrix, r: int, col: int, blocks: nat): real {
    if blocks == 0 then v(r, col)
    else cor.Apply(BlockSums(o, cor, kblock, v, r, col, blocks - 1),
                   Dot(o.a, o.b, r, col, BlockRows(blocks - 1, kblock), BlockRows(blocks, kblock)), r, col, blocks - 1)
  }

  ghost predicate Held(cf32: array2<real>, o: Operands, cor: Corrections, kblock: pos, v: Matrix, itern: int,
                       blocks: nat)
    reads cf32
  {
    forall r, j | 0 <= r < cf32.Length0 && 0 <= j < cf32.Length1 ::
      cf32[r, j] == BlockSums(o, cor, kblock, v, r, itern + j, blocks)
  }

  /** The block sums are in the integer accumulators. */
  ghost predicate Summed(acc: array2<real>, o: Operands, itern: int, lo: int, hi: int)
    reads acc
  {
    forall r, j | 0 <= r < acc.Length0 && 0 <= j < acc.Length1 :: acc[r, j] == Dot(o.a, o.b, r, itern + j, lo, hi)
  }

  ghost function ZeroMatrix(): Matrix {
    (r: int, c: int) => 0.0
  }

  method ZeroRegs(acc: array2<real>)
    modifies acc
    ensures forall r, j | 0 <= r < acc.Length0 && 0 <= j < acc.Length1 :: acc[r, j] == 0.0
  {
    for i := 0 to acc.Length0
      invariant forall r, j | 0 <= r < i && 0 <= j < acc.Length1 :: acc[r, j] == 0.0
    {
      for j := 0 to acc.Length1
        invariant forall r, j' | 0 <= r < acc.Length0 && 0 <= j' < acc.Length1 && (r < i || (r == i && j' < j)) ::
            acc[r, j'] == 0.0
      {
        acc[i, j] := 0.0;
      }
    }
  }

  /** The operands of the K block at kpos. */
  ghost function BlockOperands(o: Operands, kpos: int, kblock: int): Operands {
    Operands(o.aoff + kpos, o.astride, o.m, o.l, o.k0 + kpos, o.n, kblock,
             (r: int, k: int) => o.a(r, kpos + k), (k: int, j: int) => o.b(kpos + k, j))
  }

  lemma BlockLoaded(c: Core, o: Operands, sa: seq<real>, sb: seq<real>, kpos: nat, kblock: pos)
    requires o.Loaded(c, sa, sb) && kpos + kblock <= o.kp && kpos % c.packRow == 0
    ensures BlockOperands(o, kpos, kblock).Loaded(c, sa, sb)
  {
    var p := BlockOperands(o, kpos, kblock);
    MultiplesAdd(o.k0, kpos, c.packRow);
    OperandAPart(sa, o.aoff, o.astride, o.m, o.kp, o.a, kpos, kblock, p.a);
    OperandBPart(sb, o.l, o.k0, o.n, o.kp, o.b, kpos, kblock, p.b);
  }

  lemma BlockDot(o: Operands, p: Operands, kpos: nat, kblock: nat, itern: int, r: int, j: int)
    requires p == BlockOperands(o, kpos, kblock)
    ensures p.Value(ZeroMatrix(), itern, r, j, kblock) == Dot(o.a, o.b, r, itern + j, kpos, kpos + kblock)
  {
    DotShift(o.a, o.b, r, itern + j, p.a, p.b, r, itern + j, kpos, kblock);
  }

  /** The inner loop of generate_kloop: the accumulators are cleared and take the K block at kpos. */
  method SumBlock(c: Core, acc: array2<real>, matA: array<real>, aptr: int, astride: int, matB: array<real>, bptr: int,
                  kblock: pos, ghost o: Operands, ghost itern: int, ghost bbase: int, ghost kpos: nat)
    requires o.Loaded(c, matA[..], matB[..]) && o.Strip(c, itern, bbase) && kblock % c.ktile == 0 && kpos % c.ktile == 0
    requires kpos + kblock <= o.kp && acc.Length0 == o.m && acc.Length1 == c.ntile
    requires astride == o.astride && aptr == o.aoff + kpos && bptr == bbase + kpos * c.ntile
    modifies acc
    ensures Summed(acc, o, itern, kpos, kpos + kblock)
  {
    ZeroRegs(acc);
    MultipleTrans(kpos, c.ktile, c.packRow);
    BlockLoaded(c, o, matA[..], matB[..], kpos, kblock);
    ghost var p := BlockOperands(o, kpos, kblock);
    PadtoBounds(kblock, c.ktile);
    BlockStrip(c, o, itern, bbase, kpos, kblock);
    StartZero(acc, p, itern);
    KLoop(c, acc, matA, aptr, astride, matB, bptr, kblock, p, ZeroMatrix(), itern);
    assert Accumulated(acc, p, ZeroMatrix(), itern, kblock);
    forall r, j | 0 <= r < acc.Length0 && 0 <= j < acc.Length1
      ensures acc[r, j] == Dot(o.a, o.b, r, itern + j, kpos, kpos + kblock)
    {
      BlockDot(o, p, kpos, kblock, itern, r, j);
    }
  }

  lemma StartZero(acc: array2<real>, p: Operands, itern: int)
    requires forall r, j | 0 <= r < acc.Length0 && 0 <= j < acc.Length1 :: acc[r, j] == 0.0
    ensures Accumulated(acc, p, ZeroMatrix(), itern, 0)
  {
  }

  lemma BlockStrip(c: Core, o: Operands, itern: int, bbase: int, kpos: nat, kblock: pos)
    requires o.Strip(c, itern, bbase)
    ensures BlockOperands(o, kpos, kblock).Strip(c, itern, bbase + kpos * c.ntile)
  {
    assert (o.k0 + kpos) * c.ntile == o.k0 * c.ntile + kpos * c.ntile;
  }

  /** generate_f32_accumulate. */
  method F32Accumulate(acc: array2<real>, cf32: array2<real>, cor: Corrections, itern: nat, kb: nat, ghost blocks: nat,
                       ghost n: nat)
    requires acc != cf32 && acc.Length0 == cf32.Length0 && acc.Length1 == cf32.Length1
    requires cor.Fits(acc.Length0, n, blocks) && kb < blocks && itern + acc.Length1 <= n
    modifies cf32
    ensures forall r, j | 0 <= r < cf32.Length0 && 0 <= j < cf32.Length1 ::
              cf32[r, j] == AddBlock(old(cf32[r, j]), acc[r, j], Cell(cor.scaleA, cor.ldsa, r, kb),
                                     Cell(cor.scaleB, cor.ldsb, kb, itern + j))
  {
    for r := 0 to cf32.Length0
      invariant forall r', j | 0 <= r' < cf32.Length0 && 0 <= j < cf32.Length1 ::
          cf32[r', j] == if r' < r
          then AddBlock(old(cf32[r', j]), acc[r', j], Cell(cor.scaleA, cor.ldsa, r', kb),
                        Cell(cor.scaleB, cor.ldsb, kb, itern + j))
          else old(cf32[r', j])
    {
      WindowIndex(|cor.scaleA|, 0, cor.ldsa, acc.Length0, blocks, r, kb);
      var sa := cor.scaleA[r * cor.ldsa + kb];
      assert sa == Cell(cor.scaleA, cor.ldsa, r, kb);
      for j := 0 to cf32.Length1
        invariant forall r', j' | 0 <= r' < cf32.Length0 && 0 <= j' < cf32.Length1 ::
            cf32[r', j'] == if r' < r || (r' == r && j' < j)
            then AddBlock(old(cf32[r', j']), acc[r', j'], Cell(cor.scaleA, cor.ldsa, r', kb),
                          Cell(cor.scaleB, cor.ldsb, kb, itern + j'))
            else old(cf32[r', j'])
      {
        WindowIndex(|cor.scaleB|, 0, cor.ldsb, blocks, n, kb, itern + j);
        var sb := cor.scaleB[kb * cor.ldsb + (itern + j)];
        assert sb == Cell(cor.scaleB, cor.ldsb, kb, itern + j);
        cf32[r, j] := AddBlock(cf32[r, j], acc[r, j], sa, sb);
      }
    }
  }

  /** generate_zp_correction, for a kernel call that was given zero points. */
  method ZpCorrection(cf32: array2<real>, cor: Corrections, itern: nat, kb: nat, ghost blocks: nat, ghost n: nat)
    requires cor.asym && cor.Fits(cf32.Length0, n, blocks) && kb < blocks && itern + cf32.Length1 <= n
    modifies cf32
    ensures forall r, j | 0 <= r < cf32.Length0 && 0 <= j < cf32.Length1 ::
              cf32[r, j] == TakeZp(old(cf32[r, j]), Cell(cor.zpA, cor.ldsa, r, kb), Cell(cor.scaleA, cor.ldsa, r, kb),
                                   cor.kscale, Cell(cor.reduceB, cor.ldsb, kb, itern + j))
  {
    for r := 0 to cf32.Length0
      invariant forall r', j | 0 <= r' < cf32.Length0 && 0 <= j < cf32.Length1 ::
          cf32[r', j] == if r' < r
          then TakeZp(old(cf32[r', j]), Cell(cor.zpA, cor.ldsa, r', kb), Cell(cor.scaleA, cor.ldsa, r', kb), cor.kscale,
                      Cell(cor.reduceB, cor.ldsb, kb, itern + j))
          else old(cf32[r', j])
    {
      WindowIndex(|cor.scaleA|, 0, cor.ldsa, cf32.Length0, blocks, r, kb);
      WindowIndex(|cor.zpA|, 0, cor.ldsa, cf32.Length0, blocks, r, kb);
      var za, sa := cor.zpA[r * cor.ldsa + kb], cor.scaleA[r * cor.ldsa + kb];
      assert za == Cell(cor.zpA, cor.ldsa, r, kb) && sa == Cell(cor.scaleA, cor.ldsa, r, kb);
      for j := 0 to cf32.Length1
        invariant forall r', j' | 0 <= r' < cf32.Length0 && 0 <= j' < cf32.Length1 ::
            cf32[r', j'] == if r' < r || (r' == r && j' < j)
            then TakeZp(old(cf32[r', j']), Cell(cor.zpA, cor.ldsa, r', kb), Cell(cor.scaleA, cor.ldsa, r', kb),
                        cor.kscale, Cell(cor.reduceB, cor.ldsb, kb, itern + j'))
            else old(cf32[r', j'])
      {
        WindowIndex(|cor.reduceB|, 0, cor.ldsb, blocks, n, kb, itern + j);
        var rb := cor.reduceB[kb * cor.ldsb + (itern + j)];
        assert rb == Cell(cor.reduceB, cor.ldsb, kb, itern + j);
        cf32[r, j] := TakeZp(cf32[r, j], za, sa, cor.kscale, rb);
      }
    }
  }

  /** One turn of generate_kloop: K block kb goes into the float accumulators. */
  method KBlockStep(c: Core, acc: array2<real>, cf32: array2<real>, matA: array<real>, aptr: int, astride: int,
                    matB: array<real>, bptr: int, kblock: pos, cor: Corrections, kb: nat, ghost o: Operands,
                    ghost v: Matrix, itern: nat, ghost bbase: int, ghost kpos: nat, ghost blocks: nat)
    requires o.Loaded(c, matA[..], matB[..]) && o.Strip(c, itern, bbase) && kblock % c.ktile == 0 && kpos % c.ktile == 0
    requires kpos == BlockRows(kb, kblock) && kpos + kblock <= o.kp
    requires acc != cf32 && acc.Length0 == cf32.Length0 == o.m && acc.Length1 == cf32.Length1 == c.ntile
    requires astride == o.astride && aptr == o.aoff + kpos && bptr == bbase + kpos * c.ntile
    requires cor.Fits(o.m, o.n, blocks) && kb < blocks
    requires Held(cf32, o, cor, kblock, v, itern, kb)
    modifies acc, cf32
    ensures Held(cf32, o, cor, kblock, v, itern, kb + 1)
  {
    SumBlock(c, acc, matA, aptr, astride, matB, bptr, kblock, o, itern, bbase, kpos);
    F32Accumulate(acc, cf32, cor, itern, kb, blocks, o.n);
    if cor.asym {
      ZpCorrection(cf32, cor, itern, kb, blocks, o.n);
    }
  }

  /** The K block at iterk is a whole one, and the next one starts on a kernel step again. */
  lemma BlockRoom(c: Core, k: pos, kblock: pos, iterk: nat, kb: nat)
    requires k % kblock == 0 && kblock % c.ktile == 0 && iterk == BlockRows(kb, kblock) < k
    ensures iterk % c.ktile == 0 && iterk + kblock <= k && kb < k / kblock
    ensures (iterk + kblock < k) <==> (kb + 1 < k / kblock)
  {
    BlockRowsAre(kb, kblock);
    MultipleTimes(kblock, kb, c.ktile);
    ModOfMultiple(kb, kblock);
    MultiplesApart(iterk, k, kblock);
    DivMod(k, kblock);
    MulCancel(kb, k / kblock, kblock);
    assert (kb + 1) * kblock == iterk + kblock;
    if iterk + kblock < k {
      MulCancel(kb + 1, k / kblock, kblock);
    } else if kb + 1 < k / kblock {
      MulMono(kb + 2, k / kblock, kblock);
    }
  }

  /** generate_kloop: it tests after each K block. */
  method KBlockLoop(c: Core, acc: array2<real>, cf32: array2<real>, matA: array<real>, aoff: int, astride: int,
                    matB: array<real>, bptr: int, k: pos, kblock: pos, cor: Corrections, ghost o: Operands,
                    ghost v: Matrix, itern: nat)
    requires o.Loaded(c, matA[..], matB[..]) && o.Strip(c, itern, bptr) && o.kp == k
    requires 0 <= o.m && 0 <= o.n && k % kblock == 0 && kblock % c.ktile == 0 && cor.Fits(o.m, o.n, k / kblock)
    requires acc != cf32 && acc.Length0 == cf32.Length0 == o.m && acc.Length1 == cf32.Length1 == c.ntile
    requires aoff == o.aoff && astride == o.astride
    requires Held(cf32, o, cor, kblock, v, itern, 0)
    modifies acc, cf32
    ensures Held(cf32, o, cor, kblock, v, itern, k / kblock)
  {
    var iterk, iterkb := 0, 0;
    var aptr, b := aoff, bptr;
    var more := true;
    while more
      invariant 0 <= iterkb && iterk == BlockRows(iterkb, kblock)
      invariant aptr == aoff + iterk && b == bptr + iterk * c.ntile
      invariant if more then iterk < k else iterkb == k / kblock
      invariant Held(cf32, o, cor, kblock, v, itern, iterkb)
      decreases k - iterk, more
    {
      BlockRoom(c, k, kblock, iterk, iterkb);
      KBlockStep(c, acc, cf32, matA, aptr, astride, matB, b, kblock, cor, iterkb, o, v, itern, bptr, iterk, k / kblock);
      assert (iterk + kblock) * c.ntile == iterk * c.ntile + kblock * c.ntile;
      aptr, b := aptr + kblock, b + kblock * c.ntile;
      iterk := iterk + kblock;
      iterkb := iterkb + 1;
      more := iterk < k;
    }
  }

  /** What the tile starts from, by row and column. */
  ghost function StartMatrix(t: Tile, c0: seq<real>): Matrix
    requires t.Fits(|c0|)
  {
    (r: int, col: int) => t.StartValue(c0, r, col)
  }

  ghost function TileSums(t: Tile, c0: seq<real>, o: Operands, cor: Corrections, kblock: pos, blocks: nat): Matrix
    requires t.Fits(|c0|)
  {
    (r: int, col: int) => BlockSums(o, cor, kblock, StartMatrix(t, c0), r, col, blocks)
  }

  /** The kernel: the tile takes the scaled and corrected sums of its K blocks, starting from zero on the first K step.
    */
  method ForwardKBlock(c: Core, matA: array<real>, aoff: int, astride: int, matB: array<real>, boff: int, bstride: int,
                       matC: array<real>, t: Tile, cor: Corrections, k: pos, kblock: pos, ghost o: Operands)
    requires matC != matA && matC != matB
    requires o.Loaded(c, matA[..], matB[..]) && o.kp == k && o.m == t.m && o.n == t.n
    requires k % kblock == 0 && kblock % c.ktile == 0 && cor.Fits(o.m, o.n, k / kblock)
    requires aoff == o.aoff && astride == o.astride && bstride == o.l.kpad && boff == o.k0 * c.ntile
    requires 0 < t.n && t.n % c.ntile == 0 && t.Fits(matC.Length)
    modifies matC
    ensures forall q | 0 <= q < matC.Length ::
              matC[q] == if InWindow(t.coff, t.cstride, t.m, t.n, q)
              then BlockSums(o, cor, kblock, StartMatrix(t, old(matC[..])), (q - t.coff) / t.cstride,
                             (q - t.coff) % t.cstride, k / kblock)
              else old(matC[q])
  {
    ghost var c0 := matC[..];
    ghost var res := TileSums(t, c0, o, cor, kblock, k / kblock);
    var itern := 0;
    var more := true;
    while more
      invariant 0 <= itern <= t.n && itern % c.ntile == 0
      invariant more <==> itern < t.n
      invariant t.Stored(matC[..], c0, res, itern, 0, 0, 0)
      decreases t.n - itern
    {
      MultiplesApart(itern, t.n, c.ntile);
      KBlockStrip(c, matA, aoff, astride, matB, boff + bstride * itern, matC, t, cor, k, kblock, itern, o, c0, res);
      DivUnique(c.ntile, c.ntile, 1, 0);
      MultiplesAdd(itern, c.ntile, c.ntile);
      itern := itern + c.ntile;
      more := itern < t.n;
    }
  }

  /** One NTILE strip of the tile. */
  method KBlockStrip(c: Core, matA: array<real>, aoff: int, astride: int, matB: array<real>, bptr: int,
                     matC: array<real>, t: Tile, cor: Corrections, k: pos, kblock: pos, itern: nat, ghost o: Operands,
                     ghost c0: seq<real>, ghost res: Matrix)
    requires matC != matA && matC != matB
    requires o.Loaded(c, matA[..], matB[..]) && o.Strip(c, itern, bptr) && o.kp == k && o.m == t.m && o.n == t.n
    requires k % kblock == 0 && kblock % c.ktile == 0 && cor.Fits(t.m, t.n, k / kblock)
    requires aoff == o.aoff && astride == o.astride && t.Fits(matC.Length)
    requires matC.Length == |c0| && res == TileSums(t, c0, o, cor, kblock, k / kblock)
    requires t.Stored(matC[..], c0, res, itern, 0, 0, 0)
    modifies matC
    ensures t.Stored(matC[..], c0, res, itern + c.ntile, 0, 0, 0)
  {
    var acc, cf32 := new real[t.m, c.ntile], new real[t.m, c.ntile];
    InitRegs(c, cf32, matC, t, itern, c0);
    KBlockLoop(c, acc, cf32, matA, aoff, astride, matB, bptr, k, kblock, cor, o, StartMatrix(t, c0), itern);
    StripStart(t, matC[..], c0, res, itern, c.ntile);
    WriteBack(c, cf32, matC, t, itern, res, c0);
    StripEnd(t, matC[..], c0, res, itern, c.ntile);
  }
}
