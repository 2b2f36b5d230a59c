/** LauncherIntKBlock of bestla_wrapper.h: products of quantised activations and quantised weights, brought back to
    real numbers block by block, with K blocks that are shorter or longer than a K step. */
module IntKBlockLauncher {
  import opened Utils
  import opened Layouts
  import opened GemmCore
  import opened DotProducts
  import opened WeightPacking
  import opened Scheduling
  import opened GemmScheduling
  import opened GemmKernel
  import opened GemmLauncher
  import opened IntKBlockKernel

  /** Block-wise quantisation of A (scales, optional zero points) and of B (scales, sums of dequantised weights). */
  datatype IntQuant = IntQuant(kblock: pos, asym: bool, zpA: seq<real>, scaleA: seq<real>, cstepA: nat,
                               scaleB: seq<real>, reduceB: seq<real>, cstepB: nat)
  {
    function Blocks(p: Param): nat {
      Updiv(p.k, kblock)
    }

    function Sa(i: int, kb: int): real {
      Cell(scaleA, cstepA, i, kb)
    }

    function Za(i: int, kb: int): real {
      if asym then Cell(zpA, cstepA, i, kb) else 0.0
    }

    function Sb(kb: int, j: int): real {
      Cell(scaleB, cstepB, kb, j)
    }

    function Rb(kb: int, j: int): real {
      Cell(reduceB, cstepB, kb, j)
    }

    ghost predicate Sized(p: Param) {
      && WindowFits(|scaleA|, 0, cstepA, p.m, Blocks(p)) && (asym ==> WindowFits(|zpA|, 0, cstepA, p.m, Blocks(p)))
      && WindowFits(|scaleB|, 0, cstepB, Blocks(p), p.L().npad)
      && WindowFits(|reduceB|, 0, cstepB, Blocks(p), p.L().npad)
    }

    predicate CodeA(qa: Matrix, da: Matrix, i: int, k: int) {
      da(i, k) == Dequant(qa(i, k), Sa(i, k / kblock), Za(i, k / kblock))
    }

    predicate CodeB(qb: Matrix, dw: Matrix, k: int, j: int) {
      dw(k, j) == Dequant(qb(k, j), Sb(k / kblock, j), 0.0)
    }

    /** da and dw are the real matrices the codes qa and qb stand for. */
    ghost predicate Codes(p: Param, qa: Matrix, qb: Matrix, da: Matrix, dw: Matrix) {
      Sized(p) && (forall i, k :: CodeA(qa, da, i, k)) && (forall k, j :: CodeB(qb, dw, k, j))
    }

    /** ... and reduceB holds the block sums of dw. */
    ghost predicate Holds(p: Param, qa: Matrix, qb: Matrix, da: Matrix, dw: Matrix) {
      && Codes(p, qa, qb, da, dw)
      && (asym ==> forall kb, j | 0 <= kb < Blocks(p) && 0 <= j < p.n ::
              Rb(kb, j) == ColSum(dw, j, kb * kblock, kb * kblock + kblock))
    }
  }

  /** A K block of which share w has been added to base: code product d, and share w of the zero point's correction. */
  function Partly(base: real, sa: real, sb: real, d: real, za: real, w: real, rb: real): real {
    base + sa * sb * d - za * sa * w * rb
  }

  lemma PartlyMore(base: real, sa: real, sb: real, d: real, d': real, za: real, w: real, w': real, rb: real)
    ensures TakeZp(AddBlock(Partly(base, sa, sb, d, za, w, rb), d', sa, sb), za, sa, w', rb)
         == Partly(base, sa, sb, d + d', za, w + w', rb)
  {
    assert sa * sb * (d + d') == sa * sb * d + d' * (sa * sb);
    assert za * sa * (w + w') * rb == za * sa * w * rb + za * sa * w' * rb;
  }

  lemma PartlyMoreSym(base: real, sa: real, sb: real, d: real, d': real, w: real, w': real, rb: real)
    ensures AddBlock(Partly(base, sa, sb, d, 0.0, w, rb), d', sa, sb) == Partly(base, sa, sb, d + d', 0.0, w + w', rb)
  {
    assert sa * sb * (d + d') == sa * sb * d + d' * (sa * sb);
  }

  lemma PartlyNothing(base: real, sa: real, sb: real, za: real, rb: real)
    ensures Partly(base, sa, sb, 0.0, za, 0.0, rb) == base
  {
  }

  lemma PartlySym(base: real, sa: real, sb: real, d: real, w: real, rb: real, rb': real)
    ensures Partly(base, sa, sb, d, 0.0, w, rb) == Partly(base, sa, sb, d, 0.0, w, rb')
  {
  }

  lemma PartlyBase(base: real, sa: real, sb: real, d: real, za: real, w: real, rb: real)
    ensures Partly(base, sa, sb, d, za, w, rb) == base + Partly(0.0, sa, sb, d, za, w, rb)
  {
  }

  /** A whole K block: the corrected code product is the product of the dequantised matrices. */
  lemma {:induction false} WholeProduct(qa: Matrix, qb: Matrix, da: Matrix, dw: Matrix, i: int, j: int, sa: real,
                                        sb: real, za: real, lo: int, hi: int)
    requires forall k | lo <= k < hi :: da(i, k) == Dequant(qa(i, k), sa, za)
    requires forall k | lo <= k < hi :: dw(k, j) == Dequant(qb(k, j), sb, 0.0)
    ensures Dot(da, dw, i, j, lo, hi) == Partly(0.0, sa, sb, Dot(qa, qb, i, j, lo, hi), za, 1.0, ColSum(dw, j, lo, hi))
    decreases hi - lo
  {
    if lo < hi {
      WholeProduct(qa, qb, da, dw, i, j, sa, sb, za, lo, hi - 1);
      OneProduct(sa, sb, za, Dot(qa, qb, i, j, lo, hi - 1), ColSum(dw, j, lo, hi - 1), qa(i, hi - 1), qb(hi - 1, j));
    } else {
      PartlyNothing2(sa, sb, za);
    }
  }

  lemma PartlyNothing2(sa: real, sb: real, za: real)
    ensures Partly(0.0, sa, sb, 0.0, za, 1.0, 0.0) == 0.0
  {
  }

  lemma OneProduct(sa: real, sb: real, za: real, d: real, r: real, x: real, y: real)
    ensures Partly(0.0, sa, sb, d, za, 1.0, r) + Dequant(x, sa, za) * Dequant(y, sb, 0.0)
         == Partly(0.0, sa, sb, d + x * y, za, 1.0, r + Dequant(y, sb, 0.0))
  {
    var u := sb * y;
    assert Dequant(y, sb, 0.0) == u;
    assert sa * (x - za) * u == sa * x * u - sa * za * u;
    assert sa * x * u == sa * sb * (x * y);
    assert sa * sb * (d + x * y) == sa * sb * d + sa * sb * (x * y);
    assert za * sa * 1.0 * (r + u) == za * sa * 1.0 * r + sa * za * u;
  }

  // ----- what an element of the C tile holds on the way

  /** The value of element (i, j) once K blocks before kb and `part` rows of block kb are in: the dequantised product
      of the whole blocks, and the scaled code product of the rest with its share of the zero point's correction. */
  ghost function IntValue(iq: IntQuant, qa: Matrix, qb: Matrix, da: Matrix, dw: Matrix, i: int, j: int, kb: nat,
                          part: nat): real {
    var lo := BlockRows(kb, iq.kblock);
    Partly(Dot(da, dw, i, j, 0, lo), iq.Sa(i, kb), iq.Sb(kb, j), Dot(qa, qb, i, j, lo, lo + part), iq.Za(i, kb),
           Share(part, iq.kblock), iq.Rb(kb, j))
  }

  function Share(part: int, kblock: pos): real {
    part as real / kblock as real
  }

  lemma ShareAdds(x: int, y: int, kblock: pos)
    ensures Share(x, kblock) + Share(y, kblock) == Share(x + y, kblock)
    ensures Share(kblock, kblock) == 1.0 && Share(0, kblock) == 0.0
  {
  }

  /** At a K block boundary the value is the plain product of the dequantised matrices. */
  lemma ValueAtBoundary(iq: IntQuant, qa: Matrix, qb: Matrix, da: Matrix, dw: Matrix, i: int, j: int, kb: nat)
    ensures IntValue(iq, qa, qb, da, dw, i, j, kb, 0) == Dot(da, dw, i, j, 0, BlockRows(kb, iq.kblock))
  {
    ShareAdds(0, 0, iq.kblock);
    PartlyNothing(Dot(da, dw, i, j, 0, BlockRows(kb, iq.kblock)), iq.Sa(i, kb), iq.Sb(kb, j), iq.Za(i, kb),
                  iq.Rb(kb, j));
  }

  lemma PartlyAdvance(asym: bool, base: real, sa: real, sb: real, d: real, d': real, za: real, w: real, w': real,
                      rb: real, x: real, y: real)
    requires x == Partly(base, sa, sb, d, za, w, rb) && (!asym ==> za == 0.0)
    requires y == if asym then TakeZp(AddBlock(x, d', sa, sb), za, sa, w', rb) else AddBlock(x, d', sa, sb)
    ensures y == Partly(base, sa, sb, d + d', za, w + w', rb)
  {
    if asym {
      PartlyMore(base, sa, sb, d, d', za, w, w', rb);
    } else {
      PartlyMoreSym(base, sa, sb, d, d', w, w', rb);
    }
  }

  /** len code rows from row `part` of K block kb on move the value on by len. */
  lemma ValueStep(iq: IntQuant, qa: Matrix, qb: Matrix, da: Matrix, dw: Matrix, i: int, j: int, kb: nat, part: nat,
                  len: nat, sa: real, sb: real, za: real, rb: real, x: real, y: real, d: real)
    requires sa == iq.Sa(i, kb) && sb == iq.Sb(kb, j) && za == iq.Za(i, kb) && rb == iq.Rb(kb, j)
    requires x == IntValue(iq, qa, qb, da, dw, i, j, kb, part)
    requires d == (var at := BlockRows(kb, iq.kblock) + part; Dot(qa, qb, i, j, at, at + len))
    requires y == if iq.asym then TakeZp(AddBlock(x, d, sa, sb), za, sa, Share(len, iq.kblock), rb)
                  else AddBlock(x, d, sa, sb)
    ensures y == IntValue(iq, qa, qb, da, dw, i, j, kb, part + len)
  {
    var lo := BlockRows(kb, iq.kblock);
    var base, d1 := Dot(da, dw, i, j, 0, lo), Dot(qa, qb, i, j, lo, lo + part);
    DotSplit(qa, qb, i, j, lo, lo + part, lo + part + len);
    ShareAdds(part, len, iq.kblock);
    PartlyAdvance(iq.asym, base, sa, sb, d1, d, za, Share(part, iq.kblock), Share(len, iq.kblock), rb, x, y);
  }

  /** A K block that is all in is the dequantised product of that block. */
  lemma BlockEnd(p: Param, iq: IntQuant, qa: Matrix, qb: Matrix, da: Matrix, dw: Matrix, i: int, j: int, kb: nat)
    requires iq.Holds(p, qa, qb, da, dw) && 0 <= j < p.n && kb < iq.Blocks(p)
    ensures IntValue(iq, qa, qb, da, dw, i, j, kb, iq.kblock) == Dot(da, dw, i, j, 0, BlockRows(kb + 1, iq.kblock))
  {
    var lo := BlockRows(kb, iq.kblock);
    var hi := lo + iq.kblock;
    var sa, sb, za, rb := iq.Sa(i, kb), iq.Sb(kb, j), iq.Za(i, kb), iq.Rb(kb, j);
    var base, d, r := Dot(da, dw, i, j, 0, lo), Dot(qa, qb, i, j, lo, hi), ColSum(dw, j, lo, hi);
    BlockCodes(p, iq, qa, qb, da, dw, i, j, kb);
    WholeProduct(qa, qb, da, dw, i, j, sa, sb, za, lo, hi);
    DotSplit(da, dw, i, j, 0, lo, hi);
    ShareAdds(0, 0, iq.kblock);
    PartlyBase(base, sa, sb, d, za, 1.0, rb);
    if iq.asym {
      BlockRowsAre(kb, iq.kblock);
      assert r == rb;
    } else {
      PartlySym(0.0, sa, sb, d, 1.0, rb, r);
    }
  }

  lemma BlockCodes(p: Param, iq: IntQuant, qa: Matrix, qb: Matrix, da: Matrix, dw: Matrix, i: int, j: int, kb: nat)
    requires iq.Holds(p, qa, qb, da, dw)
    ensures forall k | BlockRows(kb, iq.kblock) <= k < BlockRows(kb, iq.kblock) + iq.kblock ::
              && da(i, k) == Dequant(qa(i, k), iq.Sa(i, kb), iq.Za(i, kb))
              && dw(k, j) == Dequant(qb(k, j), iq.Sb(kb, j), 0.0)
  {
    BlockRowsAre(kb, iq.kblock);
    forall k | BlockRows(kb, iq.kblock) <= k < BlockRows(kb, iq.kblock) + iq.kblock
      ensures da(i, k) == Dequant(qa(i, k), iq.Sa(i, kb), iq.Za(i, kb))
      ensures dw(k, j) == Dequant(qb(k, j), iq.Sb(kb, j), 0.0)
    {
      DivUnique(k, iq.kblock, kb, k - kb * iq.kblock);
      assert iq.CodeA(qa, da, i, k) && iq.CodeB(qb, dw, k, j);
    }
  }

  // ----- one kernel call

  /** The caches hold the block scales, zero points and sums for rows row.., columns col.. and K blocks kb0.. . */
  ghost predicate CachesHold(iq: IntQuant, cor: Corrections, row: int, col: int, kb0: int, m: int, n: int, blocks: int,
                             len: pos) {
    && cor.asym == iq.asym && cor.kscale == Share(len, iq.kblock)
    && (forall r, t | 0 <= r < m && 0 <= t < blocks :: Cell(cor.scaleA, cor.ldsa, r, t) == iq.Sa(row + r, kb0 + t))
    && (iq.asym ==> forall r, t | 0 <= r < m && 0 <= t < blocks ::
            Cell(cor.zpA, cor.ldsa, r, t) == iq.Za(row + r, kb0 + t))
    && (forall t, c | 0 <= t < blocks && 0 <= c < n :: Cell(cor.scaleB, cor.ldsb, t, c) == iq.Sb(kb0 + t, col + c))
    && (forall t, c | 0 <= t < blocks && 0 <= c < n :: Cell(cor.reduceB, cor.ldsb, t, c) == iq.Rb(kb0 + t, col + c))
  }

  lemma CacheCells(iq: IntQuant, cor: Corrections, row: int, col: int, kb0: int, m: int, n: int, blocks: int, len: pos,
                   r: nat, c: nat, t: nat)
    requires CachesHold(iq, cor, row, col, kb0, m, n, blocks, len) && r < m && c < n && t < blocks
    ensures Cell(cor.scaleA, cor.ldsa, r, t) == iq.Sa(row + r, kb0 + t)
    ensures iq.asym ==> Cell(cor.zpA, cor.ldsa, r, t) == iq.Za(row + r, kb0 + t)
    ensures Cell(cor.scaleB, cor.ldsb, t, c) == iq.Sb(kb0 + t, col + c)
    ensures Cell(cor.reduceB, cor.ldsb, t, c) == iq.Rb(kb0 + t, col + c)
  {
  }

  /** Turn t of the kernel's loop, on the rows of K block kb0 + t from `part` on. */
  lemma TurnStep(iq: IntQuant, cor: Corrections, row: nat, col: nat, kb0: nat, m: nat, n: nat, len: pos, blocks: nat,
                 qa: Matrix, qb: Matrix, da: Matrix, dw: Matrix, r: nat, c: nat, t: nat, part: nat, x: real, d: real,
                 y: real)
    requires CachesHold(iq, cor, row, col, kb0, m, n, blocks, len) && r < m && c < n && t < blocks
    requires x == IntValue(iq, qa, qb, da, dw, row + r, col + c, kb0 + t, part)
    requires d == (var at := BlockRows(kb0 + t, iq.kblock) + part; Dot(qa, qb, row + r, col + c, at, at + len))
    requires y == cor.Apply(x, d, r, c, t)
    ensures y == IntValue(iq, qa, qb, da, dw, row + r, col + c, kb0 + t, part + len)
  {
    var kb := kb0 + t;
    var sa, sb, za, rb := iq.Sa(row + r, kb), iq.Sb(kb, col + c), iq.Za(row + r, kb), iq.Rb(kb, col + c);
    CacheCells(iq, cor, row, col, kb0, m, n, blocks, len, r, c, t);
    ValueStep(iq, qa, qb, da, dw, row + r, col + c, kb, part, len, sa, sb, za, rb, x, y, d);
  }

  lemma CallDot(o: Operands, qa: Matrix, qb: Matrix, row: nat, col: nat, kpos: nat, r: nat, c: nat, lo: nat, hi: nat)
    requires ViewOf(o.a, qa, row, kpos, o.m, o.kp) && ShiftOf(o.b, qb, kpos, col) && r < o.m && lo <= hi <= o.kp
    ensures Dot(o.a, o.b, r, c, lo, hi) == Dot(qa, qb, row + r, col + c, kpos + lo, kpos + hi)
    decreases hi - lo
  {
    if lo < hi {
      CallDot(o, qa, qb, row, col, kpos, r, c, lo, hi - 1);
      assert o.a(r, hi - 1) == qa(row + r, kpos + (hi - 1));
    }
  }

  /** A kernel call on rows row.. and columns col.. of the problem, over the codes from kpos on, in K block kb0. */
  ghost predicate CallHolds(iq: IntQuant, o: Operands, cor: Corrections, row: nat, col: nat, kpos: nat, kb0: nat,
                            n: nat, len: pos, blocks: nat, qa: Matrix, qb: Matrix) {
    && CachesHold(iq, cor, row, col, kb0, o.m, n, blocks, len)
    && o.kp == BlockRows(blocks, len) && ViewOf(o.a, qa, row, kpos, o.m, o.kp) && ShiftOf(o.b, qb, kpos, col)
  }

  /** A call on one piece of K block kb0, from its row `part` on. */
  lemma PieceSum(iq: IntQuant, o: Operands, cor: Corrections, v: Matrix, row: nat, col: nat, kpos: nat, kb0: nat,
                 part: nat, n: nat, len: pos, qa: Matrix, qb: Matrix, da: Matrix, dw: Matrix, r: nat, c: nat)
    requires CallHolds(iq, o, cor, row, col, kpos, kb0, n, len, 1, qa, qb) && kpos == BlockRows(kb0, iq.kblock) + part
    requires r < o.m && c < n && v(r, c) == IntValue(iq, qa, qb, da, dw, row + r, col + c, kb0, part)
    ensures BlockSums(o, cor, len, v, r, c, 1) == IntValue(iq, qa, qb, da, dw, row + r, col + c, kb0, part + len)
  {
    assert BlockRows(1, len) == BlockRows(0, len) + len;
    CallDot(o, qa, qb, row, col, kpos, r, c, 0, len);
    assert BlockSums(o, cor, len, v, r, c, 1)
        == cor.Apply(BlockSums(o, cor, len, v, r, c, 0), Dot(o.a, o.b, r, c, 0, len), r, c, 0);
    TurnStep(iq, cor, row, col, kb0, o.m, n, len, 1, qa, qb, da, dw, r, c, 0, part, v(r, c),
             Dot(o.a, o.b, r, c, 0, len),
             BlockSums(o, cor, len, v, r, c, 1));
  }

  lemma {:induction false} BlockRowsSplit(x: nat, y: nat, kblock: pos)
    ensures BlockRows(x + y, kblock) == BlockRows(x, kblock) + BlockRows(y, kblock)
  {
    if y > 0 {
      BlockRowsSplit(x, y - 1, kblock);
    }
  }

  /** Turn t of a call on whole K blocks. */
  lemma WholeTurn(p: Param, iq: IntQuant, cor: Corrections, row: nat, col: nat, kb0: nat, m: nat, n: nat, blocks: nat,
                  qa: Matrix, qb: Matrix, da: Matrix, dw: Matrix, r: nat, c: nat, t: nat, kb: nat, x: real, d: real,
                  y: real)
    requires iq.Holds(p, qa, qb, da, dw) && col + n <= p.n && kb == kb0 + t < iq.Blocks(p)
    requires CachesHold(iq, cor, row, col, kb0, m, n, blocks, iq.kblock) && r < m && c < n && t < blocks
    requires x == Dot(da, dw, row + r, col + c, 0, BlockRows(kb, iq.kblock))
    requires d == (var at := BlockRows(kb, iq.kblock); Dot(qa, qb, row + r, col + c, at, at + iq.kblock))
    requires y == cor.Apply(x, d, r, c, t)
    ensures y == Dot(da, dw, row + r, col + c, 0, BlockRows(kb + 1, iq.kblock))
  {
    ValueAtBoundary(iq, qa, qb, da, dw, row + r, col + c, kb);
    TurnStep(iq, cor, row, col, kb0, m, n, iq.kblock, blocks, qa, qb, da, dw, r, c, t, 0, x, d, y);
    BlockEnd(p, iq, qa, qb, da, dw, row + r, col + c, kb);
  }

  /** The codes turn t of a call multiplies. */
  lemma TurnCodes(o: Operands, qa: Matrix, qb: Matrix, row: nat, col: nat, kpos: nat, kb0: nat, kblock: pos,
                  blocks: nat, r: nat, c: nat, t: nat)
    requires o.kp == BlockRows(blocks, kblock) && kpos == BlockRows(kb0, kblock) && t < blocks && r < o.m
    requires ViewOf(o.a, qa, row, kpos, o.m, o.kp) && ShiftOf(o.b, qb, kpos, col)
    ensures Dot(o.a, o.b, r, c, BlockRows(t, kblock), BlockRows(t + 1, kblock))
         == (var at := BlockRows(kb0 + t, kblock); Dot(qa, qb, row + r, col + c, at, at + kblock))
  {
    BlockRowsSplit(t + 1, blocks - (t + 1), kblock);
    BlockRowsSplit(kb0, t, kblock);
    CallDot(o, qa, qb, row, col, kpos, r, c, BlockRows(t, kblock), BlockRows(t + 1, kblock));
  }

  /** Turn t of a kernel call adds the dequantised product of K block kb0 + t. */
  ghost predicate TurnAdds(o: Operands, cor: Corrections, kblock: pos, da: Matrix, dw: Matrix, row: nat, col: nat,
                           kb0: nat, r: nat, c: nat, t: nat)
  {
    cor.Apply(Dot(da, dw, row + r, col + c, 0, BlockRows(kb0 + t, kblock)),
              Dot(o.a, o.b, r, c, BlockRows(t, kblock), BlockRows(t + 1, kblock)), r, c, t)
    == Dot(da, dw, row + r, col + c, 0, BlockRows(kb0 + t + 1, kblock))
  }

  lemma WholeTurnAt(p: Param, iq: IntQuant, o: Operands, cor: Corrections, row: nat, col: nat, kpos: nat, kb0: nat,
                    n: nat, blocks: nat, qa: Matrix, qb: Matrix, da: Matrix, dw: Matrix, r: nat, c: nat, t: nat)
    requires iq.Holds(p, qa, qb, da, dw) && col + n <= p.n && kb0 + blocks <= iq.Blocks(p)
    requires CallHolds(iq, o, cor, row, col, kpos, kb0, n, iq.kblock, blocks, qa, qb)
    requires kpos == BlockRows(kb0, iq.kblock)
    requires r < o.m && c < n && t < blocks
    ensures TurnAdds(o, cor, iq.kblock, da, dw, row, col, kb0, r, c, t)
  {
    TurnCodes(o, qa, qb, row, col, kpos, kb0, iq.kblock, blocks, r, c, t);
    TurnAddsFrom(p, iq, o, cor, row, col, kb0, n, blocks, qa, qb, da, dw, r, c, t,
                 Dot(o.a, o.b, r, c, BlockRows(t, iq.kblock), BlockRows(t + 1, iq.kblock)));
  }

  lemma TurnAddsFrom(p: Param, iq: IntQuant, o: Operands, cor: Corrections, row: nat, col: nat, kb0: nat, n: nat,
                     blocks: nat, qa: Matrix, qb: Matrix, da: Matrix, dw: Matrix, r: nat, c: nat, t: nat, d: real)
    requires iq.Holds(p, qa, qb, da, dw) && col + n <= p.n && kb0 + blocks <= iq.Blocks(p) && r < o.m
    requires CachesHold(iq, cor, row, col, kb0, o.m, n, blocks, iq.kblock) && c < n && t < blocks
    requires d == Dot(o.a, o.b, r, c, BlockRows(t, iq.kblock), BlockRows(t + 1, iq.kblock))
    requires d == (var at := BlockRows(kb0 + t, iq.kblock); Dot(qa, qb, row + r, col + c, at, at + iq.kblock))
    ensures TurnAdds(o, cor, iq.kblock, da, dw, row, col, kb0, r, c, t)
  {
    var x := Dot(da, dw, row + r, col + c, 0, BlockRows(kb0 + t, iq.kblock));
    WholeTurn(p, iq, cor, row, col, kb0, o.m, n, blocks, qa, qb, da, dw, r, c, t, kb0 + t, x, d,
              cor.Apply(x, d, r, c, t));
  }

  lemma {:induction false} SumsFollow(o: Operands, cor: Corrections, kblock: pos, v: Matrix, da: Matrix, dw: Matrix,
                                      row: nat, col: nat, kb0: nat, r: nat, c: nat, blocks: nat)
    requires v(r, c) == Dot(da, dw, row + r, col + c, 0, BlockRows(kb0, kblock))
    requires forall t: nat | t < blocks :: TurnAdds(o, cor, kblock, da, dw, row, col, kb0, r, c, t)
    ensures BlockSums(o, cor, kblock, v, r, c, blocks)
         == Dot(da, dw, row + r, col + c, 0, BlockRows(kb0 + blocks, kblock))
  {
    if blocks > 0 {
      SumsFollow(o, cor, kblock, v, da, dw, row, col, kb0, r, c, blocks - 1);
      assert TurnAdds(o, cor, kblock, da, dw, row, col, kb0, r, c, blocks - 1);
    }
  }

  /** A call on whole K blocks moves the dequantised product on by those blocks. */
  lemma WholeSums(p: Param, iq: IntQuant, o: Operands, cor: Corrections, v: Matrix, row: nat, col: nat,
                  kpos: nat, kb0: nat, n: nat, blocks: nat, qa: Matrix, qb: Matrix, da: Matrix, dw: Matrix, r: nat,
                  c: nat)
    requires iq.Holds(p, qa, qb, da, dw) && col + n <= p.n && kb0 + blocks <= iq.Blocks(p)
    requires CallHolds(iq, o, cor, row, col, kpos, kb0, n, iq.kblock, blocks, qa, qb)
    requires kpos == BlockRows(kb0, iq.kblock)
    requires r < o.m && c < n && v(r, c) == Dot(da, dw, row + r, col + c, 0, kpos)
    ensures BlockSums(o, cor, iq.kblock, v, r, c, blocks)
         == Dot(da, dw, row + r, col + c, 0, BlockRows(kb0 + blocks, iq.kblock))
  {
    forall t: nat | t < blocks
      ensures TurnAdds(o, cor, iq.kblock, da, dw, row, col, kb0, r, c, t)
    {
      WholeTurnAt(p, iq, o, cor, row, col, kpos, kb0, n, blocks, qa, qb, da, dw, r, c, t);
    }
    SumsFollow(o, cor, iq.kblock, v, da, dw, row, col, kb0, r, c, blocks);
  }

  // ----- the launcher's caches

  /** getScale, getZp, getReduce: rows x cols cells from (r0, c0) of a row-major array, packed together. */
  method FetchCells(src: seq<real>, ld: nat, r0: nat, c0: nat, rows: nat, cols: nat, ghost allRows: nat,
                    ghost allCols: nat)
    returns (cache: seq<real>)
    requires WindowFits(|src|, 0, ld, allRows, allCols) && r0 + rows <= allRows && c0 + cols <= allCols
    ensures |cache| == rows * cols
    ensures forall r, c | 0 <= r < rows && 0 <= c < cols :: Cell(cache, cols, r, c) == Cell(src, ld, r0 + r, c0 + c)
  {
    cache := [];
    for r := 0 to rows
      invariant |cache| == r * cols
      invariant forall r', c | 0 <= r' < r && 0 <= c < cols ::
          Cell(cache, cols, r', c) == Cell(src, ld, r0 + r', c0 + c)
    {
      var at := (r0 + r) * ld + c0;
      ghost var before := cache;
      RowInside(|src|, ld, r0 + r, c0, cols, allRows, allCols);
      cache := cache + (if cols == 0 then [] else src[at..at + cols]);
      assert (r + 1) * cols == r * cols + cols;
      forall r', c | 0 <= r' < r + 1 && 0 <= c < cols
        ensures Cell(cache, cols, r', c) == Cell(src, ld, r0 + r', c0 + c)
      {
        CellAppended(before, cache, src, ld, at, r0, c0, r, cols, r', c);
      }
    }
  }

  lemma RowInside(len: int, ld: nat, r: nat, c0: nat, cols: nat, allRows: nat, allCols: nat)
    requires WindowFits(len, 0, ld, allRows, allCols) && r < allRows && c0 + cols <= allCols
    ensures cols > 0 ==> 0 <= r * ld + c0 && r * ld + c0 + cols <= len
  {
    if cols > 0 {
      WindowIndex(len, 0, ld, allRows, allCols, r, c0);
      WindowIndex(len, 0, ld, allRows, allCols, r, c0 + cols - 1);
    }
  }

  lemma CellAppended(before: seq<real>, cache: seq<real>, src: seq<real>, ld: nat, at: int, r0: nat, c0: nat, r: nat,
                     cols: nat, r': nat, c: nat)
    requires |before| == r * cols && c < cols && r' <= r && at == (r0 + r) * ld + c0 && 0 <= at && at + cols <= |src|
    requires cache == before + src[at..at + cols]
    requires r' < r ==> Cell(before, cols, r', c) == Cell(src, ld, r0 + r', c0 + c)
    ensures Cell(cache, cols, r', c) == Cell(src, ld, r0 + r', c0 + c)
  {
    if r' < r {
      RowMajorBounds(cols, r, r', c);
    } else {
      assert cache[r * cols + c] == src[at..at + cols][c];
      MulMono(0, r, cols);
    }
  }

  lemma CacheWindow(rows: nat, cols: nat)
    ensures WindowFits(rows * cols, 0, cols, rows, cols)
  {
    if rows > 0 && cols > 0 {
      RowMajorBounds(cols, rows, rows - 1, cols - 1);
    }
  }

  // ----- one K step of a row group

  /** A K step: rows kpos .. of the codes, in `blocks` kernel blocks of len rows, from row `part` of K block kb0 on. */
  datatype KStepOf = KStepOf(kpos: nat, kb0: nat, part: nat, len: pos, blocks: nat) {
    predicate Whole(iq: IntQuant) {
      part == 0 && len == iq.kblock
    }

    ghost predicate Valid(p: Param, iq: IntQuant) {
      && 0 < blocks && (Whole(iq) || blocks == 1) && len % p.core.ktile == 0
      && kpos == BlockRows(kb0, iq.kblock) + part && kb0 + blocks <= iq.Blocks(p)
      && kpos + Rows() <= p.k
    }

    function Rows(): nat {
      BlockRows(blocks, len)
    }

    ghost function Before(iq: IntQuant, qa: Matrix, qb: Matrix, da: Matrix, dw: Matrix): Matrix {
      Values(iq, qa, qb, da, dw, kb0, part)
    }

    ghost function After(iq: IntQuant, qa: Matrix, qb: Matrix, da: Matrix, dw: Matrix): Matrix {
      if Whole(iq) then Values(iq, qa, qb, da, dw, kb0 + blocks, 0) else Values(iq, qa, qb, da, dw, kb0, part + len)
    }
  }

  /** IntValue as a matrix. */
  ghost function Values(iq: IntQuant, qa: Matrix, qb: Matrix, da: Matrix, dw: Matrix, kb: nat, part: nat): Matrix {
    (i: int, j: int) => IntValue(iq, qa, qb, da, dw, i, j, kb, part)
  }

  lemma CallSums(p: Param, iq: IntQuant, st: KStepOf, o: Operands, cor: Corrections, v: Matrix, row: nat, col: nat,
                 n: nat, qa: Matrix, qb: Matrix, da: Matrix, dw: Matrix, r: nat, c: nat)
    requires iq.Holds(p, qa, qb, da, dw) && col + n <= p.n && st.Valid(p, iq)
    requires CallHolds(iq, o, cor, row, col, st.kpos, st.kb0, n, st.len, st.blocks, qa, qb)
    requires r < o.m && c < n && v(r, c) == st.Before(iq, qa, qb, da, dw)(row + r, col + c)
    ensures BlockSums(o, cor, st.len, v, r, c, st.blocks) == st.After(iq, qa, qb, da, dw)(row + r, col + c)
  {
    if st.Whole(iq) {
      WholeCallSums(p, iq, st, o, cor, v, row, col, n, qa, qb, da, dw, r, c);
    } else {
      PieceSum(iq, o, cor, v, row, col, st.kpos, st.kb0, st.part, n, st.len, qa, qb, da, dw, r, c);
    }
  }

  lemma WholeCallSums(p: Param, iq: IntQuant, st: KStepOf, o: Operands, cor: Corrections, v: Matrix, row: nat, col: nat,
                      n: nat, qa: Matrix, qb: Matrix, da: Matrix, dw: Matrix, r: nat, c: nat)
    requires iq.Holds(p, qa, qb, da, dw) && col + n <= p.n && st.Valid(p, iq) && st.Whole(iq)
    requires CallHolds(iq, o, cor, row, col, st.kpos, st.kb0, n, st.len, st.blocks, qa, qb)
    requires r < o.m && c < n && v(r, c) == st.Before(iq, qa, qb, da, dw)(row + r, col + c)
    ensures BlockSums(o, cor, st.len, v, r, c, st.blocks) == st.After(iq, qa, qb, da, dw)(row + r, col + c)
  {
    WholeBefore(p, iq, st, qa, qb, da, dw, row + r, col + c);
    WholeSums(p, iq, o, cor, v, row, col, st.kpos, st.kb0, n, st.blocks, qa, qb, da, dw, r, c);
  }

  /** At K block boundaries the values are the products so far. */
  lemma WholeBefore(p: Param, iq: IntQuant, st: KStepOf, qa: Matrix, qb: Matrix, da: Matrix, dw: Matrix, i: int, j: int)
    requires st.Valid(p, iq) && st.Whole(iq)
    ensures st.Before(iq, qa, qb, da, dw)(i, j) == Dot(da, dw, i, j, 0, st.kpos)
    ensures st.After(iq, qa, qb, da, dw)(i, j) == Dot(da, dw, i, j, 0, BlockRows(st.kb0 + st.blocks, iq.kblock))
  {
    ValueAtBoundary(iq, qa, qb, da, dw, i, j, st.kb0);
    ValueAtBoundary(iq, qa, qb, da, dw, i, j, st.kb0 + st.blocks);
  }

  /** The scale and sum caches of B for a K step hold the right cells. */
  ghost predicate BCaches(iq: IntQuant, kb0: int, col0: int, blocks: nat, n: nat, scaleB: seq<real>,
                          reduceB: seq<real>, ldsb: nat) {
    && WindowFits(|scaleB|, 0, ldsb, blocks, n) && WindowFits(|reduceB|, 0, ldsb, blocks, n)
    && (forall t, c | 0 <= t < blocks && 0 <= c < n :: Cell(scaleB, ldsb, t, c) == iq.Sb(kb0 + t, col0 + c))
    && (forall t, c | 0 <= t < blocks && 0 <= c < n :: Cell(reduceB, ldsb, t, c) == iq.Rb(kb0 + t, col0 + c))
  }

  /** The activation caches of a row group. */
  method GroupCaches(p: Param, iq: IntQuant, row: nat, mrem: nat, kb0: nat, blocks: nat, n: nat, col0: nat, len: pos,
                     scaleB: seq<real>, reduceB: seq<real>, ldsb: nat) returns (cor: Corrections)
    requires iq.Sized(p) && row + mrem <= p.m && kb0 + blocks <= iq.Blocks(p)
    requires BCaches(iq, kb0, col0, blocks, n, scaleB, reduceB, ldsb)
    ensures cor.Fits(mrem, n, blocks) && CachesHold(iq, cor, row, col0, kb0, mrem, n, blocks, len)
  {
    var zpA: seq<real> := [];
    if iq.asym {
      zpA := FetchCells(iq.zpA, iq.cstepA, row, kb0, mrem, blocks, p.m, iq.Blocks(p));
    }
    var scaleA := FetchCells(iq.scaleA, iq.cstepA, row, kb0, mrem, blocks, p.m, iq.Blocks(p));
    CacheWindow(mrem, blocks);
    cor := Corrections(iq.asym, zpA, scaleA, blocks, scaleB, reduceB, ldsb, len as real / iq.kblock as real);
    assert cor.kscale == Share(len, iq.kblock);
  }

  /** Rows lo .. hi of the block's first n columns hold v. */
  ghost predicate RowsHold(blk: Block, d: seq<real>, n: int, lo: int, hi: int, v: Matrix) {
    forall q | 0 <= q < |d| && InWindow(0, blk.stride, blk.msize, n, q) && lo <= q / blk.stride < hi ::
      d[q] == v(blk.row0 + q / blk.stride, blk.col0 + q % blk.stride)
  }

  ghost predicate SliceReady(p: Param, blk: Block, lenC: int, n: nat, sb: seq<real>, sl: Layout, bv: Matrix, qb: Matrix,
                             kpos: int, rows: int) {
    && p.core.Valid() && blk.Fits(lenC) && 0 < blk.npad && blk.npad % p.core.ntile == 0 && n <= blk.npad
    && blk.col0 + n <= p.n && blk.row0 + blk.msize <= p.m
    && sl.ntile == p.core.ntile && sl.packRow == p.core.packRow
    && OperandB(sb, sl, 0, blk.npad, rows, bv) && ShiftOf(bv, qb, kpos, blk.col0)
  }

  /** After a kernel call the rows of its tile hold the next value, and nothing else has changed. */
  lemma TileResult(p: Param, iq: IntQuant, st: KStepOf, o: Operands, cor: Corrections, t: Tile, blk: Block,
                   d: seq<real>, d0: seq<real>, n: nat, i: nat, qa: Matrix, qb: Matrix, da: Matrix, dw: Matrix)
    requires iq.Holds(p, qa, qb, da, dw) && st.Valid(p, iq) && |d| == |d0| && blk.Fits(|d|) && n <= blk.npad
    requires blk.col0 + n <= p.n
    requires t.coff == i * blk.stride && t.cstride == blk.stride && t.n == blk.npad && t.m == o.m
    requires i + t.m <= blk.msize && t.Fits(|d|)
    requires t.init <==> st.kpos == 0
    requires CallHolds(iq, o, cor, blk.row0 + i, blk.col0, st.kpos, st.kb0, n, st.len, st.blocks, qa, qb)
    requires st.kpos > 0 ==> RowsHold(blk, d0, n, i, i + t.m, st.Before(iq, qa, qb, da, dw))
    requires forall q | 0 <= q < |d| ::
               d[q] == if InWindow(t.coff, t.cstride, t.m, t.n, q)
               then BlockSums(o, cor, st.len, StartMatrix(t, d0), (q - t.coff) / t.cstride,
                              (q - t.coff) % t.cstride, st.blocks)
               else d0[q]
    ensures RowsHold(blk, d, n, i, i + t.m, st.After(iq, qa, qb, da, dw)) && blk.Untouched(d, d0, i, i + t.m)
  {
    forall q | 0 <= q < |d|
      ensures !(InWindow(0, blk.stride, blk.msize, blk.npad, q) && i <= q / blk.stride < i + t.m) ==> d[q] == d0[q]
      ensures InWindow(0, blk.stride, blk.msize, n, q) && i <= q / blk.stride < i + t.m ==>
                d[q] == st.After(iq, qa, qb, da, dw)(blk.row0 + q / blk.stride, blk.col0 + q % blk.stride)
    {
      SubCoord(blk.stride, i, 0, t.m, blk.npad, q);
      if InWindow(t.coff, t.cstride, t.m, t.n, q) {
        var r, c := (q - t.coff) / t.cstride, (q - t.coff) % t.cstride;
        WindowPlace(t.coff, t.cstride, t.m, t.n, q);
        if c < n {
          TileCell(p, iq, st, o, cor, t, blk, d0, n, i, qa, qb, da, dw, q, r, c);
        }
      }
    }
  }

  lemma TileCell(p: Param, iq: IntQuant, st: KStepOf, o: Operands, cor: Corrections, t: Tile, blk: Block, d0: seq<real>,
                 n: nat, i: nat, qa: Matrix, qb: Matrix, da: Matrix, dw: Matrix, q: nat, r: nat, c: nat)
    requires iq.Holds(p, qa, qb, da, dw) && st.Valid(p, iq) && q < |d0| && t.Fits(|d0|) && blk.npad <= blk.stride
    requires c < n <= blk.npad == t.n && blk.col0 + n <= p.n && r < t.m == o.m
    requires t.coff == i * blk.stride && t.cstride == blk.stride && i + t.m <= blk.msize
    requires q == t.coff + RowMajor(t.cstride, r, c) && q / blk.stride == i + r && q % blk.stride == c
    requires InWindow(0, blk.stride, blk.msize, blk.npad, q) && (t.init <==> st.kpos == 0)
    requires CallHolds(iq, o, cor, blk.row0 + i, blk.col0, st.kpos, st.kb0, n, st.len, st.blocks, qa, qb)
    requires st.kpos > 0 ==> RowsHold(blk, d0, n, i, i + t.m, st.Before(iq, qa, qb, da, dw))
    ensures BlockSums(o, cor, st.len, StartMatrix(t, d0), r, c, st.blocks)
         == st.After(iq, qa, qb, da, dw)(blk.row0 + i + r, blk.col0 + c)
  {
    StartIs(p, iq, st, t, blk, d0, n, i, qa, qb, da, dw, q, r, c);
    CallSums(p, iq, st, o, cor, StartMatrix(t, d0), blk.row0 + i, blk.col0, n, qa, qb, da, dw, r, c);
  }

  lemma StartIs(p: Param, iq: IntQuant, st: KStepOf, t: Tile, blk: Block, d0: seq<real>, n: nat, i: nat,
                qa: Matrix, qb: Matrix, da: Matrix, dw: Matrix, q: nat, r: nat, c: nat)
    requires st.Valid(p, iq) && q < |d0| && t.Fits(|d0|) && blk.npad <= blk.stride && c < n <= blk.npad == t.n
    requires t.coff == i * blk.stride && t.cstride == blk.stride && i + t.m <= blk.msize && r < t.m
    requires q == t.coff + RowMajor(t.cstride, r, c) && q / blk.stride == i + r && q % blk.stride == c
    requires InWindow(0, blk.stride, blk.msize, blk.npad, q)
    requires t.init <==> st.kpos == 0
    requires st.kpos > 0 ==> RowsHold(blk, d0, n, i, i + t.m, st.Before(iq, qa, qb, da, dw))
    ensures StartMatrix(t, d0)(r, c) == st.Before(iq, qa, qb, da, dw)(blk.row0 + i + r, blk.col0 + c)
  {
    if t.init {
      FirstBlock(p, iq, st);
      ValueAtBoundary(iq, qa, qb, da, dw, blk.row0 + i + r, blk.col0 + c, 0);
    }
  }

  lemma FirstBlock(p: Param, iq: IntQuant, st: KStepOf)
    requires st.Valid(p, iq) && st.kpos == 0
    ensures st.kb0 == 0 && st.part == 0
  {
    BlockRowsAre(st.kb0, iq.kblock);
    if st.kb0 > 0 {
      MulMono(1, st.kb0, iq.kblock);
    }
  }

  /** One kernel call: row group i .. i + mrem of the block takes the K step. */
  method IntCall(p: Param, iq: IntQuant, st: KStepOf, tmpB: array<real>, bstep: int, tmpC: array<real>, blk: Block,
                 ghost n: nat, i: nat, mrem: pos, scaleB: seq<real>, reduceB: seq<real>, ldsb: nat, ghost sl: Layout,
                 ghost bv: Matrix, ghost qa: Matrix, ghost qb: Matrix, ghost da: Matrix, ghost dw: Matrix)
    requires tmpC != p.matA && tmpC != tmpB && OperandA(p.matA[..], 0, p.lda, p.m, p.k, qa)
    requires iq.Holds(p, qa, qb, da, dw) && st.Valid(p, iq) && bstep == sl.kpad
    requires SliceReady(p, blk, tmpC.Length, n, tmpB[..], sl, bv, qb, st.kpos, st.Rows())
    requires BCaches(iq, st.kb0, blk.col0, st.blocks, blk.npad, scaleB, reduceB, ldsb)
    requires i + mrem <= blk.msize
    requires st.kpos > 0 ==> RowsHold(blk, tmpC[..], n, i, i + mrem, st.Before(iq, qa, qb, da, dw))
    modifies tmpC
    ensures RowsHold(blk, tmpC[..], n, i, i + mrem, st.After(iq, qa, qb, da, dw))
    ensures blk.Untouched(tmpC[..], old(tmpC[..]), i, i + mrem)
  {
    ghost var d0 := tmpC[..];
    var cor := GroupCaches(p, iq, blk.row0 + i, mrem, st.kb0, st.blocks, blk.npad, blk.col0, st.len, scaleB, reduceB,
                           ldsb);
    ghost var t, o := IntForward(p, st, tmpB, bstep, tmpC, blk, i, mrem, cor, sl, bv, qa, qb, n);
    TileResult(p, iq, st, o, cor, t, blk, tmpC[..], d0, n, i, qa, qb, da, dw);
  }

  /** The operands and tile of a kernel call. */
  ghost predicate CallShape(st: KStepOf, t: Tile, o: Operands, blk: Block, i: nat, mrem: nat, qa: Matrix, qb: Matrix) {
    && t == Tile(i * blk.stride, blk.stride, mrem, blk.npad, st.kpos == 0) && o.m == mrem && o.n == blk.npad
    && o.kp == st.Rows() && ViewOf(o.a, qa, blk.row0 + i, st.kpos, o.m, o.kp) && ShiftOf(o.b, qb, st.kpos, blk.col0)
  }

  method IntForward(p: Param, st: KStepOf, tmpB: array<real>, bstep: int, tmpC: array<real>, blk: Block, i: nat,
                    mrem: pos, cor: Corrections, ghost sl: Layout, ghost bv: Matrix, ghost qa: Matrix, ghost qb: Matrix,
                    ghost n: nat)
    returns (ghost t: Tile, ghost o: Operands)
    requires tmpC != p.matA && tmpC != tmpB && OperandA(p.matA[..], 0, p.lda, p.m, p.k, qa)
    requires bstep == sl.kpad && 0 < st.blocks && st.len % p.core.ktile == 0 && st.kpos + st.Rows() <= p.k
    requires SliceReady(p, blk, tmpC.Length, n, tmpB[..], sl, bv, qb, st.kpos, st.Rows())
    requires cor.Fits(mrem, blk.npad, st.blocks) && i + mrem <= blk.msize
    modifies tmpC
    ensures CallShape(st, t, o, blk, i, mrem, qa, qb) && t.Fits(tmpC.Length)
    ensures forall q | 0 <= q < tmpC.Length ::
              tmpC[q] == if InWindow(t.coff, t.cstride, t.m, t.n, q)
              then BlockSums(o, cor, st.len, StartMatrix(t, old(tmpC[..])), (q - t.coff) / t.cstride,
                             (q - t.coff) % t.cstride, st.blocks)
              else old(tmpC[q])
  {
    var off := (blk.row0 + i) * p.lda + st.kpos;
    RowsAtLeast(st);
    RawView(p.matA[..], off, p.lda, p.m, p.k, qa, blk.row0 + i, st.kpos, mrem, st.Rows());
    SubWindow(tmpC.Length, blk.stride, blk.msize, blk.npad, i, 0, mrem, blk.npad);
    var tile := Tile(i * blk.stride, blk.stride, mrem, blk.npad, st.kpos == 0);
    t := tile;
    o := Operands(off, p.lda, mrem, sl, 0, blk.npad, st.Rows(), BufferMatrix(p.matA[..], off, p.lda), bv);
    ForwardKBlock(p.core, p.matA, off, p.lda, tmpB, 0, bstep, tmpC, tile, cor, st.Rows(), st.len, o);
  }

  lemma RowsAtLeast(st: KStepOf)
    requires 0 < st.blocks
    ensures st.Rows() > 0 && st.Rows() % st.len == 0 && st.Rows() / st.len == st.blocks
  {
    BlockRowsAre(st.blocks, st.len);
    ModOfMultiple(st.blocks, st.len);
    MulMono(1, st.blocks, st.len);
  }

  /** Rows before i hold the next value, the others still the present one. */
  ghost predicate GroupsDone(blk: Block, d: seq<real>, n: int, i: int, before: Matrix, after: Matrix, first: bool) {
    && RowsHold(blk, d, n, 0, Min(i, blk.msize), after)
    && (!first ==> RowsHold(blk, d, n, i, blk.msize, before))
  }

  lemma GroupDone(blk: Block, d: seq<real>, d0: seq<real>, n: nat, i: nat, i': nat, before: Matrix, after: Matrix,
                  first: bool)
    requires |d| == |d0| && i < i' && n <= blk.npad && GroupsDone(blk, d0, n, i, before, after, first)
    requires RowsHold(blk, d, n, i, Min(i', blk.msize), after) && blk.Untouched(d, d0, i, Min(i', blk.msize))
    ensures GroupsDone(blk, d, n, i', before, after, first)
  {
  }

  /** The row loop of a K step. */
  method IntGroups(p: Param, iq: IntQuant, st: KStepOf, tmpB: array<real>, bstep: int, tmpC: array<real>, blk: Block,
                   ghost n: nat, scaleB: seq<real>, reduceB: seq<real>, ldsb: nat, ghost sl: Layout, ghost bv: Matrix,
                   ghost qa: Matrix, ghost qb: Matrix, ghost da: Matrix, ghost dw: Matrix)
    requires tmpC != p.matA && tmpC != tmpB && OperandA(p.matA[..], 0, p.lda, p.m, p.k, qa)
    requires iq.Holds(p, qa, qb, da, dw) && st.Valid(p, iq) && bstep == sl.kpad
    requires SliceReady(p, blk, tmpC.Length, n, tmpB[..], sl, bv, qb, st.kpos, st.Rows())
    requires BCaches(iq, st.kb0, blk.col0, st.blocks, blk.npad, scaleB, reduceB, ldsb)
    requires GroupsDone(blk, tmpC[..], n, 0, st.Before(iq, qa, qb, da, dw), st.After(iq, qa, qb, da, dw), st.kpos == 0)
    modifies tmpC
    ensures RowsHold(blk, tmpC[..], n, 0, blk.msize, st.After(iq, qa, qb, da, dw))
  {
    ghost var v0, v1 := st.Before(iq, qa, qb, da, dw), st.After(iq, qa, qb, da, dw);
    var i := 0;
    while i < blk.msize
      invariant 0 <= i && GroupsDone(blk, tmpC[..], n, i, v0, v1, st.kpos == 0)
    {
      var mrem := RemainSize(i, blk.msize, p.core.mtile);
      ghost var d0 := tmpC[..];
      IntCall(p, iq, st, tmpB, bstep, tmpC, blk, n, i, mrem, scaleB, reduceB, ldsb, sl, bv, qa, qb, da, dw);
      GroupDone(blk, tmpC[..], d0, n, i, i + p.core.mtile, v0, v1, st.kpos == 0);
      i := i + p.core.mtile;
    }
  }

  // ----- run_block and run_largekblock

  /** What the two branches need of the block sizes: K blocks are whole kernel steps and divide K, and a K step that
      is not shorter than a K block is whole K blocks, as run_block asserts. */
  predicate IntShape(c: Core, k: pos, kblock: pos, block2: pos) {
    && kblock % c.ktile == 0 && k % kblock == 0
    && block2 % c.ktile == 0 && (kblock <= block2 ==> block2 % kblock == 0)
  }

  /** What stays fixed while a block of C is computed. */
  ghost predicate IntReady(p: Param, iq: IntQuant, tmpB: array<real>, tmpC: array<real>, blk: Block, block2: pos,
                           n: nat, qa: Matrix, qb: Matrix, da: Matrix, dw: Matrix) {
    && p.core.Valid() && iq.Holds(p, qa, qb, da, dw) && IntShape(p.core, p.k, iq.kblock, block2)
    && tmpB !in {p.matA, p.packed, tmpC} && tmpC !in {p.matA, p.packed}
    && Panel(p, blk) && blk.Fits(tmpC.Length) && blk.kbase == 0 && block2 * blk.npad <= tmpB.Length
    && n <= blk.npad && blk.col0 + n <= p.n && blk.row0 + blk.msize <= p.m
  }

  /** tmpC holds the values before row `part` of K block kb; nothing is promised before the first step. */
  ghost predicate IntSoFar(iq: IntQuant, tmpC: array<real>, blk: Block, n: nat, qa: Matrix, qb: Matrix, da: Matrix,
                           dw: Matrix, kb: nat, part: nat)
    reads tmpC
  {
    (kb > 0 || part > 0) ==> RowsHold(blk, tmpC[..], n, 0, blk.msize, Values(iq, qa, qb, da, dw, kb, part))
  }

  /** A K step that the scratch buffers can hold. */
  ghost predicate StepFits(p: Param, iq: IntQuant, st: KStepOf, block2: pos) {
    st.Valid(p, iq) && KPiece(p, st.kpos, st.Rows(), st.Rows()) && st.Rows() <= block2
  }

  /** One K step: the weights, scales and sums of the step are fetched, then the row groups run. */
  method IntKStep(p: Param, iq: IntQuant, st: KStepOf, tmpB: array<real>, tmpC: array<real>, blk: Block,
                  ghost block2: pos, ghost n: nat, ghost qa: Matrix, ghost qb: Matrix, ghost da: Matrix,
                  ghost dw: Matrix)
    requires p.Holds(qa, qb) && IntReady(p, iq, tmpB, tmpC, blk, block2, n, qa, qb, da, dw)
    requires StepFits(p, iq, st, block2)
    requires IntSoFar(iq, tmpC, blk, n, qa, qb, da, dw, st.kb0, st.part)
    modifies tmpB, tmpC
    ensures RowsHold(blk, tmpC[..], n, 0, blk.msize, st.After(iq, qa, qb, da, dw))
  {
    MulMono(st.Rows(), block2, blk.npad);
    if st.kpos > 0 {
      LaterBlock(iq, st);
    }
    var bstep, sl, bv := FetchWeight(p, tmpB, blk, st.kpos, st.Rows(), st.Rows(), qa, qb);
    var scaleB := FetchCells(iq.scaleB, iq.cstepB, st.kb0, blk.col0, st.blocks, blk.npad, iq.Blocks(p), p.L().npad);
    var reduceB := FetchCells(iq.reduceB, iq.cstepB, st.kb0, blk.col0, st.blocks, blk.npad, iq.Blocks(p), p.L().npad);
    CacheWindow(st.blocks, blk.npad);
    IntGroups(p, iq, st, tmpB, bstep, tmpC, blk, n, scaleB, reduceB, blk.npad, sl, bv, qa, qb, da, dw);
  }

  lemma LaterBlock(iq: IntQuant, st: KStepOf)
    requires st.kpos == BlockRows(st.kb0, iq.kblock) + st.part && st.kpos > 0
    ensures st.kb0 > 0 || st.part > 0
  {
  }

  lemma RowsOf(kpos: nat, kblock: pos)
    requires kpos % kblock == 0
    ensures kpos / kblock >= 0 && BlockRows(kpos / kblock, kblock) == kpos
  {
    DivMod(kpos, kblock);
    DivBounds(kpos, kblock, 0);
    BlockRowsAre(kpos / kblock, kblock);
  }

  /** A run of K steps: K is whole K blocks. */
  lemma BlocksOf(p: Param, iq: IntQuant)
    requires p.k % iq.kblock == 0
    ensures iq.Blocks(p) == p.k / iq.kblock && BlockRows(iq.Blocks(p), iq.kblock) == p.k
  {
    PadtoBounds(p.k, iq.kblock);
    ModOfMultiple(Updiv(p.k, iq.kblock), iq.kblock);
    RowsOf(p.k, iq.kblock);
  }

  /** A K step of whole K blocks. */
  lemma WholeStepFits(p: Param, iq: IntQuant, block2: pos, iterk: nat, kb: nat, kremain: int, blocks: int, at: int,
                      next: int)
    requires p.core.Valid() && IntShape(p.core, p.k, iq.kblock, block2) && iq.kblock <= block2
    requires iterk == BlockRows(kb, iq.kblock) < p.k && kremain == RemainSize(iterk, p.k, block2)
    requires blocks == kremain / iq.kblock
    requires at == iterk / iq.kblock && next == kb + blocks
    ensures 0 < blocks && at == kb && 0 <= next && BlockRows(next, iq.kblock) == Min(iterk + block2, p.k)
    ensures StepFits(p, iq, KStepOf(iterk, kb, 0, iq.kblock, blocks), block2)
  {
    var kt := p.core.ktile;
    BlockRowsAre(kb, iq.kblock);
    ModOfMultiple(kb, iq.kblock);
    MultiplesAdd(p.k, iterk, iq.kblock);
    MultipleTrans(iterk, iq.kblock, kt);
    MultipleTrans(kremain, iq.kblock, kt);
    PadtoBounds(kremain, kt);
    RowsOf(kremain, iq.kblock);
    BlockRowsSplit(kb, blocks, iq.kblock);
    BlocksOf(p, iq);
    FewerBlocks(kb + blocks, iq.Blocks(p), iq.kblock);
  }

  lemma FewerBlocks(x: nat, y: nat, kblock: pos)
    requires BlockRows(x, kblock) <= BlockRows(y, kblock)
    ensures x <= y
  {
    BlockRowsAre(x, kblock);
    BlockRowsAre(y, kblock);
    assert (y + 1) * kblock == y * kblock + kblock;
    if y < x {
      MulMono(y + 1, x, kblock);
    }
  }

  /** run_block: a K step holds one or more whole K blocks. */
  method RunIntSmall(p: Param, iq: IntQuant, tmpB: array<real>, tmpC: array<real>, blk: Block, block2: pos,
                     ghost n: nat, ghost qa: Matrix, ghost qb: Matrix, ghost da: Matrix, ghost dw: Matrix)
    requires p.Holds(qa, qb) && IntReady(p, iq, tmpB, tmpC, blk, block2, n, qa, qb, da, dw) && iq.kblock <= block2
    modifies tmpB, tmpC
    ensures p.Holds(qa, qb)
    ensures IntSoFar(iq, tmpC, blk, n, qa, qb, da, dw, iq.Blocks(p), 0)
  {
    var iterk := 0;
    ghost var kb, sa, sw := 0, p.matA[..], p.packed[..];
    BlocksOf(p, iq);
    while iterk < p.k
      invariant p.matA[..] == sa && p.packed[..] == sw
      invariant 0 <= iterk && BlockRows(kb, iq.kblock) == Min(iterk, p.k)
      invariant IntSoFar(iq, tmpC, blk, n, qa, qb, da, dw, kb, 0)
    {
      kb := SmallStep(p, iq, tmpB, tmpC, blk, block2, n, iterk, kb, qa, qb, da, dw);
      iterk := iterk + block2;
    }
    FewerBlocks(kb, iq.Blocks(p), iq.kblock);
    FewerBlocks(iq.Blocks(p), kb, iq.kblock);
  }

  method SmallStep(p: Param, iq: IntQuant, tmpB: array<real>, tmpC: array<real>, blk: Block, block2: pos, ghost n: nat,
                   iterk: nat, ghost kb: nat, ghost qa: Matrix, ghost qb: Matrix, ghost da: Matrix, ghost dw: Matrix)
    returns (ghost next: int)
    requires p.Holds(qa, qb) && IntReady(p, iq, tmpB, tmpC, blk, block2, n, qa, qb, da, dw) && iq.kblock <= block2
    requires iterk == BlockRows(kb, iq.kblock) < p.k
    requires IntSoFar(iq, tmpC, blk, n, qa, qb, da, dw, kb, 0)
    modifies tmpB, tmpC
    ensures 0 <= next && BlockRows(next, iq.kblock) == Min(iterk + block2, p.k)
    ensures IntSoFar(iq, tmpC, blk, n, qa, qb, da, dw, next, 0)
  {
    var kremain := RemainSize(iterk, p.k, block2);
    var blocks, at := kremain / iq.kblock, iterk / iq.kblock;
    next := kb + blocks;
    WholeStepFits(p, iq, block2, iterk, kb, kremain, blocks, at, next);
    var st := KStepOf(iterk, at, 0, iq.kblock, blocks);
    IntKStep(p, iq, st, tmpB, tmpC, blk, block2, n, qa, qb, da, dw);
    assert st.After(iq, qa, qb, da, dw) == Values(iq, qa, qb, da, dw, next, 0);
  }

  /** A K step that is a piece of K block kb. */
  lemma PieceStepFits(p: Param, iq: IntQuant, block2: pos, iterk: nat, kb: nat, part: nat, kremain: int, at: int)
    requires p.core.Valid() && IntShape(p.core, p.k, iq.kblock, block2) && block2 < iq.kblock
    requires iterk == BlockRows(kb, iq.kblock) < p.k && part < iq.kblock && part % p.core.ktile == 0
    requires kremain == RemainSize(iterk + part, iterk + iq.kblock, block2) && at == (iterk + part) / iq.kblock
    ensures 0 < kremain && at == kb && part + kremain == Min(part + block2, iq.kblock)
    ensures (part + kremain) % p.core.ktile == 0
    ensures StepFits(p, iq, KStepOf(iterk + part, kb, part, kremain, 1), block2)
  {
    var kt := p.core.ktile;
    BlockRowsAre(kb, iq.kblock);
    DivUnique(iterk + part, iq.kblock, kb, part);
    ModOfMultiple(kb, iq.kblock);
    MultiplesApart(iterk, p.k, iq.kblock);
    MultipleTrans(iterk, iq.kblock, kt);
    MultiplesAdd(iterk, part, kt);
    MultiplesAdd(iq.kblock, part, kt);
    MultiplesAdd(part, kremain, kt);
    PadtoBounds(kremain, kt);
    BlocksOf(p, iq);
    assert BlockRows(1, kremain) == BlockRows(0, kremain) + kremain;
    assert BlockRows(kb + 1, iq.kblock) == iterk + iq.kblock;
    FewerBlocks(kb + 1, iq.Blocks(p), iq.kblock);
  }

  method PieceStep(p: Param, iq: IntQuant, tmpB: array<real>, tmpC: array<real>, blk: Block, block2: pos, ghost n: nat,
                   iterk: nat, iterkk: nat, ghost kb: nat, ghost qa: Matrix, ghost qb: Matrix, ghost da: Matrix,
                   ghost dw: Matrix)
    returns (ghost next: nat)
    requires p.Holds(qa, qb) && IntReady(p, iq, tmpB, tmpC, blk, block2, n, qa, qb, da, dw) && block2 < iq.kblock
    requires iterk == BlockRows(kb, iq.kblock) < p.k && iterk <= iterkk < iterk + iq.kblock
    requires (iterkk - iterk) % p.core.ktile == 0
    requires IntSoFar(iq, tmpC, blk, n, qa, qb, da, dw, kb, iterkk - iterk)
    modifies tmpB, tmpC
    ensures next == Min(iterkk - iterk + block2, iq.kblock) && next % p.core.ktile == 0
    ensures IntSoFar(iq, tmpC, blk, n, qa, qb, da, dw, kb, next)
  {
    var kremain := RemainSize(iterkk, iterk + iq.kblock, block2);
    var part, at := iterkk - iterk, iterkk / iq.kblock;
    PieceStepFits(p, iq, block2, iterk, kb, part, kremain, at);
    next := part + kremain;
    var st := KStepOf(iterkk, at, part, kremain, 1);
    IntKStep(p, iq, st, tmpB, tmpC, blk, block2, n, qa, qb, da, dw);
    assert st.After(iq, qa, qb, da, dw) == Values(iq, qa, qb, da, dw, kb, next);
  }

  /** run_largekblock, one K block: its pieces add their shares of the correction, which make up the whole of it. */
  method LargeIntBlock(p: Param, iq: IntQuant, tmpB: array<real>, tmpC: array<real>, blk: Block, block2: pos,
                       ghost n: nat, iterk: nat, ghost kb: nat, ghost qa: Matrix, ghost qb: Matrix, ghost da: Matrix,
                       ghost dw: Matrix)
    requires p.Holds(qa, qb) && IntReady(p, iq, tmpB, tmpC, blk, block2, n, qa, qb, da, dw) && block2 < iq.kblock
    requires iterk == BlockRows(kb, iq.kblock) < p.k
    requires IntSoFar(iq, tmpC, blk, n, qa, qb, da, dw, kb, 0)
    modifies tmpB, tmpC
    ensures IntSoFar(iq, tmpC, blk, n, qa, qb, da, dw, kb + 1, 0)
  {
    var iterkk := iterk;
    ghost var sa, sw, part := p.matA[..], p.packed[..], 0;
    DivUnique(0, p.core.ktile, 0, 0);
    while iterkk < iterk + iq.kblock
      invariant p.matA[..] == sa && p.packed[..] == sw
      invariant iterk <= iterkk && part == Min(iterkk - iterk, iq.kblock) && part % p.core.ktile == 0
      invariant IntSoFar(iq, tmpC, blk, n, qa, qb, da, dw, kb, part)
    {
      part := PieceStep(p, iq, tmpB, tmpC, blk, block2, n, iterk, iterkk, kb, qa, qb, da, dw);
      iterkk := iterkk + block2;
    }
    BlockTurn(p, iq, tmpC[..], blk, n, qa, qb, da, dw, kb);
  }

  lemma BlockTurn(p: Param, iq: IntQuant, d: seq<real>, blk: Block, n: nat, qa: Matrix, qb: Matrix, da: Matrix,
                  dw: Matrix, kb: nat)
    requires p.core.Valid() && iq.Holds(p, qa, qb, da, dw) && p.k % iq.kblock == 0 && BlockRows(kb, iq.kblock) < p.k
    requires blk.col0 + n <= p.n
    requires RowsHold(blk, d, n, 0, blk.msize, Values(iq, qa, qb, da, dw, kb, iq.kblock))
    ensures RowsHold(blk, d, n, 0, blk.msize, Values(iq, qa, qb, da, dw, kb + 1, 0))
  {
    LastBlock(p, iq, kb);
    forall q | 0 <= q < |d| && InWindow(0, blk.stride, blk.msize, n, q)
      ensures Values(iq, qa, qb, da, dw, kb, iq.kblock)(blk.row0 + q / blk.stride, blk.col0 + q % blk.stride)
           == Values(iq, qa, qb, da, dw, kb + 1, 0)(blk.row0 + q / blk.stride, blk.col0 + q % blk.stride)
    {
      WindowPlace(0, blk.stride, blk.msize, n, q);
      TurnAt(p, iq, qa, qb, da, dw, blk.row0 + q / blk.stride, blk.col0 + q % blk.stride, kb);
    }
  }

  lemma TurnAt(p: Param, iq: IntQuant, qa: Matrix, qb: Matrix, da: Matrix, dw: Matrix, i: int, j: int, kb: nat)
    requires iq.Holds(p, qa, qb, da, dw) && 0 <= j < p.n && kb < iq.Blocks(p)
    ensures Values(iq, qa, qb, da, dw, kb, iq.kblock)(i, j) == Values(iq, qa, qb, da, dw, kb + 1, 0)(i, j)
  {
    BlockEnd(p, iq, qa, qb, da, dw, i, j, kb);
    ValueAtBoundary(iq, qa, qb, da, dw, i, j, kb + 1);
  }

  lemma LastBlock(p: Param, iq: IntQuant, kb: nat)
    requires p.k % iq.kblock == 0 && BlockRows(kb, iq.kblock) < p.k
    ensures kb < iq.Blocks(p) && BlockRows(kb + 1, iq.kblock) == BlockRows(kb, iq.kblock) + iq.kblock <= p.k
  {
    BlocksOf(p, iq);
    BlockRowsAre(kb, iq.kblock);
    ModOfMultiple(kb, iq.kblock);
    MultiplesApart(BlockRows(kb, iq.kblock), p.k, iq.kblock);
    FewerBlocks(kb + 1, iq.Blocks(p), iq.kblock);
  }

  /** run_largekblock. */
  method RunIntLarge(p: Param, iq: IntQuant, tmpB: array<real>, tmpC: array<real>, blk: Block, block2: pos,
                     ghost n: nat, ghost qa: Matrix, ghost qb: Matrix, ghost da: Matrix, ghost dw: Matrix)
    requires p.Holds(qa, qb) && IntReady(p, iq, tmpB, tmpC, blk, block2, n, qa, qb, da, dw) && block2 < iq.kblock
    modifies tmpB, tmpC
    ensures IntSoFar(iq, tmpC, blk, n, qa, qb, da, dw, iq.Blocks(p), 0)
  {
    var iterk := 0;
    ghost var kb, sa, sw := 0, p.matA[..], p.packed[..];
    while iterk < p.k
      invariant p.matA[..] == sa && p.packed[..] == sw
      invariant 0 <= iterk <= p.k && BlockRows(kb, iq.kblock) == iterk
      invariant IntSoFar(iq, tmpC, blk, n, qa, qb, da, dw, kb, 0)
    {
      LastBlock(p, iq, kb);
      LargeIntBlock(p, iq, tmpB, tmpC, blk, block2, n, iterk, kb, qa, qb, da, dw);
      kb := kb + 1;
      iterk := iterk + iq.kblock;
    }
    AllRows(p, iq, kb);
  }

  lemma AllRows(p: Param, iq: IntQuant, kb: nat)
    requires p.k % iq.kblock == 0 && BlockRows(kb, iq.kblock) == p.k
    ensures kb == iq.Blocks(p)
  {
    BlocksOf(p, iq);
    FewerBlocks(kb, iq.Blocks(p), iq.kblock);
    FewerBlocks(iq.Blocks(p), kb, iq.kblock);
  }

  // ----- run

  /** What a thread needs to run its rectangle. */
  ghost predicate IntRunReady(p: Param, iq: IntQuant, cfg: Config, s: Scratch, qa: Matrix, qb: Matrix, da: Matrix,
                              dw: Matrix) {
    && p.Separate() && cfg.Valid(p) && s.Fits(p, cfg) && iq.Holds(p, qa, qb, da, dw)
    && IntShape(p.core, p.k, iq.kblock, cfg.block.d2)
  }

  /** One block0 x block1 block: either branch, then the write-back. */
  method RunIntBlock(p: Param, iq: IntQuant, cfg: Config, s: Scratch, blkM: nat, blkN: nat, msize: pos, nsize: pos,
                     ghost qa: Matrix, ghost qb: Matrix, ghost da: Matrix, ghost dw: Matrix) returns (ghost hits: Hits)
    requires p.Holds(qa, qb) && IntRunReady(p, iq, cfg, s, qa, qb, da, dw)
    requires blkM + msize <= cfg.size.d0 && msize <= cfg.block.d0
    requires blkN + nsize <= cfg.size.d1 && nsize <= cfg.block.d1 && blkN % p.core.ntile == 0
    requires blkN + nsize == cfg.size.d1 || nsize % p.core.ntile == 0
    modifies s.tmpB, s.tmpC, p.matC
    ensures p.Holds(qa, qb)
    ensures Written(p.ldc, p.matC[..], old(p.matC[..]), ProductOf(da, dw, p.k), cfg.loc.d0 + blkM, cfg.loc.d1 + blkN,
                    msize, nsize)
    ensures HitsOnce(hits, cfg.loc.d0 + blkM, cfg.loc.d1 + blkN, msize, nsize)
  {
    var npadded := Padto(nsize, p.core.ntile);
    var blk := Block(cfg.loc.d0 + blkM, cfg.loc.d1 + blkN, msize, npadded, cfg.block.d1, 0);
    BlockFits(p, cfg, s, blkM, blkN, msize, nsize, npadded, 0);
    PadtoBounds(cfg.block.d2, p.core.ktile);
    IntProducts(p, iq, s.tmpB, s.tmpC, blk, cfg.block.d2, nsize, qa, qb, da, dw);
    hits := Epilogue(p, s.tmpC, blk, nsize, ProductOf(da, dw, p.k));
  }

  /** Either branch leaves the product of the block in tmpC. */
  method IntProducts(p: Param, iq: IntQuant, tmpB: array<real>, tmpC: array<real>, blk: Block, block2: pos, nsize: nat,
                     ghost qa: Matrix, ghost qb: Matrix, ghost da: Matrix, ghost dw: Matrix)
    requires p.Holds(qa, qb) && IntReady(p, iq, tmpB, tmpC, blk, block2, nsize, qa, qb, da, dw)
    modifies tmpB, tmpC
    ensures BlockHolds(blk, tmpC[..], nsize, ProductOf(da, dw, p.k))
  {
    if block2 >= iq.kblock {
      RunIntSmall(p, iq, tmpB, tmpC, blk, block2, nsize, qa, qb, da, dw);
    } else {
      RunIntLarge(p, iq, tmpB, tmpC, blk, block2, nsize, qa, qb, da, dw);
    }
    AllBlocks(p, iq, tmpC[..], blk, nsize, qa, qb, da, dw);
  }

  lemma AllBlocks(p: Param, iq: IntQuant, d: seq<real>, blk: Block, n: nat, qa: Matrix, qb: Matrix, da: Matrix,
                  dw: Matrix)
    requires p.k % iq.kblock == 0
    requires RowsHold(blk, d, n, 0, blk.msize, Values(iq, qa, qb, da, dw, iq.Blocks(p), 0))
    ensures BlockHolds(blk, d, n, ProductOf(da, dw, p.k))
  {
    BlocksOf(p, iq);
    forall q | 0 <= q < |d| && InWindow(0, blk.stride, blk.msize, n, q)
      ensures d[q] == Dot(da, dw, blk.row0 + q / blk.stride, blk.col0 + q % blk.stride, 0, p.k)
    {
      WindowPlace(0, blk.stride, blk.msize, n, q);
      ValueAtBoundary(iq, qa, qb, da, dw, blk.row0 + q / blk.stride, blk.col0 + q % blk.stride, iq.Blocks(p));
    }
  }

  /** The row blocks of one column block. */
  method RunIntColumn(p: Param, iq: IntQuant, cfg: Config, s: Scratch, itern: nat, nremain: pos,
                      ghost qa: Matrix, ghost qb: Matrix, ghost da: Matrix, ghost dw: Matrix) returns (ghost hits: Hits)
    requires p.Holds(qa, qb) && IntRunReady(p, iq, cfg, s, qa, qb, da, dw)
    requires itern + nremain <= cfg.size.d1 && nremain <= cfg.block.d1 && itern % p.core.ntile == 0
    requires itern + nremain == cfg.size.d1 || nremain % p.core.ntile == 0
    modifies s.tmpB, s.tmpC, p.matC
    ensures p.Holds(qa, qb)
    ensures Written(p.ldc, p.matC[..], old(p.matC[..]), ProductOf(da, dw, p.k), cfg.loc.d0, cfg.loc.d1 + itern,
                    cfg.size.d0, nremain)
    ensures HitsOnce(hits, cfg.loc.d0, cfg.loc.d1 + itern, cfg.size.d0, nremain)
  {
    ghost var d0 := p.matC[..];
    hits := (i, j) => 0;
    var iterm := 0;
    while iterm < cfg.size.d0
      invariant 0 <= iterm && p.Holds(qa, qb)
      invariant Written(p.ldc, p.matC[..], d0, ProductOf(da, dw, p.k), cfg.loc.d0, cfg.loc.d1 + itern,
                        Min(iterm, cfg.size.d0), nremain)
      invariant HitsOnce(hits, cfg.loc.d0, cfg.loc.d1 + itern, Min(iterm, cfg.size.d0), nremain)
    {
      var mremain := RemainSize(iterm, cfg.size.d0, cfg.block.d0);
      ghost var h := hits;
      ghost var x := RunIntBlock(p, iq, cfg, s, iterm, itern, mremain, nremain, qa, qb, da, dw);
      hits := (i, j) => h(i, j) + x(i, j);
      iterm := iterm + cfg.block.d0;
    }
  }

  /** LauncherIntKBlock::run: the thread's rectangle of C becomes the product of the dequantised activations and
      weights, whether K blocks are shorter or longer than a K step; every element is written once. */
  method RunInt(p: Param, iq: IntQuant, cfg: Config, s: Scratch, ghost qa: Matrix, ghost qb: Matrix, ghost da: Matrix,
                ghost dw: Matrix) returns (ghost hits: Hits)
    requires p.Holds(qa, qb) && IntRunReady(p, iq, cfg, s, qa, qb, da, dw)
    modifies s.tmpB, s.tmpC, p.matC
    ensures p.Holds(qa, qb)
    ensures Written(p.ldc, p.matC[..], old(p.matC[..]), ProductOf(da, dw, p.k), cfg.loc.d0, cfg.loc.d1, cfg.size.d0,
                    cfg.size.d1)
    ensures HitsOnce(hits, cfg.loc.d0, cfg.loc.d1, cfg.size.d0, cfg.size.d1)
  {
    ghost var d0 := p.matC[..];
    hits := (i, j) => 0;
    var itern := 0;
    DivUnique(0, p.core.ntile, 0, 0);
    while itern < cfg.size.d1
      invariant 0 <= itern && itern % p.core.ntile == 0 && p.Holds(qa, qb)
      invariant Written(p.ldc, p.matC[..], d0, ProductOf(da, dw, p.k), cfg.loc.d0, cfg.loc.d1, cfg.size.d0,
                        Min(itern, cfg.size.d1))
      invariant HitsOnce(hits, cfg.loc.d0, cfg.loc.d1, cfg.size.d0, Min(itern, cfg.size.d1))
    {
      var nremain := RemainSize(itern, cfg.size.d1, cfg.block.d1);
      ghost var h := hits;
      ghost var x := RunIntColumn(p, iq, cfg, s, itern, nremain, qa, qb, da, dw);
      hits := (i, j) => h(i, j) + x(i, j);
      MultiplesAdd(itern, cfg.block.d1, p.core.ntile);
      itern := itern + cfg.block.d1;
    }
  }
}
