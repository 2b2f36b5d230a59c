/** GemmRunWithA with what the library really computes in its two phases: blocks of activations quantised to 8 bits, and
    products of the dequantised codes with the weights. */
module QuantisedRun {
  import opened Utils
  import opened Layouts
  import opened DotProducts
  import opened WeightPacking
  import opened Scheduling
  import opened QuantizeU8
  import opened ThreadedRun
  import IntKBlockLauncher

  /** A quantised block: scale, zero point and codes. */
  datatype QBlock = QBlock(scale: real, zp: int, codes: seq<int>)

  /** The activations, their block length, and the dequantised weights. */
  datatype Problem = Problem(x: seq<real>, lda: nat, m: nat, k: nat, bs: pos, dw: Matrix) {
    predicate In(i: int, kb: int) {
      0 <= i < m && 0 <= kb && kb * bs < k
    }

    /** The values of block kb of row i; the last block of a row may be partial. */
    function Values(i: int, kb: int): (xs: seq<real>)
      requires In(i, kb)
      ensures |xs| == RemainSize(kb * bs, k, bs)
    {
      seq(RemainSize(kb * bs, k, bs), ij => BufferAt(x, 0, lda, i, kb * bs + ij))
    }

    function Tail(kb: int): bool {
      kb * bs + bs > k
    }

    /** What the quantiser stores. A block of scale zero holds zeros only, whatever becomes of its codes. */
    function Quant(c: Cell): QBlock {
      if !In(c.0, c.1) then QBlock(0.0, 0, []) else
      var xs, tail := Values(c.0, c.1), Tail(c.1);
      if Scale(xs, tail) <= 0.0 then QBlock(0.0, 0, seq(|xs|, _ => 0))
      else QBlock(Scale(xs, tail), Zp(xs, tail), seq(|xs|, ij requires 0 <= ij < |xs| => Code(xs, tail, ij)))
    }

    /** The activations a table of blocks stands for. */
    function Dequantised(t: map<Cell, QBlock>): Matrix {
      (i: int, kk: int) =>
        if (i, kk / bs) in t && kk % bs < |t[(i, kk / bs)].codes| then
          var b := t[(i, kk / bs)];
          Dequant(b.codes[kk % bs] as real, b.scale, b.zp as real)
        else 0.0
    }

    /** What LauncherIntKBlock computes from the table. */
    function Product(t: map<Cell, QBlock>, c: Cell): real {
      Dot(Dequantised(t), dw, c.0, c.1, 0, k)
    }

    function Activations(): Matrix {
      MatrixOf(x, lda)
    }

    /** Each block lies between lo and hi, together with zero and, in a whole block, the least positive float. */
    ghost predicate InRanges(lo: (int, int) -> real, hi: (int, int) -> real) {
      forall i, kb | In(i, kb) :: InRange(Values(i, kb), Tail(kb), lo(i, kb), hi(i, kb))
    }

    /** Half of a 255th of the range of the block of row i that holds kk. */
    function HalfStepOf(lo: (int, int) -> real, hi: (int, int) -> real, i: int): int -> real {
      kk => (hi(i, kk / bs) - lo(i, kk / bs)) / 510.0
    }
  }

  /** The values are the slice the quantiser reads. */
  lemma ValuesAreSlice(p: Problem, i: int, kb: int)
    requires WindowFits(|p.x|, 0, p.lda, p.m, p.k) && p.In(i, kb)
    ensures var at := RowMajor(p.lda, i, kb * p.bs);
            0 <= at && at + |p.Values(i, kb)| <= |p.x| && p.Values(i, kb) == p.x[at..at + |p.Values(i, kb)|]
  {
    var n := RemainSize(kb * p.bs, p.k, p.bs);
    MulMono(0, kb, p.bs);
    WindowIndex(|p.x|, 0, p.lda, p.m, p.k, i, kb * p.bs);
    WindowIndex(|p.x|, 0, p.lda, p.m, p.k, i, kb * p.bs + n - 1);
    var at := RowMajor(p.lda, i, kb * p.bs);
    forall ij | 0 <= ij < n
      ensures p.Values(i, kb)[ij] == p.x[at + ij]
    {
      assert RowMajor(p.lda, i, kb * p.bs + ij) == at + ij;
    }
  }

  /** Block and place of column kk. */
  lemma Place(p: Problem, i: int, kk: int)
    requires 0 <= i < p.m && 0 <= kk < p.k
    ensures p.In(i, kk / p.bs) && 0 <= kk % p.bs < |p.Values(i, kk / p.bs)|
    ensures p.Values(i, kk / p.bs)[kk % p.bs] == p.Activations()(i, kk)
  {
    DivMod(kk, p.bs);
    DivBounds(kk, p.bs, 0);
  }

  /** Every dequantised activation is within half of a 255th of its block's range of its value. */
  lemma Nearby(p: Problem, t: map<Cell, QBlock>, i: int, kk: int, lo: (int, int) -> real, hi: (int, int) -> real)
    requires p.InRanges(lo, hi)
    requires 0 <= i < p.m && 0 <= kk < p.k && (i, kk / p.bs) in t && t[(i, kk / p.bs)] == p.Quant((i, kk / p.bs))
    ensures Near(p.Dequantised(t), p.Activations(), p.HalfStepOf(lo, hi, i), i, kk)
  {
    Place(p, i, kk);
    var kb, ij := kk / p.bs, kk % p.bs;
    var xs, tail := p.Values(i, kb), p.Tail(kb);
    ScaleTight(xs, tail, lo(i, kb), hi(i, kb));
    if Scale(xs, tail) > 0.0 {
      CodeError(xs, tail, ij);
      StepsDequant(Code(xs, tail, ij), Zp(xs, tail), Scale(xs, tail));
    } else {
      ScaleZero(xs, tail);
    }
  }

  lemma StepsDequant(q: int, z: int, s: real)
    ensures Dequant(q as real, s, z as real) == Steps(q - z, s)
  {
  }

  /** The arrays the launcher reads hold element kk of row i of the table. */
  ghost predicate TableAt(p: Problem, iq: IntKBlockLauncher.IntQuant, t: map<Cell, QBlock>, qa: Matrix, i: int, kk: int)
  {
    var c := (i, kk / p.bs);
    && c in t && kk % p.bs < |t[c].codes| && qa(i, kk) == t[c].codes[kk % p.bs] as real
    && iq.Sa(i, kk / p.bs) == t[c].scale && iq.Za(i, kk / p.bs) == t[c].zp as real
  }

  /** What LauncherIntKBlock promises on arrays that hold the table is the product of the plan: da is the matrix its
      contract speaks of. */
  lemma {:induction false} LauncherProduct(p: Problem, iq: IntKBlockLauncher.IntQuant, t: map<Cell, QBlock>, qa: Matrix,
                                           da: Matrix, i: int, j: int, n: nat)
    requires iq.kblock == p.bs && forall kk | 0 <= kk < n :: iq.CodeA(qa, da, i, kk)
    requires forall kk | 0 <= kk < n :: TableAt(p, iq, t, qa, i, kk)
    ensures Dot(da, p.dw, i, j, 0, n) == Dot(p.Dequantised(t), p.dw, i, j, 0, n)
  {
    if n > 0 {
      LauncherProduct(p, iq, t, qa, da, i, j, n - 1);
      LauncherTerm(p, iq, t, qa, da, i, n - 1);
    }
  }

  lemma LauncherTerm(p: Problem, iq: IntKBlockLauncher.IntQuant, t: map<Cell, QBlock>, qa: Matrix, da: Matrix, i: int,
                     kk: nat)
    requires iq.kblock == p.bs && iq.CodeA(qa, da, i, kk) && TableAt(p, iq, t, qa, i, kk)
    ensures da(i, kk) == p.Dequantised(t)(i, kk)
  {
  }

  // ----- the error of a product

  function Abs(x: real): real {
    if x >= 0.0 then x else -x
  }

  /** The weights of one column against the errors of one row. */
  function ErrorBound(e: int -> real, b: Matrix, j: int, n: nat): real {
    if n == 0 then 0.0 else ErrorBound(e, b, j, n - 1) + e(n - 1) * Abs(b(n - 1, j))
  }

  /** Element kk of row i is off by at most e(kk). */
  predicate Near(a: Matrix, x: Matrix, e: int -> real, i: int, kk: int) {
    -e(kk) <= a(i, kk) - x(i, kk) <= e(kk)
  }

  predicate AllNear(a: Matrix, x: Matrix, e: int -> real, i: int, n: nat) {
    forall kk | 0 <= kk < n :: Near(a, x, e, i, kk)
  }

  lemma {:induction false} DotError(a: Matrix, x: Matrix, b: Matrix, e: int -> real, i: int, j: int, n: nat)
    requires AllNear(a, x, e, i, n)
    ensures Abs(Dot(a, b, i, j, 0, n) - Dot(x, b, i, j, 0, n)) <= ErrorBound(e, b, j, n)
  {
    if n > 0 {
      DotError(a, x, b, e, i, j, n - 1);
      assert Near(a, x, e, i, n - 1);
      TermError(a(i, n - 1), x(i, n - 1), b(n - 1, j), e(n - 1));
      Triangle(Dot(a, b, i, j, 0, n - 1), Dot(x, b, i, j, 0, n - 1), a(i, n - 1) * b(n - 1, j),
               x(i, n - 1) * b(n - 1, j), ErrorBound(e, b, j, n - 1), e(n - 1) * Abs(b(n - 1, j)));
    }
  }

  lemma Triangle(d: real, d': real, t: real, t': real, e: real, f: real)
    requires Abs(d - d') <= e && Abs(t - t') <= f
    ensures Abs((d + t) - (d' + t')) <= e + f
  {
  }

  lemma TermError(a: real, x: real, b: real, e: real)
    requires -e <= a - x <= e
    ensures Abs(a * b - x * b) <= e * Abs(b)
  {
    if b >= 0.0 {
      RealMulMono(a - x, e, b);
      RealMulMono(-e, a - x, b);
    } else {
      RealMulMono(a - x, e, -b);
      RealMulMono(-e, a - x, -b);
    }
    assert (a - x) * b == a * b - x * b && (a - x) * -b == x * b - a * b;
  }

  // ----- the run

  /** GemmRunWithA: whatever the threads, the K block and the interleaving, a run that cannot be extended has computed
      every element from the codes of all blocks, and is off the exact product by no more than half of a 255th of each
      block's range times its weight, for whatever ranges hold the blocks. */
  lemma EveryRunIsClose(p: Problem, threads: pos, gc: Grid, stepC: Dim2, run: seq<State<QBlock, real>>,
                        lo: (int, int) -> real, hi: (int, int) -> real)
    requires p.InRanges(lo, hi)
    requires Tiling(gc, stepC, threads) && gc.size.d0 == p.m
    requires IsRun(PlanOf(p, threads, gc, stepC), run) && Stuck(PlanOf(p, threads, gc, stepC), run[|run| - 1])
    ensures var last := run[|run| - 1];
            forall i, j | 0 <= i < p.m && 0 <= j < gc.size.d1 :: Close(p, last.codes, last.result, i, j, lo, hi)
  {
    var plan, last := PlanOf(p, threads, gc, stepC), run[|run| - 1];
    EveryInterleaving(plan, run);
    forall i, j | 0 <= i < p.m && 0 <= j < gc.size.d1
      ensures Close(p, last.codes, last.result, i, j, lo, hi)
    {
      CloseAt(p, threads, gc, stepC, last, i, j, lo, hi);
    }
  }

  lemma CloseAt(p: Problem, threads: pos, gc: Grid, stepC: Dim2, last: State<QBlock, real>, i: int, j: int,
                lo: (int, int) -> real, hi: (int, int) -> real)
    requires p.InRanges(lo, hi)
    requires Tiling(gc, stepC, threads) && gc.size.d0 == p.m && 0 <= i < p.m && 0 <= j < gc.size.d1
    requires last.codes == PlanOf(p, threads, gc, stepC).FullCodes()
    requires last.result == PlanOf(p, threads, gc, stepC).FullResult()
    ensures Close(p, last.codes, last.result, i, j, lo, hi)
  {
    PlanComputes(p, threads, gc, stepC, i, j);
    PlanNear(p, threads, gc, stepC, last.codes, i, lo, hi);
    CloseValue(p, last.codes, last.result, i, j, lo, hi);
  }

  lemma CloseValue(p: Problem, codes: map<Cell, QBlock>, result: map<Cell, real>, i: int, j: int,
                   lo: (int, int) -> real, hi: (int, int) -> real)
    requires (i, j) in result && result[(i, j)] == p.Product(codes, (i, j))
    requires AllNear(p.Dequantised(codes), p.Activations(), p.HalfStepOf(lo, hi, i), i, p.k)
    ensures Close(p, codes, result, i, j, lo, hi)
  {
    CloseCell(p, codes, i, j, lo, hi);
  }

  lemma PlanNear(p: Problem, threads: pos, gc: Grid, stepC: Dim2, codes: map<Cell, QBlock>, i: int,
                 lo: (int, int) -> real, hi: (int, int) -> real)
    requires p.InRanges(lo, hi)
    requires Tiling(gc, stepC, threads) && 0 <= i < p.m && codes == PlanOf(p, threads, gc, stepC).FullCodes()
    ensures AllNear(p.Dequantised(codes), p.Activations(), p.HalfStepOf(lo, hi, i), i, p.k)
  {
    RowNear(p, PlanOf(p, threads, gc, stepC), codes, i, lo, hi);
  }

  /** Element (i, j) is the product of the dequantised codes with the weights, within the error bound of the product. */
  ghost predicate Close(p: Problem, codes: map<Cell, QBlock>, result: map<Cell, real>, i: int, j: int,
                        lo: (int, int) -> real, hi: (int, int) -> real) {
    && (i, j) in result && result[(i, j)] == Dot(p.Dequantised(codes), p.dw, i, j, 0, p.k)
    && Abs(result[(i, j)] - Dot(p.Activations(), p.dw, i, j, 0, p.k))
       <= ErrorBound(p.HalfStepOf(lo, hi, i), p.dw, j, p.k)
  }

  function PlanOf(p: Problem, threads: pos, gc: Grid, stepC: Dim2): (plan: Plan<QBlock, real>)
    requires Tiling(gc, stepC, threads)
    ensures plan.Valid() && plan.ga.size == Dim2(p.m, p.k) && plan.kblock == p.bs && plan.gc == gc
    ensures forall c :: plan.quant(c) == p.Quant(c)
  {
    SchedulersGivePlan(threads, p.m, p.k, p.bs, gc, stepC, c => p.Quant(c), (t, c) => p.Product(t, c));
    Plan(threads, p.bs, Schedule(Dim2(p.m, p.k), Dim2(1, p.bs), threads), gc, stepC, c => p.Quant(c),
         (t, c) => p.Product(t, c))
  }

  /** The sequential result of the plan. */
  lemma PlanComputes(p: Problem, threads: pos, gc: Grid, stepC: Dim2, i: int, j: int)
    requires Tiling(gc, stepC, threads) && 0 <= i < gc.size.d0 && 0 <= j < gc.size.d1
    ensures var plan := PlanOf(p, threads, gc, stepC);
            (i, j) in plan.FullResult() && plan.FullResult()[(i, j)] == p.Product(plan.FullCodes(), (i, j))
  {
    var plan := PlanOf(p, threads, gc, stepC);
    assert (i, j) in plan.CellsC();
  }

  lemma CloseCell(p: Problem, codes: map<Cell, QBlock>, i: int, j: int, lo: (int, int) -> real, hi: (int, int) -> real)
    requires AllNear(p.Dequantised(codes), p.Activations(), p.HalfStepOf(lo, hi, i), i, p.k)
    ensures Abs(Dot(p.Dequantised(codes), p.dw, i, j, 0, p.k) - Dot(p.Activations(), p.dw, i, j, 0, p.k))
         <= ErrorBound(p.HalfStepOf(lo, hi, i), p.dw, j, p.k)
  {
    DotError(p.Dequantised(codes), p.Activations(), p.dw, p.HalfStepOf(lo, hi, i), i, j, p.k);
  }

  lemma RowNear(p: Problem, plan: Plan<QBlock, real>, codes: map<Cell, QBlock>, i: int, lo: (int, int) -> real,
                hi: (int, int) -> real)
    requires p.InRanges(lo, hi)
    requires plan.Valid() && plan.kblock == p.bs && plan.ga.size == Dim2(p.m, p.k) && 0 <= i < p.m
    requires (forall c :: plan.quant(c) == p.Quant(c)) && codes == plan.FullCodes()
    ensures AllNear(p.Dequantised(codes), p.Activations(), p.HalfStepOf(lo, hi, i), i, p.k)
  {
    forall kk | 0 <= kk < p.k
      ensures Near(p.Dequantised(codes), p.Activations(), p.HalfStepOf(lo, hi, i), i, kk)
    {
      InTable(p, plan, i, kk);
      Nearby(p, codes, i, kk, lo, hi);
    }
  }

  lemma InTable(p: Problem, plan: Plan<QBlock, real>, i: int, kk: int)
    requires plan.Valid() && plan.kblock == p.bs && plan.ga.size == Dim2(p.m, p.k) && 0 <= i < p.m && 0 <= kk < p.k
    requires forall c :: plan.quant(c) == p.Quant(c)
    ensures var c := (i, kk / p.bs); c in plan.FullCodes() && plan.FullCodes()[c] == p.Quant(c)
  {
    Place(p, i, kk);
    UpdivBounds(p.k, p.bs, kk / p.bs);
    assert (i, kk / p.bs) in plan.BlocksA();
  }
}
