/** Whole runs whose block sums are computed and not given: the sums of B at packing, the sums of A in the prologue. */
module ReducedRuns {
  import opened Utils
  import opened Layouts
  import opened GemmCore
  import opened DotProducts
  import opened WeightPacking
  import opened Scheduling
  import opened GemmScheduling
  import opened GemmKernel
  import opened GemmLauncher
  import opened KBlockLauncher
  import opened IntKBlockKernel
  import opened IntKBlockLauncher
  import opened GemmPipeline
  import opened KBlockPipeline
  import BlockSums

  lemma {:induction false} SameColSum(b: Matrix, b': Matrix, j: int, lo: int, hi: int)
    requires forall k | lo <= k < hi :: b(k, j) == b'(k, j)
    ensures ColSum(b, j, lo, hi) == ColSum(b', j, lo, hi)
    decreases hi - lo
  {
    if lo < hi { SameColSum(b, b', j, lo, hi - 1); }
  }

  lemma {:induction false} SameRowSum(a: Matrix, a': Matrix, i: int, lo: int, hi: int)
    requires forall k | lo <= k < hi :: a(i, k) == a'(i, k)
    ensures RowSum(a, i, lo, hi) == RowSum(a', i, lo, hi)
    decreases hi - lo
  {
    if lo < hi { SameRowSum(a, a', i, lo, hi - 1); }
  }

  /** Every sum of a job is in its array. */
  ghost predicate AllSummed(j: BlockSums.Job, s: seq<real>, d: seq<real>) {
    forall q | 0 <= q < |d| && j.In((q / j.ldr, q % j.ldr)) :: d[q] == j.SumOf(s, (q / j.ldr, q % j.ldr))
  }

  lemma SumAt(j: BlockSums.Job, s: seq<real>, d: seq<real>, x: (int, int))
    requires j.Valid() && j.In(x) && |d| == j.red.Length && AllSummed(j, s, d)
    ensures BufferAt(d, 0, j.ldr, x.0, x.1) == j.SumOf(s, x)
  {
    BlockSums.CellPlace(j, x);
  }

  // ----- LauncherIntKBlock with the sums of B

  /** The first k rows and n columns of deq are dw. */
  ghost predicate Unpacked(deq: seq<real>, ldd: int, k: nat, n: nat, dw: Matrix) {
    WindowFits(|deq|, 0, ldd, k, n) && forall r, c | 0 <= r < k && 0 <= c < n :: MatrixOf(deq, ldd)(r, c) == dw(r, c)
  }

  function WeightJob(p: Param, iq: IntQuant, deq: array<real>, ldd: nat, red: array<real>): BlockSums.Job
    requires iq.cstepB > 0
  {
    BlockSums.Job(BlockSums.Down, deq, ldd, p.k, p.n, iq.kblock, red, iq.cstepB)
  }

  /** reduceWeight establishes what the launcher needs of the sums. */
  lemma WeightSums(p: Param, iq: IntQuant, deq: array<real>, ldd: nat, red: array<real>, qa: Matrix, qb: Matrix,
                   da: Matrix, dw: Matrix)
    requires iq.cstepB > 0 && WeightJob(p, iq, deq, ldd, red).Valid() && iq.Codes(p, qa, qb, da, dw)
    requires p.k % iq.kblock == 0 && Unpacked(deq[..], ldd, p.k, p.n, dw) && |iq.reduceB| == red.Length
    requires AllSummed(WeightJob(p, iq, deq, ldd, red), deq[..], red[..])
    ensures iq.(reduceB := red[..]).Holds(p, qa, qb, da, dw)
  {
    var j, iq' := WeightJob(p, iq, deq, ldd, red), iq.(reduceB := red[..]);
    assert iq'.Codes(p, qa, qb, da, dw) by {
      forall i, k ensures iq'.CodeA(qa, da, i, k) { assert iq.CodeA(qa, da, i, k); }
      forall k, c ensures iq'.CodeB(qb, dw, k, c) { assert iq.CodeB(qb, dw, k, c); }
    }
    forall kb, c | 0 <= kb < iq.Blocks(p) && 0 <= c < p.n
      ensures iq'.Rb(kb, c) == ColSum(dw, c, kb * iq.kblock, kb * iq.kblock + iq.kblock)
    {
      BlockSums.InBounds(j, (kb, c));
      SumAt(j, deq[..], red[..], (kb, c));
      LastBlockWhole(p.k, iq.kblock, kb);
      MulMono(0, kb, iq.kblock);
      SameColSum(MatrixOf(deq[..], ldd), dw, c, kb * iq.kblock, kb * iq.kblock + iq.kblock);
    }
  }

  lemma LastBlockWhole(k: pos, kblock: pos, kb: nat)
    requires k % kblock == 0 && kb * kblock < k
    ensures kb * kblock + kblock <= k
  {
    ModOfMultiple(kb, kblock);
    MultiplesApart(kb * kblock, k, kblock);
  }

  /** Block sums of the dequantised weights on one grid of threads, then GemmRun on another: C becomes the product of
      the dequantised matrices. */
  method ReduceAndRunInt(p: Param, iq: IntQuant, deq: array<real>, ldd: nat, red: array<real>, threads1: pos,
                         order1: seq<nat>, threads: pos, l2: int, l1: int, order: seq<nat>, ghost qa: Matrix,
                         ghost qb: Matrix, ghost da: Matrix, ghost dw: Matrix)
    returns (ghost hits: Hits)
    requires p.Holds(qa, qb) && p.Separate() && RunsAll(order1, threads1) && RunsAll(order, threads)
    requires iq.Codes(p, qa, qb, da, dw) && iq.reduceB == red[..] && p.n <= iq.cstepB && iq.cstepB > 0
    requires Unpacked(deq[..], ldd, p.k, p.n, dw) && red !in {deq, p.matA, p.packed, p.matC} && deq != p.matC
    requires Ready(KBlockS, p.core, Dim3(p.m, p.n, p.k), threads, l2, l1, iq.kblock) && p.k % iq.kblock == 0
    modifies red, p.matC
    ensures p.Holds(qa, qb)
    ensures Written(p.ldc, p.matC[..], old(p.matC[..]), ProductOf(da, dw, p.k), 0, 0, p.m, p.n)
    ensures HitsOnce(hits, 0, 0, p.m, p.n)
  {
    var j := WeightJob(p, iq, deq, ldd, red);
    WeightWindow(p, iq, red.Length);
    BlockSums.Reduce(j, threads1, order1);
    WeightSums(p, iq, deq, ldd, red, qa, qb, da, dw);
    hits := GemmRunInt(p, iq.(reduceB := red[..]), threads, l2, l1, order, qa, qb, da, dw);
  }

  /** The padded columns of the sums leave room for the real ones. */
  lemma WeightWindow(p: Param, iq: IntQuant, len: nat)
    requires iq.Sized(p) && len == |iq.reduceB|
    ensures WindowFits(len, 0, iq.cstepB, Updiv(p.k, iq.kblock), p.n)
  {
    PadtoBounds(p.n, p.core.ntile);
    UpdivBounds(p.k, iq.kblock, 0);
    WindowIndex(len, 0, iq.cstepB, Updiv(p.k, iq.kblock), p.L().npad, Updiv(p.k, iq.kblock) - 1, p.n - 1);
  }

  // ----- LauncherKBlock with the sums of A

  function ActivationJob(p: Param, kq: KQuant, red: array<real>): BlockSums.Job
    requires kq.ldra > 0
  {
    BlockSums.Job(BlockSums.Across, p.matA, p.lda, p.m, p.k, kq.kblock, red, kq.ldra)
  }

  /** reduce of the prologue establishes what the launcher needs of the sums. */
  lemma ActivationSums(p: Param, kq: KQuant, red: array<real>, a: Matrix, b: Matrix, w: Matrix)
    requires kq.ldra > 0 && ActivationJob(p, kq, red).Valid() && kq.Codes(p, b, w)
    requires OperandA(p.matA[..], 0, p.lda, p.m, p.k, a) && |kq.reduce| == red.Length
    requires AllSummed(ActivationJob(p, kq, red), p.matA[..], red[..])
    ensures kq.(reduce := red[..]).Holds(p, a, b, w)
  {
    var j, kq' := ActivationJob(p, kq, red), kq.(reduce := red[..]);
    assert kq'.Codes(p, b, w) by {
      forall k, c
        ensures w(k, c) == Dequant(b(k, c), kq'.Scale(k / kq'.kblock, c), kq'.Zp(k / kq'.kblock, c))
      {
        assert kq'.Scale(k / kq.kblock, c) == kq.Scale(k / kq.kblock, c);
        assert kq'.Zp(k / kq.kblock, c) == kq.Zp(k / kq.kblock, c);
      }
    }
    forall i, kb | 0 <= i < p.m && 0 <= kb < kq.Blocks(p)
      ensures MatrixOf(kq'.reduce, kq'.ldra)(i, kb) == RowSum(a, i, kq.Start(p, kb), kq.Start(p, kb + 1))
    {
      BlockSums.InBounds(j, (i, kb));
      SumAt(j, p.matA[..], red[..], (i, kb));
      MulMono(0, kb, kq.kblock);
      AddTimes(kb, 1, kq.kblock);
      SameRow(p, a, i, kq.Start(p, kb), kq.Start(p, kb + 1));
    }
  }

  lemma SameRow(p: Param, a: Matrix, i: nat, lo: nat, hi: nat)
    requires OperandA(p.matA[..], 0, p.lda, p.m, p.k, a) && i < p.m && hi <= p.k
    ensures RowSum(MatrixOf(p.matA[..], p.lda), i, lo, hi) == RowSum(a, i, lo, hi)
  {
    forall k | lo <= k < hi
      ensures MatrixOf(p.matA[..], p.lda)(i, k) == a(i, k)
    {
      WindowIndex(p.matA.Length, 0, p.lda, p.m, p.k, i, k);
      assert p.matA[..][0 + RowMajor(p.lda, i, k)] == a(i, k);
    }
    SameRowSum(MatrixOf(p.matA[..], p.lda), a, i, lo, hi);
  }

  /** Block sums of the activations on one grid of threads, then GemmRun on another: C becomes A times the dequantised
      weights. */
  method ReduceAndRunKBlock(p: Param, kq: KQuant, red: array<real>, threads1: pos, order1: seq<nat>, threads: pos,
                            l2: int, l1: int, order: seq<nat>, ghost a: Matrix, ghost b: Matrix, ghost w: Matrix)
    returns (ghost hits: Hits)
    requires p.Holds(a, b) && p.Separate() && RunsAll(order1, threads1) && RunsAll(order, threads)
    requires kq.Codes(p, b, w) && kq.reduce == red[..] && red !in {p.matA, p.packed, p.matC}
    requires Updiv(p.k, kq.kblock) <= kq.ldra && WindowFits(red.Length, 0, kq.ldra, p.m, Updiv(p.k, kq.kblock))
    requires Ready(KBlock, p.core, Dim3(p.m, p.n, p.k), threads, l2, l1, kq.kblock)
    requires Suits(p.core, Dim3(p.m, p.n, p.k), ChosenShare(p.core, Dim3(p.m, p.n, p.k), threads), l1, kq.kblock)
    modifies red, p.matC
    ensures p.Holds(a, b)
    ensures Written(p.ldc, p.matC[..], old(p.matC[..]), ProductOf(a, w, p.k), 0, 0, p.m, p.n)
    ensures HitsOnce(hits, 0, 0, p.m, p.n)
  {
    UpdivBounds(p.k, kq.kblock, 0);
    var j := ActivationJob(p, kq, red);
    BlockSums.Reduce(j, threads1, order1);
    ActivationSums(p, kq, red, a, b, w);
    hits := GemmRunKBlock(p, kq.(reduce := red[..]), threads, l2, l1, order, a, b, w);
  }
}
