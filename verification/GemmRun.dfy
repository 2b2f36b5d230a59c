/** GemmRun of bestla_parallel.h with SchedulerBase, WeightPack and LauncherBase: the whole pipeline from two
    matrices to their product. */
module GemmPipeline {
  import opened Utils
  import opened Layouts
  import opened GemmCore
  import opened DotProducts
  import opened WeightPacking
  import opened Scheduling
  import opened GemmScheduling
  import opened GemmKernel
  import opened GemmLauncher

  // ----- the launcher's stack buffer

  /** The scratch regions a launcher carves from its stack buffer at `base`, for operands of the given byte sizes. */
  datatype Regions = Regions(b: nat, a: nat, c: nat, cache: nat)

  function Carve(bBytes: nat, aBytes: nat, cBytes: nat, base: nat): Regions {
    var b := Align64(base);
    var a := Align64(b + bBytes);
    var c := Align64(a + aBytes);
    Regions(b, a, c, Align64(c + cBytes))
  }

  /** With the scheduler's budget, tmpB, tmpA and tmpC are 64-aligned, follow each other without overlap and end
      inside the stack buffer of l2 bytes, whatever its address. */
  lemma RegionsFit(core: Core, block: Dim3, base: nat, l2: int, sb: int, sa: int, sc: int)
    requires block.d0 > 0 && block.d1 > 0 && block.d2 > 0 && L2Use(core, block) <= l2 - RESERVED
    requires sb == block.d1 * block.d2 * core.bSize && sa == core.mtile * block.d2 * core.aSize
    requires sc == block.d0 * block.d1 * core.cSize
    ensures sb > 0 && sa > 0 && sc > 0
    ensures var r := Carve(sb, sa, sc, base);
            && r.b % 64 == 0 && r.a % 64 == 0 && r.c % 64 == 0
            && base <= r.b && r.b + sb <= r.a && r.a + sa <= r.c && r.c + sc <= r.cache <= base + l2
  {
    Product3(block.d1, block.d2, core.bSize);
    Product3(core.mtile, block.d2, core.aSize);
    Product3(block.d0, block.d1, core.cSize);
    assert L2Use(core, block) == sc + sb + sa;
    CarveOrdered(sb, sa, sc, base);
  }

  lemma Product3(x: pos, y: pos, z: pos)
    ensures x * y * z > 0
  {
    assert x * y > 0;
  }

  lemma CarveOrdered(sb: nat, sa: nat, sc: nat, base: nat)
    ensures var r := Carve(sb, sa, sc, base);
            && r.b % 64 == 0 && r.a % 64 == 0 && r.c % 64 == 0 && r.cache % 64 == 0
            && base <= r.b && r.b + sb <= r.a && r.a + sa <= r.c && r.c + sc <= r.cache <= base + sb + sa + sc + 252
  {
    var r := Carve(sb, sa, sc, base);
    Align64Bounds(base);
    Align64Bounds(r.b + sb);
    Align64Bounds(r.a + sa);
    Align64Bounds(r.c + sc);
  }

  /** The cache handed on beside them is given as all of L2 that is not in use; it ends inside the buffer if and only
      if the buffer and the size of every region are multiples of 64. */
  lemma CacheExtent(sb: nat, sa: nat, sc: nat, base: nat, l2: int)
    ensures Carve(sb, sa, sc, base).cache + (l2 - (sb + sa + sc)) <= base + l2
       <==> base % 64 == 0 && sb % 64 == 0 && sa % 64 == 0 && sc % 64 == 0
  {
    var r := Carve(sb, sa, sc, base);
    CarveOrdered(sb, sa, sc, base);
    Gap(0, base);
    Gap(r.b, sb);
    Gap(r.a, sa);
    Gap(r.c, sc);
    NoGaps(base, r.b, r.a, r.c, r.cache, sb, sa, sc);
  }

  /** Aligning behind a region of n bytes costs nothing exactly if n is a multiple of 64. */
  lemma Gap(at: nat, n: nat)
    requires at % 64 == 0
    ensures Align64(at + n) == at + n <==> n % 64 == 0
  {
    if n % 64 == 0 {
      MultiplesAdd(at, n, 64);
    } else if Align64(at + n) == at + n {
      Align64Bounds(at + n);
      MultiplesAdd(at + n, at, 64);
    }
  }

  lemma NoGaps(base: int, b: int, a: int, c: int, end: int, sb: int, sa: int, sc: int)
    requires base <= b && b + sb <= a && a + sa <= c && c + sc <= end
    ensures end <= base + sb + sa + sc <==> b == base && a == b + sb && c == a + sa && end == c + sc
  {
  }

  /** With a buffer as alloca aligns it, to 16 bytes and not to 64, the cache always overruns the buffer. */
  lemma CacheOverrun(sb: nat, sa: nat, sc: nat, base: nat, l2: int)
    requires base % 64 == 16
    ensures Carve(sb, sa, sc, base).cache + (l2 - (sb + sa + sc)) > base + l2
  {
    CacheExtent(sb, sa, sc, base, l2);
  }

  // ----- GemmRun

  /** Elements whose thread has run hold the product; nothing else has changed. */
  ghost predicate OwnedWritten(p: Param, d: seq<real>, d0: seq<real>, a: Matrix, b: Matrix, g: Grid, ran: seq<nat>)
    requires g.thd.d0 > 0 && g.thd.d1 > 0
  {
    && |d| == |d0|
    && forall q | 0 <= q < |d| ::
         d[q] == if InSlice(0, 0, p.m, p.n, q / p.ldc, q % p.ldc) && Owner(g, q / p.ldc, q % p.ldc) in ran
         then Dot(a, b, q / p.ldc, q % p.ldc, 0, p.k) else d0[q]
  }

  ghost predicate OwnedHits(p: Param, h: Hits, g: Grid, ran: seq<nat>)
    requires g.thd.d0 > 0 && g.thd.d1 > 0
  {
    forall i, j :: h(i, j) == if InSlice(0, 0, p.m, p.n, i, j) && Owner(g, i, j) in ran then 1 else 0
  }

  /** A thread's rectangle, as the launcher gets it, is exactly what the thread owns. */
  lemma OwnedRectangle(p: Param, g: Grid, threads: int, tid: nat, i: int, j: int)
    requires Tiling(g, Step(p.core), threads) && g.size == Dim2(p.m, p.n)
    requires g.valid > tid ==> g.perRow > 0
    ensures var t := GetIndex(g, tid);
            (t.valid && InSlice(t.loc.d0, t.loc.d1, t.size.d0, t.size.d1, i, j))
            <==> InSlice(0, 0, p.m, p.n, i, j) && Owner(g, i, j) == tid
  {
    var t := GetIndex(g, tid);
    if t.valid {
      RectangleShape(g, Step(p.core), threads, tid);
    }
    if InSlice(0, 0, p.m, p.n, i, j) {
      ExactCover(g, Step(p.core), threads, i, j);
      assert Inside(t, i, j) <==> tid == Owner(g, i, j);
    }
  }

  lemma ThreadStep(p: Param, d: seq<real>, d1: seq<real>, d0: seq<real>, a: Matrix, b: Matrix, g: Grid, threads: int,
                   order: seq<nat>, t: nat)
    requires Tiling(g, Step(p.core), threads) && g.size == Dim2(p.m, p.n) && t < |order|
    requires g.valid > order[t] ==> g.perRow > 0
    requires OwnedWritten(p, d1, d0, a, b, g, order[..t])
    requires var r := GetIndex(g, order[t]);
             if r.valid then Written(p.ldc, d, d1, ProductOf(a, b, p.k), r.loc.d0, r.loc.d1, r.size.d0,
                                     r.size.d1) else d == d1
    ensures OwnedWritten(p, d, d0, a, b, g, order[..t + 1])
  {
    assert order[..t + 1] == order[..t] + [order[t]];
    forall q | 0 <= q < |d|
      ensures d[q] == if InSlice(0, 0, p.m, p.n, q / p.ldc, q % p.ldc)
                         && Owner(g, q / p.ldc, q % p.ldc) in order[..t + 1]
                      then Dot(a, b, q / p.ldc, q % p.ldc, 0, p.k) else d0[q]
    {
      OwnedRectangle(p, g, threads, order[t], q / p.ldc, q % p.ldc);
    }
  }

  lemma HitStep(p: Param, h: Hits, h1: Hits, w: Hits, g: Grid, threads: int, order: seq<nat>, t: nat)
    requires Tiling(g, Step(p.core), threads) && g.size == Dim2(p.m, p.n) && t < |order|
    requires g.valid > order[t] ==> g.perRow > 0
    requires forall i, j | 0 <= i < j < |order| :: order[i] != order[j]
    requires OwnedHits(p, h1, g, order[..t])
    requires var r := GetIndex(g, order[t]);
             if r.valid then HitsOnce(w, r.loc.d0, r.loc.d1, r.size.d0, r.size.d1) else forall i, j :: w(i, j) == 0
    requires forall i, j :: h(i, j) == h1(i, j) + w(i, j)
    ensures OwnedHits(p, h, g, order[..t + 1])
  {
    assert order[..t + 1] == order[..t] + [order[t]];
    assert order[t] !in order[..t];
    forall i, j
      ensures h(i, j) == if InSlice(0, 0, p.m, p.n, i, j) && Owner(g, i, j) in order[..t + 1] then 1 else 0
    {
      OwnedRectangle(p, g, threads, order[t], i, j);
    }
  }

  /** What the scheduler's blocks and a thread's rectangle give the launcher. */
  lemma ConfigOf(p: Param, g: Grid, threads: int, tid: nat, block: Dim3)
    requires Tiling(g, Step(p.core), threads) && g.size == Dim2(p.m, p.n) && tid < g.valid
    requires BlockShape(p.core, block, g.thd) && block.d2 % p.core.ktile == 0
    ensures g.perRow > 0
    ensures var r := GetIndex(g, tid); r.valid && Config(r.loc, r.size, block).Valid(p)
  {
    RectangleShape(g, Step(p.core), threads, tid);
  }

  /** GemmRun: for every thread count, cache size and order of threads, C becomes the product, every element being
      written exactly once, and nothing else of C changes. */
  method GemmRun(p: Param, threads: pos, l2: int, l1: int, order: seq<nat>, ghost a: Matrix, ghost b: Matrix)
    returns (ghost hits: Hits)
    requires p.Holds(a, b) && p.Separate() && RunsAll(order, threads)
    requires Ready(Base, p.core, Dim3(p.m, p.n, p.k), threads, l2, l1, 1)
    modifies p.matC
    ensures p.Holds(a, b)
    ensures Written(p.ldc, p.matC[..], old(p.matC[..]), ProductOf(a, b, p.k), 0, 0, p.m, p.n)
    ensures HitsOnce(hits, 0, 0, p.m, p.n)
  {
    var para := new GemmScheduler(p.core, Base, threads, Dim3(p.m, p.n, p.k), l2, l1, 1);
    var g := para.State();
    var block := para.block;
    ghost var d0 := p.matC[..];
    hits := (i, j) => 0;
    for t := 0 to |order|
      invariant p.Holds(a, b)
      invariant OwnedWritten(p, p.matC[..], d0, a, b, g, order[..t])
      invariant OwnedHits(p, hits, g, order[..t])
    {
      PerRowPositive(g, Step(p.core), threads);
      var thdp := GetIndex(g, order[t]);
      ghost var before, h := p.matC[..], hits;
      ghost var w: Hits := (i, j) => 0;
      if thdp.valid {
        ConfigOf(p, g, threads, order[t], block);
        w := RunThread(p, Config(thdp.loc, thdp.size, block), a, b);
        hits := (i, j) => h(i, j) + w(i, j);
      }
      ThreadStep(p, p.matC[..], before, d0, a, b, g, threads, order, t);
      HitStep(p, hits, h, w, g, threads, order, t);
    }
    assert order[..|order|] == order;
    AllOwned(p, g, threads, order);
  }

  lemma AllOwned(p: Param, g: Grid, threads: nat, order: seq<nat>)
    requires Tiling(g, Step(p.core), threads) && g.size == Dim2(p.m, p.n) && RunsAll(order, threads)
    ensures forall i, j | InSlice(0, 0, p.m, p.n, i, j) :: Owner(g, i, j) in order
  {
    forall i, j | InSlice(0, 0, p.m, p.n, i, j)
      ensures Owner(g, i, j) in order
    {
      ExactCover(g, Step(p.core), threads, i, j);
    }
  }

  /** A thread's scratch memory is its own. */
  method RunThread(p: Param, cfg: Config, ghost a: Matrix, ghost b: Matrix) returns (ghost hits: Hits)
    requires p.Holds(a, b) && p.Separate() && cfg.Valid(p)
    modifies p.matC
    ensures p.Holds(a, b)
    ensures Written(p.ldc, p.matC[..], old(p.matC[..]), ProductOf(a, b, p.k), cfg.loc.d0, cfg.loc.d1, cfg.size.d0,
                    cfg.size.d1)
    ensures HitsOnce(hits, cfg.loc.d0, cfg.loc.d1, cfg.size.d0, cfg.size.d1)
  {
    PadtoBounds(cfg.block.d2, p.core.ktile);
    PosTimes(cfg.block.d1, Depth(p.core, cfg.block.d2));
    PosTimes(cfg.block.d0, cfg.block.d1);
    PosTimes(p.core.mtile, Depth(p.core, cfg.block.d2));
    var tmpA := new real[p.core.mtile * Depth(p.core, cfg.block.d2)];
    var tmpB := new real[cfg.block.d1 * Depth(p.core, cfg.block.d2)];
    var tmpC := new real[cfg.block.d0 * cfg.block.d1];
    hits := Run(p, cfg, Scratch(tmpA, tmpB, tmpC), a, b);
  }

  // ----- the whole pipeline

  /** The packed buffer as a matrix. */
  ghost function PackedMatrix(l: Layout, d: seq<real>): Matrix
    requires l.Valid() && |d| == l.Size()
  {
    (kk: int, nn: int) => if l.In(kk, nn) then l.At(d, kk, nn) else 0.0
  }

  /** Pack B with t1 threads, then multiply with t2: C is A times B, for all sizes, thread counts, thread orders,
      tile shapes and caches that hold one minimal tile. Only an empty K leaves C as it was, instead of clearing it. */
  method PackAndMultiply(core: Core, m: nat, n: nat, k: nat, matA: array<real>, lda: pos, matB: array<real>, ldb: pos,
                         matC: array<real>, ldc: pos, t1: pos, order1: seq<nat>, t2: pos, order2: seq<nat>, l2: int,
                         l1: int)
    returns (ghost hits: Hits)
    requires core.Valid() && matC != matA && matC != matB
    requires WindowFits(matA.Length, 0, lda, m, k) && WindowFits(matB.Length, 0, ldb, k, n)
    requires WindowFits(matC.Length, 0, ldc, m, n)
    requires n <= ldc && RunsAll(order1, t1) && RunsAll(order2, t2)
    requires Empty(Dim3(m, n, k)) || Ready(Base, core, Dim3(m, n, k), t2, l2, l1, 1)
    modifies matC
    ensures forall q | 0 <= q < matC.Length ::
              matC[q] == if k > 0 && InSlice(0, 0, m, n, q / ldc, q % ldc)
              then Dot(MatrixOf(matA[..], lda), MatrixOf(matB[..], ldb), q / ldc, q % ldc, 0, k)
              else old(matC[q])
    ensures HitsOnce(hits, 0, 0, if k > 0 then m else 0, n)
  {
    var packed := new real[PackedLayout(k, n, core.ktile, core.ntile, core.packRow).Size()](_ => 0.0);
    PackWeight(matB, ldb, packed, k, n, core.ktile, core.ntile, core.packRow, 0.0, t1, order1);
    if m > 0 && n > 0 && k > 0 {
      hits := Multiply(core, m, n, k, matA, lda, packed, matB, ldb, matC, ldc, t2, order2, l2, l1);
    } else {
      var para := new GemmScheduler(core, Base, t2, Dim3(m, n, k), l2, l1, 1);
      assert forall t: nat :: !GetIndex(para.State(), t).valid;
      hits := (i, j) => 0;
    }
  }

  /** The second half, for a problem that is not empty. */
  method Multiply(core: Core, m: pos, n: pos, k: pos, matA: array<real>, lda: pos, packed: array<real>,
                  ghost matB: array<real>, ghost ldb: pos, matC: array<real>, ldc: pos, threads: pos, order: seq<nat>,
                  l2: int, l1: int)
    returns (ghost hits: Hits)
    requires core.Valid() && matC != matA && matC != matB && matC != packed
    requires WindowFits(matA.Length, 0, lda, m, k) && WindowFits(matB.Length, 0, ldb, k, n)
    requires WindowFits(matC.Length, 0, ldc, m, n)
    requires packed.Length == PackedLayout(k, n, core.ktile, core.ntile, core.packRow).Size()
    requires PackedAs(PackedLayout(k, n, core.ktile, core.ntile, core.packRow), packed[..], matB[..], ldb, k, n, 0.0)
    requires n <= ldc && RunsAll(order, threads) && Ready(Base, core, Dim3(m, n, k), threads, l2, l1, 1)
    modifies matC
    ensures forall q | 0 <= q < matC.Length ::
              matC[q] == if InSlice(0, 0, m, n, q / ldc, q % ldc)
              then Dot(MatrixOf(matA[..], lda), MatrixOf(matB[..], ldb), q / ldc, q % ldc, 0, k)
              else old(matC[q])
    ensures HitsOnce(hits, 0, 0, m, n)
  {
    ghost var l := PackedLayout(k, n, core.ktile, core.ntile, core.packRow);
    PackedLayoutValid(k, n, core.ktile, core.ntile, core.packRow);
    var p := Param(core, m, n, k, matA, lda, packed, matC, ldc);
    ghost var a, b := MatrixOf(matA[..], lda), PackedMatrix(l, packed[..]);
    OperandOf(matA[..], lda, m, k);
    PackedHolds(p, packed[..], matB[..], ldb);
    hits := GemmRun(p, threads, l2, l1, order, a, b);
    forall q | 0 <= q < matC.Length && InSlice(0, 0, m, n, q / ldc, q % ldc)
      ensures Dot(a, b, q / ldc, q % ldc, 0, k) == Dot(a, MatrixOf(matB[..], ldb), q / ldc, q % ldc, 0, k)
    {
      SameProduct(p, packed[..], matB[..], ldb, a, q / ldc, q % ldc);
    }
  }

  lemma OperandOf(s: seq<real>, lda: nat, m: nat, k: nat)
    requires WindowFits(|s|, 0, lda, m, k)
    ensures OperandA(s, 0, lda, m, k, MatrixOf(s, lda))
  {
    forall r, kk | 0 <= r < m && 0 <= kk < k
      ensures 0 <= RowMajor(lda, r, kk) < |s|
    {
      WindowIndex(|s|, 0, lda, m, k, r, kk);
    }
  }

  lemma PackedHolds(p: Param, w: seq<real>, s: seq<real>, ldb: nat)
    requires PackedAs(p.L(), w, s, ldb, p.k, p.n, 0.0)
    ensures forall kk, nn | p.L().In(kk, nn) :: p.L().At(w, kk, nn) == PackedMatrix(p.L(), w)(kk, nn)
    ensures p.ZeroBelow(PackedMatrix(p.L(), w))
  {
    var b := PackedMatrix(p.L(), w);
    forall kk, nn | p.k <= kk < p.L().kpad && 0 <= nn < p.L().npad
      ensures b(kk, nn) == 0.0
    {
      assert p.L().At(w, kk, nn) == Padded(s, 0, ldb, p.k, p.n, 0.0, kk, nn);
    }
  }

  lemma SameProduct(p: Param, w: seq<real>, s: seq<real>, ldb: nat, a: Matrix, i: int, j: int)
    requires PackedAs(p.L(), w, s, ldb, p.k, p.n, 0.0) && 0 <= j < p.n
    ensures Dot(a, PackedMatrix(p.L(), w), i, j, 0, p.k) == Dot(a, MatrixOf(s, ldb), i, j, 0, p.k)
  {
    var b, b' := PackedMatrix(p.L(), w), MatrixOf(s, ldb);
    PadtoBounds(p.k, p.core.ktile);
    PadtoBounds(p.n, p.core.ntile);
    forall kk | 0 <= kk < p.k
      ensures b(kk, j) == b'(0 + kk, j)
    {
      assert p.L().At(w, kk, j) == Padded(s, 0, ldb, p.k, p.n, 0.0, kk, j);
      WindowIndex(|s|, 0, ldb, p.k, p.n, kk, j);
    }
    DotShift(a, b', i, j, a, b, i, j, 0, p.k);
  }
}
